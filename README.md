# Git provider of drush_deploy, modelled in Dafny

This project models the Git provider of the drush_deploy deployment tool
(`Drush/Deploy/Git.php`). The provider does two jobs:

- **Command builders.** `checkout`, `clone_only`, `pull`, `export` and `sync`
  each build the shell command that puts a revision into a destination
  directory on the target host. `checkout`, `pull` and `sync` collect steps in
  a local list, adding some of them only under an option (a non-default
  remote, a shallow-clone depth, submodules), and join the list with
  `" && "`. `clone_only` builds a single clone command. `export` extends
  `checkout`'s command with a removal step.
- **Revision resolver.** `queryRevision` turns a branch or tag name into a
  40-hex commit id. An id that is already canonical is returned at once.
  Otherwise the resolver scans the `git ls-remote` listing and takes the first
  line whose ref, with every `refs/<segment>/` removed, equals the name. If the
  result is not a commit id, it throws.

Modules:

- `Wrappers` (wrappers.dfy): `Option` and `Result`.
- `Text` (text.dfy): PHP's `implode` (`Join`) and substring facts about joined
  strings.
- `Patterns` (patterns.dfy): the three regular expressions the resolver uses:
  - the commit-id pattern `/^[0-9a-f]{40}$/`;
  - the ref stripper `/refs\/.*?\//`, replaced by the empty string;
  - the field split `/\s+/`.
- `Steps` (steps.dfy): the option record with its defaults, one function per
  builder giving its step sequence, and lemmas about which steps appear, in what
  order and under which option.
- `Resolution` (resolution.dfy): the resolver as a specification function,
  `Resolve`, built on `FirstMatch`, with lemmas about it.
- `Deploy` (git.dfy): class `Git`. Its constructor fixes the verbosity string.
  Its methods build their step lists by appends, as the source does.
  `Checkout`, `Pull` and `Sync` are proved to return their `Steps` sequence
  (`CheckoutSteps`, `PullSteps`, `SyncSteps`) joined with `" && "`. `CloneOnly`
  is proved to return `Steps.CloneOnlyCommand`. `Export` returns `None`.
  `QueryRevision` is a loop that stops at the first match, proved equal to
  `Resolution.Resolve`.

The class follows the source **as written**, defects included:

- the alias flag is the literal text `-o #{remote}`;
- `export` returns nothing;
- `sync` uses the URL of an undeclared property, which is empty;
- `pull` computes clone arguments and never uses them.

The corrected behaviour is stated and proved beside each defect (see
"## Findings").

In `sync`, `git clean` follows the submodule triple
(Drush/Deploy/Git.php:166-174), so there the triple is not the last step.

## Model

| member | source | states |
|---|---|---|
| `Deploy.Git.constructor` | Drush/Deploy/Git.php:12-15 | keeps the configuration; the verbosity string is "" when Drush runs verbosely and " -q" otherwise; the undeclared `repository` property reads as empty |
| `Steps.Head` | Drush/Deploy/Git.php:24-26 | the branch option, or "HEAD" when it is absent |
| `Steps.Origin` | Drush/Deploy/Git.php:31-33 | the remote option, or "origin" when it is absent |
| `Steps.Truthy` | Drush/Deploy/Git.php:49 | an option counts as set only when it is present and non-empty (the same test at lines 61, 84, 109, 117 and 166) |
| `Steps.TruthyLikePhp` | Drush/Deploy/Git.php:61 | absent, "" and "0" are false; "1", "false", "00" and " " are true, as PHP reads strings |
| `Deploy.Git.CollectCloneArgs` | Drush/Deploy/Git.php:44-51 | the clone arguments: the alias flag only for a remote other than 'origin', then `--depth <d>` only when the shallow-clone option is truthy |
| `Steps.CloneArgsCompose` | Drush/Deploy/Git.php:46-54 | no flags gives ""; each flag alone gives that flag; both give one string, alias first, then ` --depth <d>` |
| `Deploy.Git.AppendSubmoduleSteps` | Drush/Deploy/Git.php:61-65 | appends init, sync and the recursive update, in that order, exactly when submodules are enabled, and otherwise appends nothing |
| `Steps.CheckoutSteps` | Drush/Deploy/Git.php:53-65 | 5 steps with submodules, 2 without; the first is a clone and the second starts `cd <dest>` |
| `Deploy.Git.Checkout` | Drush/Deploy/Git.php:43-69 | the command is the `checkout` step sequence joined with " && " |
| `Steps.CheckoutStepsOrder` | Drush/Deploy/Git.php:53-68 | the steps are the clone with repo then destination, then `cd <dest> && git checkout … -b deploy <revision>`, then the submodule triple; 5 steps with submodules, 2 without; a submodule step appears if and only if submodules are enabled |
| `Steps.CheckoutClonesOnceWithBothFlags` | Drush/Deploy/Git.php:46-57 | with an aliased remote and a depth, there is exactly one clone step, and it carries both flags, alias first |
| `Steps.CheckoutCommandDeploysRevision` | Drush/Deploy/Git.php:57-67 | the joined command begins with the clone step and contains `-b deploy <revision>` |
| `Deploy.Git.CloneOnly` | Drush/Deploy/Git.php:78-94 | the command is the single `clone_only` clone command |
| `Steps.CloneOnlyCommand` | Drush/Deploy/Git.php:81-93 | a clone command, not a submodule step, that starts `git clone <verbose> <clone arguments> -b ` (the arguments as `CloneArgsCompose` gives them) and ends in `-b <revision> <repo> <destination>` |
| `Steps.CloneOnlyCarriesBothFlags` | Drush/Deploy/Git.php:81-91 | with an aliased remote and a depth, the one clone command carries both flags, alias first |
| `Deploy.Git.Pull` | Drush/Deploy/Git.php:103-125 | the command is the `pull` step sequence joined with " && " |
| `Steps.PullSteps` | Drush/Deploy/Git.php:113-122 | 4 steps with submodules, 1 without; the first starts `cd <dest>` |
| `Steps.PullStepsOrder` | Drush/Deploy/Git.php:113-124 | first `cd <dest> && chmod ug+w -R . && git pull <verbose> <remote> <revision>`, then the submodule triple exactly when enabled; 4 steps or 1 |
| `Steps.PullIgnoresShallowClone` | Drush/Deploy/Git.php:106-115 | the clone arguments `pull` computes never reach its output: any shallow-clone setting gives the same steps |
| `Deploy.Git.Export` | Drush/Deploy/Git.php:134-136 | as written, the result is NULL (`None`); the command it builds is discarded |
| `Steps.ExportExtendsCheckout` | Drush/Deploy/Git.php:135 | the intended export sequence is the checkout sequence plus one trailing `rm -Rf <dest>/.git`; joined, it is the checkout command with " && rm -Rf <dest>/.git" appended |
| `Deploy.Git.Sync` | Drush/Deploy/Git.php:146-178 | the command is the `sync` step sequence joined with " && ", with the undeclared property as the URL |
| `Steps.SyncSteps` | Drush/Deploy/Git.php:149-174 | `cd <dest>` first and the clean last; 2 config steps more when aliased and 3 submodule steps more when enabled |
| `Steps.SyncStepsOrder` | Drush/Deploy/Git.php:149-176 | `cd <dest>` first; both config edits next exactly when the remote is aliased; then fetch, fetch --tags and hard reset; then the submodule triple exactly when enabled; `git clean <verbose> -d -x -f` always last |
| `Steps.SyncConfigNamesRemote` | Drush/Deploy/Git.php:157-160 | both config edits name the aliased remote; the URL edit ends with the URL it is given |
| `Steps.SyncCommandEndsWithClean` | Drush/Deploy/Git.php:172-177 | the joined command starts with `cd <dest>` and ends with the clean |
| `Steps.SyncAsWrittenEmptiesUrl` | Drush/Deploy/Git.php:158 | with the undeclared property's empty value, the URL edit sets the remote's URL to nothing |
| `Steps.AsWrittenAliasIgnoresRemoteName` | Drush/Deploy/Git.php:47 | as written, any two non-default remotes give identical checkout steps |
| `Steps.AsWrittenUpstreamClone` | Drush/Deploy/Git.php:47-57 | as written, for remote "upstream" the clone step carries the literal "-o #{remote}" |
| `Steps.IntendedCloneNamesRemote` | Drush/Deploy/Git.php:47 | with the intended alias flag, the clone step contains `-o <remote>` |
| `Deploy.Git.QueryRevision` | Drush/Deploy/Git.php:189-208 | the result is `Resolve` on `.` (local) or the configured repository; `git ls-remote <repo> <revision>` is queried only when the revision fails the commit pattern |
| `Resolution.RevOf` | Drush/Deploy/Git.php:197 | `$rev` is the line up to its first whitespace: a prefix of the line without whitespace, followed by whitespace or the end |
| `Resolution.RefOf` | Drush/Deploy/Git.php:197 | `$ref` holds no whitespace; id and ref together are no longer than the line's non-whitespace text |
| `Resolution.RefOfOneField` | Drush/Deploy/Git.php:197 | a line without whitespace is one field, so `$ref` is NULL, read as "" |
| `Resolution.RefOfLineWithTail` | Drush/Deploy/Git.php:197 | for `<id><whitespace><ref><tail>`, with a non-empty ref and a tail that is empty or starts with whitespace, `$rev` is the id and `$ref` is the ref |
| `Resolution.Matches` | Drush/Deploy/Git.php:198 | the stripped ref equals the revision; a matching revision is never longer than the ref |
| `Resolution.Candidate` | Drush/Deploy/Git.php:195-202 | `$newrev`: "" (NULL) when no line matches, otherwise the whole first field of the first matching line: a whitespace-free prefix followed by whitespace or the line's end |
| `Resolution.ResolveError.Message` | Drush/Deploy/Git.php:204 | the exception text quotes the revision and the repository, each in single quotes, and ends with the candidate |
| `Resolution.FirstFrom` | Drush/Deploy/Git.php:196-202 | the `foreach … break` search: the index found satisfies the test and no earlier element does; no index means no element does |
| `Resolution.FirstMatch` | Drush/Deploy/Git.php:196-202 | the index found is a matching line with no matching line before it; no index means no line matches |
| `Resolution.Resolve` | Drush/Deploy/Git.php:189-208 | a success passes the commit pattern; a failure records the revision and the repository queried, and its message quotes the revision |
| `Resolution.ResolveCanonical` | Drush/Deploy/Git.php:191 | a canonical id comes back unchanged, whatever the listing |
| `Resolution.ResolveFirstMatchWins` | Drush/Deploy/Git.php:196-207 | the first matching line decides: its id when that is canonical, otherwise failure with that id as the candidate, even if a later line would do |
| `Resolution.ResolveNoMatchFails` | Drush/Deploy/Git.php:195-205 | with no matching line the candidate stays NULL and resolution fails |
| `Resolution.ResolvedFromListing` | Drush/Deploy/Git.php:196-207 | a success that did not come through the fast path is the first matching line's id, and that id is exactly 40 lower-case hex digits |
| `Resolution.BranchListedBeforeTagWins` | Drush/Deploy/Git.php:196-202 | for a branch and a tag of the same name, listed branch first, the branch's id is the result; the name may contain '/' but not "refs/" |
| `Resolution.UnknownNameFails` | Drush/Deploy/Git.php:195-205 | "release-9" against a listing holding only `refs/heads/main` fails, naming "release-9" and the repository |
| `Resolution.ListingLineMatches` | Drush/Deploy/Git.php:197-198 | a line `<id>\trefs/<segment>/<name>` yields `<id>` and matches `<name>`, for any name without whitespace in which "refs/" does not occur, slashes included |
| `Patterns.StripRefs` | Drush/Deploy/Git.php:198 | removing the matches never lengthens the ref |
| `Patterns.StripRefsKeepsPlainText` | Drush/Deploy/Git.php:198 | a ref in which "refs/" never occurs is left unchanged |
| `Patterns.StripRefsLeadingSegment` | Drush/Deploy/Git.php:198 | a leading `refs/<segment>/` is removed, with no '/' and no newline in the segment, and stripping continues after it |
| `Patterns.StripRefsOfRefPath` | Drush/Deploy/Git.php:198 | `refs/<segment>/<name>` strips to `<name>` whenever "refs/" does not occur in the name; the name may contain '/' |
| `Patterns.SplitFrom` | Drush/Deploy/Git.php:197 | the split yields at least one field; no field holds whitespace; the fields written together are the text with its whitespace deleted |
| `Patterns.SplitFromFirstField` | Drush/Deploy/Git.php:197 | the first field is a prefix of the text, followed by whitespace or the end |
| `Patterns.Fields` | Drush/Deploy/Git.php:197 | the same for a whole line: no field holds whitespace, and together they are the line without its whitespace |
| `Patterns.FieldsOfLineWithTail` | Drush/Deploy/Git.php:197 | `<id><whitespace><ref><tail>`, with a non-empty ref and a tail that is empty or starts with whitespace, gives `[<id>, <ref>]` as its first two fields |
| `Patterns.FieldsOfListingLine` | Drush/Deploy/Git.php:197 | `<id>\t<ref>` splits into exactly `[<id>, <ref>]` when neither holds whitespace |
| `Patterns.MatchesCommitPattern` | Drush/Deploy/Git.php:191 | the pattern of lines 191 and 203: an accepted string is 40 or 41 characters, its first 40 a canonical id, and a 41st character can only be a newline |
| `Patterns.CommitPatternAcceptsTrailingNewline` | Drush/Deploy/Git.php:191 | the commit pattern accepts 40 hex digits followed by one newline, which is not a canonical id |
| `Patterns.CommitPatternExactWithoutSpace` | Drush/Deploy/Git.php:203 | on a string without whitespace the commit pattern accepts exactly the canonical ids |
| `Resolution.AsWrittenFastPathKeepsNewline` | Drush/Deploy/Git.php:191 | as written, an id with a trailing newline is returned unchanged, newline included |
| `Resolution.ResolveStrictIsCanonical` | Drush/Deploy/Git.php:191-207 | the intended resolver returns only canonical ids, and it agrees with the source's resolver on every revision that does not end in a newline |

## Left out

- Option and context lookups (`drush_get_option`, `drush_get_context`) are
  global in the host framework. Here they are the `Options` parameter and the
  constructor's `drushVerbose` flag. Defaults are 'origin', 'HEAD' and FALSE.
- `queryRevision`'s `$local` defaults to TRUE (the local repository `.`).
  Dafny has no default arguments, so `QueryRevision` always takes `local`
  explicitly.
- `capture` runs `git ls-remote` in a shell. It is not modelled. Its output
  lines are the `listing` parameter of `QueryRevision`, and the command that
  would be run is returned as `query`.
- Running the built commands on a host is not modelled. The provider only
  builds strings.
- Option values are modelled as strings, and PHP truthiness is modelled for the
  shallow-clone and submodule options ("" and "0" are false). A bare boolean
  `TRUE` for the remote option is not modelled. PHP would compare it loosely
  with 'origin' and treat it as equal.
- `Resolution.Matches` compares the stripped ref with the revision by exact
  string equality. PHP's `==` compares two numeric strings as numbers (for
  example "10" and "1e1" are equal). That case is not modelled.
- PHP's notices and deprecations are not modelled, only the values PHP
  continues with:
  - an undefined property reads as NULL;
  - a missing second field in `list()` is NULL;
  - NULL passed to `preg_replace` or `preg_match` counts as "".
- The regular expressions are modelled only for the three patterns used, not as
  a general regex engine. The whitespace class is ASCII `\s`: space, tab, line
  feed, vertical tab, form feed and carriage return.
- `default_command` is stored but no member of this file reads it.
- `head()` has no caller in this file.

## Findings

| source | as written | input that shows it | evidently intended | confidence | as-written member | corrected member |
|---|---|---|---|---|---|---|
| Drush/Deploy/Git.php:47 | the alias flag is the literal "-o #{remote}" (Ruby interpolation, which PHP does not perform); the same at lines 82 and 107 | remote "upstream": the clone step reads `-o #{remote}` | `-o upstream` | high, not executed | `Steps.AsWrittenAliasIgnoresRemoteName` | `Steps.IntendedCloneNamesRemote` |
| Drush/Deploy/Git.php:135 | `export` builds the checkout-plus-removal command, discards it and returns NULL | any revision and destination | return the checkout command with " && rm -Rf <dest>/.git" appended | high, not executed | `Deploy.Git.Export` | `Steps.ExportExtendsCheckout` |
| Drush/Deploy/Git.php:158 | `sync` reads the undeclared `$this->repository`, so the remote's URL is set to nothing | remote "upstream" with any configured repository | the configured repository (`$this->config->repository`) | high, not executed | `Steps.SyncAsWrittenEmptiesUrl` | `Steps.SyncConfigNamesRemote` |
| Drush/Deploy/Git.php:191 | PCRE's `$` also matches before a final newline, so 40 hex digits plus "\n" pass the fast path and are returned with the newline | forty "a" characters followed by "\n" | only exact 40-hex ids pass | medium, not executed | `Resolution.AsWrittenFastPathKeepsNewline` | `Resolution.ResolveStrictIsCanonical` |
