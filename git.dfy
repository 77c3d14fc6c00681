/**
 * The Git provider of the deployment tool (Drush/Deploy/Git.php): a class
 * holding the deployment configuration and the verbosity flag. Its builders
 * `checkout`, `pull` and `sync` collect steps in a local list by conditional
 * appends and join them with " && "; `clone_only` builds one clone command;
 * `export` extends `checkout`'s command. Its resolver scans a `git ls-remote`
 * listing.
 *
 * Option lookups (`drush_get_option`) are the `opts` parameter; the lines the
 * configuration's `capture` primitive would return are the `listing`
 * parameter. The builders follow the source as written, defects included.
 */
module Deploy {
  import opened Wrappers
  import opened Text
  import opened Patterns
  import opened Steps
  import opened Resolution

  /** The deployment configuration; this provider reads only its repository locator. */
  datatype RepositoryConfig = RepositoryConfig(repository: string)

  class Git {
    /** The command name for this SCM on the local machine. */
    const defaultCommand: string
    const config: RepositoryConfig
    /** "" when Drush runs verbosely, " -q" otherwise; spliced into every git invocation. */
    const verbose: string
    /**
     * `$this->repository`, which `sync` reads. The class never declares or
     * assigns it, so it reads as NULL and prints as the empty string.
     */
    const repository: string

    constructor (config: RepositoryConfig, drushVerbose: bool)
      ensures this.config == config
      ensures verbose == (if drushVerbose then "" else " -q")
      ensures defaultCommand == "git"
      ensures repository == ""
    {
      this.defaultCommand := "git";
      this.config := config;
      this.verbose := if drushVerbose then "" else " -q";
      this.repository := "";
    }

    /** Appends the submodule triple when `git_enable_submodules` is truthy. */
    method AppendSubmoduleSteps(opts: Options, execute: seq<string>) returns (result: seq<string>)
      ensures result == execute + (if Submodules(opts) then SubmoduleSteps(verbose) else [])
    {
      result := execute;
      if Truthy(opts.enableSubmodules) {
        result := result + ["git submodule " + verbose + " init"];
        result := result + ["git submodule " + verbose + " sync"];
        result := result + ["git submodule " + verbose + " update --init --recursive"];
      }
    }

    /** The clone arguments `$args` of `checkout`, `clone_only` and `pull`. */
    method CollectCloneArgs(opts: Options) returns (args: seq<string>)
      ensures args == CloneFlags(opts, AliasFlagAsWritten)
    {
      var remote := Origin(opts);
      args := [];
      // As written: PHP does not interpolate "#{remote}".
      if remote != "origin" {
        args := args + [AliasFlagAsWritten];
      }
      if Truthy(opts.shallowClone) {
        args := args + ["--depth " + opts.shallowClone.value];
      }
    }

    /** `checkout`: clone on the remote machine, then check out a local branch `deploy`. */
    method Checkout(opts: Options, revision: string, destination: string) returns (cmd: string)
      ensures cmd == Join(" && ", CheckoutSteps(verbose, config.repository, AliasFlagAsWritten, opts, revision, destination))
    {
      var args := CollectCloneArgs(opts);
      var execute: seq<string> := [];
      var argsStr := Join(" ", args);
      var repo := config.repository;
      execute := execute + ["git clone " + verbose + " " + argsStr + " " + repo + " " + destination];
      // a local branch rather than a detached HEAD
      execute := execute + ["cd " + destination + " && git checkout " + verbose + " -b deploy " + revision];
      execute := AppendSubmoduleSteps(opts, execute);
      assert execute == CheckoutSteps(verbose, repo, AliasFlagAsWritten, opts, revision, destination);
      cmd := Join(" && ", execute);
    }

    /** `clone_only`: a single clone onto the branch or tag `revision`. */
    method CloneOnly(opts: Options, revision: string, destination: string) returns (cmd: string)
      ensures cmd == CloneOnlyCommand(verbose, config.repository, AliasFlagAsWritten, opts, revision, destination)
    {
      var args := CollectCloneArgs(opts);
      var argsStr := Join(" ", args);
      var repo := config.repository;
      cmd := "git clone " + verbose + " " + argsStr + " -b " + revision + " " + repo + " " + destination;
    }

    /** `pull` in the deployed root. */
    method Pull(opts: Options, revision: string, destination: string) returns (cmd: string)
      ensures cmd == Join(" && ", PullSteps(verbose, opts, revision, destination))
    {
      var remote := Origin(opts);
      // As written: the clone arguments are computed and never used.
      var args := CollectCloneArgs(opts);
      var execute: seq<string> := [];
      execute := execute + ["cd " + destination + " && chmod ug+w -R . && git pull " + verbose + " " + remote + " " + revision];
      execute := AppendSubmoduleSteps(opts, execute);
      cmd := Join(" && ", execute);
    }

    /**
     * `export`: as written it builds the checkout command with the metadata
     * removal appended, discards it, and returns nothing (NULL).
     */
    method Export(opts: Options, revision: string, destination: string) returns (result: Option<string>)
      ensures result == None
    {
      var checkout := Checkout(opts, revision, destination);
      var discarded := checkout + " && rm -Rf " + destination + "/.git";
      result := None;
    }

    /** `sync`, for the remote-cache strategy: converge an existing working copy on `revision`. */
    method Sync(opts: Options, revision: string, destination: string) returns (cmd: string)
      ensures cmd == Join(" && ", SyncSteps(verbose, repository, opts, revision, destination))
    {
      var remote := Origin(opts);
      var execute: seq<string> := ["cd " + destination];
      // Configuration edits rather than `git remote add`, which fails when the
      // remote already exists; the edits overwrite it on every call.
      if remote != "origin" {
        // As written: the URL is the undeclared `$this->repository`.
        execute := execute + ["git config " + "remote." + remote + ".url" + " " + repository];
        execute := execute + ["git config " + "remote." + remote + ".fetch" + " +refs/heads/*:refs/remotes/" + remote + "/*"];
      }
      execute := execute + ["git fetch " + verbose + " " + remote + " && git fetch --tags " + verbose + " " + remote
                            + " && git reset " + verbose + " --hard " + revision];
      execute := AppendSubmoduleSteps(opts, execute);
      // Nothing else may lie around, such as a submodule since removed.
      execute := execute + ["git clean " + verbose + " -d -x -f"];
      assert execute == SyncSteps(verbose, repository, opts, revision, destination);
      cmd := Join(" && ", execute);
    }

    /**
     * `queryRevision`: the commit id for a tag, branch or id. `listing` is what
     * `git ls-remote <repository> <revision>` prints, line by line; `query`
     * is that command when it is issued, and `None` on the fast path.
     */
    method QueryRevision(revision: string, local: bool, listing: seq<string>)
      returns (r: Result<string, ResolveError>, query: Option<string>)
      ensures var repo := if local then "." else config.repository;
        && r == Resolve(revision, repo, listing)
        && query == (if MatchesCommitPattern(revision) then None else Some("git ls-remote " + repo + " " + revision))
    {
      var repo := if local then "." else config.repository;
      if MatchesCommitPattern(revision) {
        return Ok(revision), None;
      }
      query := Some("git ls-remote " + repo + " " + revision);
      var newrev: Option<string> := None;
      var i := 0;
      while i < |listing|
        invariant 0 <= i <= |listing|
        invariant newrev == None
        invariant forall j :: 0 <= j < i ==> !Matches(listing[j], revision)
      {
        var fields := Fields(listing[i]);
        var rev := fields[0];
        var ref := if |fields| > 1 then fields[1] else "";
        assert rev == RevOf(listing[i]) && ref == RefOf(listing[i]);
        if StripRefs(ref) == revision {
          newrev := Some(rev);
          FirstMatchAt(listing, revision, i);
          break;
        }
        i := i + 1;
      }
      var candidate := newrev.GetOr("");
      assert candidate == Candidate(listing, revision) by {
        if newrev.None? {
          FirstMatchNone(listing, revision);
        }
      }
      if !MatchesCommitPattern(candidate) {
        return Err(ResolveError(revision, repo, candidate)), query;
      }
      r := Ok(candidate);
    }
  }
}
