/**
 * The step sequences the Git provider's deployment commands are built from.
 * Each builder of the provider collects steps and joins them with " && "; the
 * functions here give each sequence, and the lemmas state which steps appear,
 * in what order and under which option (Drush/Deploy/Git.php).
 */
module Steps {
  import opened Wrappers
  import opened Text

  /**
   * The options the provider looks up through `drush_get_option`. An absent
   * option is `None`, and the lookup's default then applies. Option values are
   * the strings the command line supplies.
   */
  datatype Options = Options(
    remote: Option<string>,           // 'remote', default 'origin'
    branch: Option<string>,           // 'branch', default 'HEAD'
    shallowClone: Option<string>,     // 'git_shallow_clone', default FALSE
    enableSubmodules: Option<string>  // 'git_enable_submodules', default FALSE
  )

  /** PHP truthiness of an option value: FALSE (absent), "" and "0" are false. */
  predicate Truthy(v: Option<string>)
    ensures Truthy(v) ==> v.Some? && |v.value| > 0
  {
    v.Some? && v.value != "" && v.value != "0"
  }

  /** `origin()`: the remote to deploy from. */
  function Origin(o: Options): (r: string)
    ensures o.remote.None? ==> r == "origin"
    ensures o.remote.Some? ==> r == o.remote.value
  {
    o.remote.GetOr("origin")
  }

  /** `head()`: the branch to deploy, by default Git's HEAD. */
  function Head(o: Options): (r: string)
    ensures o.branch.None? ==> r == "HEAD"
    ensures o.branch.Some? ==> r == o.branch.value
  {
    o.branch.GetOr("HEAD")
  }

  /** The remote is not the default one, so clones are told to alias it. */
  predicate Aliased(o: Options)
  {
    Origin(o) != "origin"
  }

  /**
   * PHP reads an option string as a boolean: only "" and "0" are false, so
   * "false", "00" and " " all enable a flag.
   */
  lemma TruthyLikePhp()
    ensures !Truthy(None) && !Truthy(Some("")) && !Truthy(Some("0"))
    ensures Truthy(Some("1")) && Truthy(Some("false")) && Truthy(Some("00")) && Truthy(Some(" "))
  {
  }

  predicate Submodules(o: Options)
  {
    Truthy(o.enableSubmodules)
  }

  /**
   * The alias flag as the source writes it: "-o #{remote}" is Ruby's
   * interpolation syntax, which PHP leaves as literal text, so the remote's
   * name never reaches the command.
   */
  const AliasFlagAsWritten: string := "-o #{remote}"

  /** The alias flag as evidently intended: `-o` followed by the remote's name. */
  function AliasFlag(remote: string): (flag: string)
    ensures StartsWith(flag, "-o ") && EndsWith(flag, remote)
  {
    "-o " + remote
  }

  /** The clone arguments `$args`: the alias flag, then the depth flag, each only when it applies. */
  function CloneFlags(o: Options, alias: string): seq<string>
  {
    (if Aliased(o) then [alias] else [])
    + (if Truthy(o.shallowClone) then ["--depth " + o.shallowClone.value] else [])
  }

  function CloneArgs(o: Options, alias: string): string
  {
    Join(" ", CloneFlags(o, alias))
  }

  function CloneStep(verbose: string, args: string, repo: string, destination: string): string
  {
    "git clone " + verbose + " " + args + " " + repo + " " + destination
  }

  function CheckoutBranchStep(verbose: string, revision: string, destination: string): string
  {
    "cd " + destination + " && git checkout " + verbose + " -b deploy " + revision
  }

  /** The submodule triple: init, sync, then a recursive update that also initialises. */
  function SubmoduleSteps(verbose: string): seq<string>
  {
    ["git submodule " + verbose + " init",
     "git submodule " + verbose + " sync",
     "git submodule " + verbose + " update --init --recursive"]
  }

  predicate IsSubmoduleStep(step: string)
  {
    StartsWith(step, "git submodule ")
  }

  predicate IsCloneStep(step: string)
  {
    StartsWith(step, "git clone ")
  }

  /** `checkout`: clone, then a local branch `deploy` at the revision, then the optional submodule triple. */
  function CheckoutSteps(verbose: string, repo: string, alias: string, o: Options,
                         revision: string, destination: string): (r: seq<string>)
    ensures |r| == (if Submodules(o) then 5 else 2)
    ensures IsCloneStep(r[0]) && StartsWith(r[1], "cd " + destination)
  {
    var clone := CloneStep(verbose, CloneArgs(o, alias), repo, destination);
    var branch := CheckoutBranchStep(verbose, revision, destination);
    assert clone[..10] == "git clone ";
    assert branch == ("cd " + destination) + (" && git checkout " + verbose + " -b deploy " + revision);
    [CloneStep(verbose, CloneArgs(o, alias), repo, destination),
     CheckoutBranchStep(verbose, revision, destination)]
    + (if Submodules(o) then SubmoduleSteps(verbose) else [])
  }

  /** `clone_only`: one clone straight onto the branch or tag `revision`. */
  function CloneOnlyCommand(verbose: string, repo: string, alias: string, o: Options,
                            revision: string, destination: string): (c: string)
    ensures IsCloneStep(c) && !IsSubmoduleStep(c)
    ensures StartsWith(c, "git clone " + verbose + " " + CloneArgs(o, alias) + " -b ")
    ensures EndsWith(c, " -b " + revision + " " + repo + " " + destination)
  {
    var tail := " -b " + revision + " " + repo + " " + destination;
    assert "git clone " + verbose + " " + CloneArgs(o, alias) + " -b " + revision + " " + repo + " " + destination
        == ("git clone " + verbose + " " + CloneArgs(o, alias) + " -b ") + (revision + " " + repo + " " + destination);
    assert ("git clone " + verbose + " " + CloneArgs(o, alias) + tail)[..10] == "git clone ";
    assert ("git clone " + verbose + " " + CloneArgs(o, alias) + tail)[4] == 'c';
    assert "git clone " + verbose + " " + CloneArgs(o, alias) + " -b " + revision + " " + repo + " " + destination
        == ("git clone " + verbose + " " + CloneArgs(o, alias)) + tail;
    "git clone " + verbose + " " + CloneArgs(o, alias) + " -b " + revision + " " + repo + " " + destination
  }

  function PullStep(verbose: string, remote: string, revision: string, destination: string): string
  {
    "cd " + destination + " && chmod ug+w -R . && git pull " + verbose + " " + remote + " " + revision
  }

  /**
   * `pull`: make the tree writable and pull, then the optional submodule
   * triple. The source also computes the clone arguments here and never uses
   * them, so they take no part.
   */
  function PullSteps(verbose: string, o: Options, revision: string, destination: string): (r: seq<string>)
    ensures |r| == (if Submodules(o) then 4 else 1)
    ensures StartsWith(r[0], "cd " + destination)
  {
    assert PullStep(verbose, Origin(o), revision, destination)
        == ("cd " + destination) + (" && chmod ug+w -R . && git pull " + verbose + " " + Origin(o) + " " + revision);
    [PullStep(verbose, Origin(o), revision, destination)]
    + (if Submodules(o) then SubmoduleSteps(verbose) else [])
  }

  function RemoteUrlStep(remote: string, url: string): string
  {
    "git config " + "remote." + remote + ".url" + " " + url
  }

  function RemoteFetchStep(remote: string): string
  {
    "git config " + "remote." + remote + ".fetch" + " +refs/heads/*:refs/remotes/" + remote + "/*"
  }

  function FetchResetStep(verbose: string, remote: string, revision: string): string
  {
    "git fetch " + verbose + " " + remote + " && git fetch --tags " + verbose + " " + remote
    + " && git reset " + verbose + " --hard " + revision
  }

  function CleanStep(verbose: string): string
  {
    "git clean " + verbose + " -d -x -f"
  }

  /**
   * `sync`: enter the destination, point an aliased remote at `url` by
   * editing the configuration, fetch and hard-reset, run the optional
   * submodule triple, and always clean last.
   */
  function SyncSteps(verbose: string, url: string, o: Options, revision: string, destination: string): (r: seq<string>)
    ensures |r| == (if Aliased(o) then 3 else 1) + 1 + (if Submodules(o) then 3 else 0) + 1
    ensures r[0] == "cd " + destination && r[|r| - 1] == CleanStep(verbose)
  {
    ["cd " + destination]
    + (if Aliased(o) then [RemoteUrlStep(Origin(o), url), RemoteFetchStep(Origin(o))] else [])
    + [FetchResetStep(verbose, Origin(o), revision)]
    + (if Submodules(o) then SubmoduleSteps(verbose) else [])
    + [CleanStep(verbose)]
  }

  function RemoveMetadataStep(destination: string): string
  {
    "rm -Rf " + destination + "/.git"
  }

  /** `export` as evidently intended: the checkout, then the repository metadata removed. */
  function ExportSteps(verbose: string, repo: string, alias: string, o: Options,
                       revision: string, destination: string): seq<string>
  {
    CheckoutSteps(verbose, repo, alias, o, revision, destination) + [RemoveMetadataStep(destination)]
  }

  // ---------------------------------------------------------------------
  // Properties

  /** A step that begins "git clone " or "cd " is not a submodule step. */
  lemma NotSubmoduleStep(verbose: string, args: string, repo: string, destination: string, revision: string)
    ensures !IsSubmoduleStep(CloneStep(verbose, args, repo, destination))
    ensures !IsSubmoduleStep(CheckoutBranchStep(verbose, revision, destination))
  {
    assert CloneStep(verbose, args, repo, destination)[4] == 'c';
    assert CheckoutBranchStep(verbose, revision, destination)[0] == 'c';
  }

  lemma SubmoduleStepsAreSubmoduleSteps(verbose: string)
    ensures forall i :: 0 <= i < 3 ==> IsSubmoduleStep(SubmoduleSteps(verbose)[i])
  {
    var s := SubmoduleSteps(verbose);
    assert s[0][..14] == "git submodule ";
    assert s[1][..14] == "git submodule ";
    assert s[2][..14] == "git submodule ";
  }

  /**
   * The alias flag is present exactly when the remote is not 'origin', the
   * depth flag exactly when the shallow-clone option is truthy, and when both
   * apply they form one argument string, alias first.
   */
  lemma CloneArgsCompose(o: Options, alias: string)
    ensures !Aliased(o) && !Truthy(o.shallowClone) ==> CloneArgs(o, alias) == ""
    ensures Aliased(o) && !Truthy(o.shallowClone) ==> CloneArgs(o, alias) == alias
    ensures !Aliased(o) && Truthy(o.shallowClone) ==> CloneArgs(o, alias) == "--depth " + o.shallowClone.value
    ensures Aliased(o) && Truthy(o.shallowClone) ==>
      CloneArgs(o, alias) == alias + " --depth " + o.shallowClone.value
  {
    if Aliased(o) && Truthy(o.shallowClone) {
      var flags := CloneFlags(o, alias);
      assert flags == [alias, "--depth " + o.shallowClone.value];
      assert flags[1..] == ["--depth " + o.shallowClone.value];
      assert Join(" ", flags) == alias + " " + ("--depth " + o.shallowClone.value);
      assert alias + " " + ("--depth " + o.shallowClone.value) == alias + " --depth " + o.shallowClone.value;
    }
  }

  /**
   * `checkout` yields the clone step, then the `deploy` branch step, then the
   * submodule triple, which is there if and only if submodules are enabled.
   */
  lemma CheckoutStepsOrder(verbose: string, repo: string, alias: string, o: Options,
                           revision: string, destination: string)
    ensures var s := CheckoutSteps(verbose, repo, alias, o, revision, destination);
      && |s| == (if Submodules(o) then 5 else 2)
      && s[0] == CloneStep(verbose, CloneArgs(o, alias), repo, destination)
      && s[1] == CheckoutBranchStep(verbose, revision, destination)
      && (Submodules(o) ==> s[2..] == SubmoduleSteps(verbose))
      && (Submodules(o) <==> exists i :: 0 <= i < |s| && IsSubmoduleStep(s[i]))
  {
    var s := CheckoutSteps(verbose, repo, alias, o, revision, destination);
    NotSubmoduleStep(verbose, CloneArgs(o, alias), repo, destination, revision);
    if Submodules(o) {
      SubmoduleStepsAreSubmoduleSteps(verbose);
      assert IsSubmoduleStep(s[2]);
    }
  }

  /**
   * With both a non-default remote and a shallow depth, `checkout` still
   * emits a single clone, and that one clone carries both flags.
   */
  lemma CheckoutClonesOnceWithBothFlags(verbose: string, repo: string, alias: string, o: Options,
                                        revision: string, destination: string)
    requires Aliased(o) && Truthy(o.shallowClone)
    ensures var s := CheckoutSteps(verbose, repo, alias, o, revision, destination);
      && IsCloneStep(s[0])
      && (forall i :: 1 <= i < |s| ==> !IsCloneStep(s[i]))
      && Contains(s[0], alias + " --depth " + o.shallowClone.value)
  {
    var s := CheckoutSteps(verbose, repo, alias, o, revision, destination);
    var both := alias + " --depth " + o.shallowClone.value;
    CloneArgsCompose(o, alias);
    assert s[0] == ("git clone " + verbose + " ") + both + (" " + repo + " " + destination);
    ContainsMiddle("git clone " + verbose + " ", both, " " + repo + " " + destination);
    assert s[0][..10] == "git clone ";
    assert s[1][0] == 'c';
    if Submodules(o) {
      assert s[2][4] == 's' && s[3][4] == 's' && s[4][4] == 's';
    }
  }

  lemma CheckoutBranchStepDeploys(verbose: string, revision: string, destination: string)
    ensures Contains(CheckoutBranchStep(verbose, revision, destination), "-b deploy " + revision)
  {
    var prefix := "cd " + destination + " && git checkout " + verbose + " ";
    assert CheckoutBranchStep(verbose, revision, destination) == prefix + ("-b deploy " + revision) + "";
    ContainsMiddle(prefix, "-b deploy " + revision, "");
  }

  /** The joined `checkout` command begins with the clone and carries `-b deploy <revision>`. */
  lemma CheckoutCommandDeploysRevision(verbose: string, repo: string, alias: string, o: Options,
                                       revision: string, destination: string)
    ensures StartsWith(Join(" && ", CheckoutSteps(verbose, repo, alias, o, revision, destination)),
                       CloneStep(verbose, CloneArgs(o, alias), repo, destination))
    ensures Contains(Join(" && ", CheckoutSteps(verbose, repo, alias, o, revision, destination)),
                     "-b deploy " + revision)
  {
    var s := CheckoutSteps(verbose, repo, alias, o, revision, destination);
    var step := CheckoutBranchStep(verbose, revision, destination);
    assert s[0] == CloneStep(verbose, CloneArgs(o, alias), repo, destination);
    assert s[1] == step;
    JoinEnds(" && ", s);
    JoinContainsPart(" && ", s, 1);
    CheckoutBranchStepDeploys(verbose, revision, destination);
    ContainsTransitive(Join(" && ", s), step, "-b deploy " + revision);
  }

  /**
   * With both a non-default remote and a shallow depth, the `clone_only`
   * command carries both flags, alias first, as `checkout`'s clone does.
   */
  lemma CloneOnlyCarriesBothFlags(verbose: string, repo: string, alias: string, o: Options,
                                  revision: string, destination: string)
    requires Aliased(o) && Truthy(o.shallowClone)
    ensures Contains(CloneOnlyCommand(verbose, repo, alias, o, revision, destination),
                     alias + " --depth " + o.shallowClone.value)
  {
    var both := alias + " --depth " + o.shallowClone.value;
    var tail := " -b " + revision + " " + repo + " " + destination;
    CloneArgsCompose(o, alias);
    assert CloneOnlyCommand(verbose, repo, alias, o, revision, destination)
        == ("git clone " + verbose + " ") + both + tail;
    ContainsMiddle("git clone " + verbose + " ", both, tail);
  }

  /**
   * `pull` yields the pull step, then the submodule triple if and only if
   * submodules are enabled.
   */
  lemma PullStepsOrder(verbose: string, o: Options, revision: string, destination: string)
    ensures var s := PullSteps(verbose, o, revision, destination);
      && |s| == (if Submodules(o) then 4 else 1)
      && s[0] == PullStep(verbose, Origin(o), revision, destination)
      && (Submodules(o) ==> s[1..] == SubmoduleSteps(verbose))
      && (Submodules(o) <==> exists i :: 0 <= i < |s| && IsSubmoduleStep(s[i]))
  {
    var s := PullSteps(verbose, o, revision, destination);
    assert s[0][0] == 'c';
    if Submodules(o) {
      SubmoduleStepsAreSubmoduleSteps(verbose);
      assert IsSubmoduleStep(s[1]);
    }
  }

  /**
   * The clone arguments `pull` computes never reach its output: options that
   * differ only in shallow depth give the same steps.
   */
  lemma PullIgnoresShallowClone(verbose: string, o: Options, depth: Option<string>,
                                revision: string, destination: string)
    ensures PullSteps(verbose, o, revision, destination)
         == PullSteps(verbose, o.(shallowClone := depth), revision, destination)
  {
  }

  /**
   * `sync` enters the destination first and cleans last; the two
   * configuration edits come right after entering exactly when the remote is
   * aliased and both name that remote; fetch-and-reset follows, then the
   * submodule triple exactly when enabled.
   */
  lemma SyncStepsOrder(verbose: string, url: string, o: Options, revision: string, destination: string)
    ensures var s := SyncSteps(verbose, url, o, revision, destination);
      var k := if Aliased(o) then 3 else 1;
      && |s| == k + 1 + (if Submodules(o) then 3 else 0) + 1
      && s[0] == "cd " + destination
      && (Aliased(o) ==> s[1] == RemoteUrlStep(Origin(o), url) && s[2] == RemoteFetchStep(Origin(o)))
      && s[k] == FetchResetStep(verbose, Origin(o), revision)
      && (Submodules(o) ==> s[k + 1..k + 4] == SubmoduleSteps(verbose))
      && s[|s| - 1] == CleanStep(verbose)
      && (Submodules(o) <==> exists i :: 0 <= i < |s| && IsSubmoduleStep(s[i]))
  {
    var s := SyncSteps(verbose, url, o, revision, destination);
    var k := if Aliased(o) then 3 else 1;
    assert s[0][0] == 'c';
    if Aliased(o) {
      assert s[1][4] == 'c' && s[2][4] == 'c';
    }
    assert s[k][4] == 'f';
    assert s[|s| - 1][4] == 'c';
    if Submodules(o) {
      SubmoduleStepsAreSubmoduleSteps(verbose);
      assert IsSubmoduleStep(s[k + 1]);
    }
  }

  /** The URL edit names the remote's URL key and ends with the URL. */
  lemma RemoteUrlStepNamesRemote(remote: string, url: string)
    ensures Contains(RemoteUrlStep(remote, url), "remote." + remote + ".url")
    ensures EndsWith(RemoteUrlStep(remote, url), " " + url)
  {
    assert RemoteUrlStep(remote, url) == "git config " + ("remote." + remote + ".url") + (" " + url);
    ContainsMiddle("git config ", "remote." + remote + ".url", " " + url);
  }

  /** The fetch edit names the remote's fetch key. */
  lemma RemoteFetchStepNamesRemote(remote: string)
    ensures Contains(RemoteFetchStep(remote), "remote." + remote + ".fetch")
  {
    var tail := " +refs/heads/*:refs/remotes/" + remote + "/*";
    assert RemoteFetchStep(remote) == "git config " + ("remote." + remote + ".fetch") + tail;
    ContainsMiddle("git config ", "remote." + remote + ".fetch", tail);
  }

  /** Both configuration edits of an aliased `sync` name the configured remote. */
  lemma SyncConfigNamesRemote(verbose: string, url: string, o: Options, revision: string, destination: string)
    requires Aliased(o)
    ensures Contains(SyncSteps(verbose, url, o, revision, destination)[1], "remote." + Origin(o) + ".url")
    ensures Contains(SyncSteps(verbose, url, o, revision, destination)[2], "remote." + Origin(o) + ".fetch")
    ensures EndsWith(SyncSteps(verbose, url, o, revision, destination)[1], " " + url)
  {
    var s := SyncSteps(verbose, url, o, revision, destination);
    assert s[1] == RemoteUrlStep(Origin(o), url);
    assert s[2] == RemoteFetchStep(Origin(o));
    RemoteUrlStepNamesRemote(Origin(o), url);
    RemoteFetchStepNamesRemote(Origin(o));
  }

  /** The joined `sync` command starts by entering the destination and ends with the clean. */
  lemma SyncCommandEndsWithClean(verbose: string, url: string, o: Options, revision: string, destination: string)
    ensures var cmd := Join(" && ", SyncSteps(verbose, url, o, revision, destination));
      StartsWith(cmd, "cd " + destination) && EndsWith(cmd, CleanStep(verbose))
  {
    var s := SyncSteps(verbose, url, o, revision, destination);
    JoinEnds(" && ", s);
  }

  /**
   * The URL the source gives an aliased `sync` is the undeclared property
   * `$this->repository`, which reads as NULL and prints as nothing: the URL
   * edit sets the remote's URL to the empty string.
   */
  lemma SyncAsWrittenEmptiesUrl(verbose: string, o: Options, revision: string, destination: string)
    requires Aliased(o)
    ensures SyncSteps(verbose, "", o, revision, destination)[1] == "git config " + "remote." + Origin(o) + ".url" + " "
  {
  }

  /**
   * `export` as intended is `checkout` plus exactly one trailing step, and
   * its joined command is the `checkout` command with " && rm -Rf <dest>/.git"
   * appended, which is the string the source computes.
   */
  lemma ExportExtendsCheckout(verbose: string, repo: string, alias: string, o: Options,
                              revision: string, destination: string)
    ensures var c := CheckoutSteps(verbose, repo, alias, o, revision, destination);
      var e := ExportSteps(verbose, repo, alias, o, revision, destination);
      && |e| == |c| + 1
      && e[..|c|] == c
      && e[|c|] == "rm -Rf " + destination + "/.git"
      && Join(" && ", e) == Join(" && ", c) + " && rm -Rf " + destination + "/.git"
  {
    var c := CheckoutSteps(verbose, repo, alias, o, revision, destination);
    JoinAppend(" && ", c, [RemoveMetadataStep(destination)]);
  }

  /**
   * As written, the alias flag ignores the remote's name: any two
   * non-default remotes give the same `checkout` steps.
   */
  lemma AsWrittenAliasIgnoresRemoteName(verbose: string, repo: string, o: Options, other: string,
                                        revision: string, destination: string)
    requires Aliased(o) && other != "origin"
    ensures CheckoutSteps(verbose, repo, AliasFlagAsWritten, o, revision, destination)
         == CheckoutSteps(verbose, repo, AliasFlagAsWritten, o.(remote := Some(other)), revision, destination)
  {
  }

  /**
   * For remote "upstream", the quiet clone step carries the literal
   * "-o #{remote}" where "-o upstream" was meant.
   */
  lemma AsWrittenUpstreamClone()
    ensures CheckoutSteps(" -q", "git@example.org:site.git", AliasFlagAsWritten,
                          Options(Some("upstream"), None, None, None), "1.0", "/var/www")[0]
         == CloneStep(" -q", "-o #{remote}", "git@example.org:site.git", "/var/www")
  {
    var o := Options(Some("upstream"), None, None, None);
    assert Origin(o) == "upstream";
    assert Aliased(o) by {
      assert Origin(o)[0] != "origin"[0];
    }
    CloneArgsCompose(o, AliasFlagAsWritten);
  }

  /** Whatever the clone arguments begin with appears in the clone step. */
  lemma CloneStepCarriesArgs(verbose: string, args: string, repo: string, destination: string, first: string)
    requires StartsWith(args, first)
    ensures Contains(CloneStep(verbose, args, repo, destination), first)
  {
    var rest := args[|first|..] + " " + repo + " " + destination;
    assert args == first + args[|first|..];
    assert CloneStep(verbose, args, repo, destination) == ("git clone " + verbose + " ") + first + rest;
    ContainsMiddle("git clone " + verbose + " ", first, rest);
  }

  /** With the intended alias flag, the clone step carries "-o <remote>". */
  lemma IntendedCloneNamesRemote(verbose: string, repo: string, o: Options,
                                 revision: string, destination: string)
    requires Aliased(o)
    ensures Contains(CheckoutSteps(verbose, repo, AliasFlag(Origin(o)), o, revision, destination)[0],
                     "-o " + Origin(o))
  {
    var flag := AliasFlag(Origin(o));
    var flags := CloneFlags(o, flag);
    assert flags[0] == flag;
    JoinEnds(" ", flags);
    CloneStepCarriesArgs(verbose, CloneArgs(o, flag), repo, destination, flag);
    assert CheckoutSteps(verbose, repo, flag, o, revision, destination)[0]
        == CloneStep(verbose, CloneArgs(o, flag), repo, destination);
  }
}
