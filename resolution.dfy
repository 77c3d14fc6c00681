/**
 * Revision resolution (`queryRevision`, Drush/Deploy/Git.php:189-208) as a
 * specification: a canonical id passes through; otherwise the first line of
 * the `git ls-remote` listing whose stripped ref equals the revision supplies
 * the candidate, which must itself be a commit id.
 */
module Resolution {
  import opened Wrappers
  import opened Patterns
  import Text

  /**
   * The commit-id field of a listing line: `$rev` of `list($rev, $ref)`,
   * everything before the line's first whitespace.
   */
  function RevOf(line: string): (r: string)
    ensures NoSpace(r) && Text.StartsWith(line, r)
    ensures |r| < |line| ==> IsSpace(line[|r|])
  {
    assert line[0..] == line;
    SplitFromFirstField(line, 0);
    Fields(line)[0]
  }

  /**
   * The ref field of a listing line; a line with one field leaves `$ref` NULL,
   * read as "". It holds no whitespace, and it and the id together are no
   * longer than the line's non-whitespace text.
   */
  function RefOf(line: string): (r: string)
    ensures NoSpace(r)
    ensures |RevOf(line)| + |r| <= |RemoveSpace(line)|
  {
    var f := Fields(line);
    if |f| > 1 then
      assert Concat(f) == f[0] + (f[1] + Concat(f[2..])) by {
        assert f[1..][1..] == f[2..];
      }
      f[1]
    else
      assert Concat(f) == f[0] + Concat(f[1..]);
      ""
  }

  /** A line with no whitespace is one field, so `$ref` is NULL, read as "". */
  lemma RefOfOneField(line: string)
    requires NoSpace(line)
    ensures RefOf(line) == ""
  {
    FieldEndAt(line, 0, |line|);
  }

  /**
   * A line of an id, whitespace, a non-empty ref and anything that starts
   * with whitespace: `$rev` is the id and `$ref` the ref.
   */
  lemma RefOfLineWithTail(id: string, ws: string, ref: string, tail: string)
    requires NoSpace(id) && NoSpace(ref) && |ref| > 0
    requires |ws| > 0 && forall k :: 0 <= k < |ws| ==> IsSpace(ws[k])
    requires tail == "" || IsSpace(tail[0])
    ensures RefOf(id + ws + ref + tail) == ref && RevOf(id + ws + ref + tail) == id
  {
    FieldsOfLineWithTail(id, ws, ref, tail);
    var f := Fields(id + ws + ref + tail);
    assert f[..2][0] == id && f[..2][1] == ref;
  }

  /**
   * The line's ref, with every `refs/<segment>/` removed, is the revision
   * exactly; stripping only shortens, so a matching revision is never longer
   * than the ref.
   */
  predicate Matches(line: string, revision: string)
    ensures Matches(line, revision) ==> |revision| <= |RefOf(line)|
  {
    StripRefs(RefOf(line)) == revision
  }

  /** The index of the first element at or after `i` that satisfies `p`; later ones are ignored. */
  function FirstFrom<T>(xs: seq<T>, p: T -> bool, i: nat): (k: Option<nat>)
    requires i <= |xs|
    ensures k.Some? ==> i <= k.value < |xs| && p(xs[k.value])
    ensures k.Some? ==> forall j :: i <= j < k.value ==> !p(xs[j])
    ensures k.None? ==> forall j :: i <= j < |xs| ==> !p(xs[j])
    decreases |xs| - i
  {
    if i == |xs| then None
    else if p(xs[i]) then Some(i)
    else FirstFrom(xs, p, i + 1)
  }

  /**
   * The index of the first line that matches the revision: that line matches
   * and none before it does; no index means no line matches.
   */
  function FirstMatch(lines: seq<string>, revision: string): (k: Option<nat>)
    ensures k.Some? ==> k.value < |lines| && Matches(lines[k.value], revision)
    ensures k.Some? ==> forall j :: 0 <= j < k.value ==> !Matches(lines[j], revision)
    ensures k.None? ==> forall j :: 0 <= j < |lines| ==> !Matches(lines[j], revision)
  {
    FirstFrom(lines, line => Matches(line, revision), 0)
  }

  /** The first line that matches, with none matching before it, is the one found. */
  lemma FirstMatchAt(lines: seq<string>, revision: string, k: nat)
    requires k < |lines| && Matches(lines[k], revision)
    requires forall j :: 0 <= j < k ==> !Matches(lines[j], revision)
    ensures FirstMatch(lines, revision) == Some(k)
  {
  }

  /** When no line matches, nothing is found. */
  lemma FirstMatchNone(lines: seq<string>, revision: string)
    requires forall j :: 0 <= j < |lines| ==> !Matches(lines[j], revision)
    ensures FirstMatch(lines, revision) == None
  {
  }

  /** The exception: the revision, the repository queried and the rejected candidate ("" for NULL). */
  datatype ResolveError = ResolveError(revision: string, repository: string, candidate: string)
  {
    /** The exception's text: it quotes the revision and the repository and ends with the candidate. */
    function Message(): (m: string)
      ensures Text.Contains(m, "'" + revision + "'")
      ensures Text.Contains(m, "'" + repository + "'")
      ensures Text.EndsWith(m, candidate)
    {
      var head := "Unable to resolve revision for ";
      var quotedRevision := "'" + revision + "'";
      var middle := " on repository ";
      var quotedRepository := "'" + repository + "'";
      var tail := ". " + candidate;
      Text.ContainsMiddle(head, quotedRevision, "");
      assert head + quotedRevision + "" == head + quotedRevision;
      Text.ContainsExtended(head + quotedRevision, quotedRevision, middle);
      Text.ContainsExtended(head + quotedRevision + middle, quotedRevision, quotedRepository);
      Text.ContainsExtended(head + quotedRevision + middle + quotedRepository, quotedRevision, tail);
      Text.ContainsMiddle(head + quotedRevision + middle, quotedRepository, tail);
      head + quotedRevision + middle + quotedRepository + tail
    }
  }

  /**
   * The candidate `$newrev` the listing yields: the id field of the first
   * matching line, or NULL ("") when no line matches.
   */
  function Candidate(lines: seq<string>, revision: string): (r: string)
    ensures NoSpace(r)
    ensures FirstMatch(lines, revision).None? ==> r == ""
    ensures FirstMatch(lines, revision).Some? ==> Text.StartsWith(lines[FirstMatch(lines, revision).value], r)
    ensures var k := FirstMatch(lines, revision);
      k.Some? && |r| < |lines[k.value]| ==> IsSpace(lines[k.value][|r|])
  {
    match FirstMatch(lines, revision)
    case Some(k) => RevOf(lines[k])
    case None => ""
  }

  /**
   * `queryRevision` on `repository`, given the lines `git ls-remote` prints.
   * A result is always accepted by the commit pattern; a failure always
   * names the revision and the repository.
   */
  function Resolve(revision: string, repository: string, lines: seq<string>): (r: Result<string, ResolveError>)
    ensures r.Ok? ==> MatchesCommitPattern(r.value)
    ensures r.Err? ==> r.error.revision == revision && r.error.repository == repository
    ensures r.Err? ==> Text.Contains(r.error.Message(), "'" + revision + "'")
  {
    if MatchesCommitPattern(revision) then Ok(revision)
    else
      var candidate := Candidate(lines, revision);
      if MatchesCommitPattern(candidate) then Ok(candidate)
      else Err(ResolveError(revision, repository, candidate))
  }

  /** A revision the commit pattern accepts is returned as it is, whatever the listing. */
  lemma ResolveCanonical(revision: string, repository: string, lines: seq<string>)
    requires IsCommitId(revision)
    ensures Resolve(revision, repository, lines) == Ok(revision)
  {
  }

  /**
   * Otherwise the result is the id on the first line whose stripped ref is
   * the revision; a malformed id there fails, even if a later line would do.
   */
  lemma {:induction false} ResolveFirstMatchWins(revision: string, repository: string, lines: seq<string>, k: nat)
    requires !MatchesCommitPattern(revision)
    requires k < |lines| && Matches(lines[k], revision)
    requires forall j :: 0 <= j < k ==> !Matches(lines[j], revision)
    ensures IsCommitId(RevOf(lines[k])) ==> Resolve(revision, repository, lines) == Ok(RevOf(lines[k]))
    ensures !IsCommitId(RevOf(lines[k])) ==>
      Resolve(revision, repository, lines) == Err(ResolveError(revision, repository, RevOf(lines[k])))
  {
    FirstMatchAt(lines, revision, k);
    CommitPatternExactWithoutSpace(RevOf(lines[k]));
  }

  /** With no matching line the candidate stays NULL and resolution always fails. */
  lemma ResolveNoMatchFails(revision: string, repository: string, lines: seq<string>)
    requires !MatchesCommitPattern(revision)
    requires forall j :: 0 <= j < |lines| ==> !Matches(lines[j], revision)
    ensures Resolve(revision, repository, lines) == Err(ResolveError(revision, repository, ""))
  {
    assert !MatchesCommitPattern("");
  }

  /**
   * A result that did not come through the fast path is a canonical id
   * drawn from the first matching line: listing fields hold no whitespace,
   * so the pattern's trailing-newline leniency cannot apply there.
   */
  lemma ResolvedFromListing(revision: string, repository: string, lines: seq<string>)
    requires !MatchesCommitPattern(revision)
    requires Resolve(revision, repository, lines).Ok?
    ensures var k := FirstMatch(lines, revision);
      && k.Some?
      && Resolve(revision, repository, lines).value == RevOf(lines[k.value])
      && IsCommitId(RevOf(lines[k.value]))
  {
    var k := FirstMatch(lines, revision);
    assert !MatchesCommitPattern("");
    if k.Some? {
      CommitPatternExactWithoutSpace(RevOf(lines[k.value]));
    }
  }

  /** As written, forty hex digits and a newline pass the fast path unchanged, newline included. */
  lemma AsWrittenFastPathKeepsNewline(id: string, repository: string, lines: seq<string>)
    requires IsCommitId(id)
    ensures Resolve(id + "\n", repository, lines) == Ok(id + "\n")
    ensures !IsCommitId(id + "\n")
  {
    CommitPatternAcceptsTrailingNewline(id);
  }

  /** The intended resolver: the fast path takes only exact canonical ids. */
  function ResolveStrict(revision: string, repository: string, lines: seq<string>): (r: Result<string, ResolveError>)
  {
    if IsCommitId(revision) then Ok(revision)
    else
      var candidate := Candidate(lines, revision);
      if IsCommitId(candidate) then Ok(candidate)
      else Err(ResolveError(revision, repository, candidate))
  }

  /**
   * The intended resolver returns only canonical ids, and it agrees with the
   * source's resolver on every revision that does not end in a newline.
   */
  lemma ResolveStrictIsCanonical(revision: string, repository: string, lines: seq<string>)
    ensures ResolveStrict(revision, repository, lines).Ok? ==> IsCommitId(ResolveStrict(revision, repository, lines).value)
    ensures (|revision| == 0 || revision[|revision| - 1] != '\n') ==>
      ResolveStrict(revision, repository, lines) == Resolve(revision, repository, lines)
  {
    var c := Candidate(lines, revision);
    CommitPatternExactWithoutSpace(c);
  }

  /** A full ref path such as "refs/heads/main". */
  function RefPath(segment: string, name: string): string
  {
    "refs/" + segment + "/" + name
  }

  /** A line as `git ls-remote` prints it: the id, a tab, the ref. */
  function ListingLine(id: string, ref: string): string
  {
    id + "\t" + ref
  }

  /**
   * A branch and a tag of the same name, the branch listed first: the
   * branch's id wins, not the tag's.
   */
  lemma BranchListedBeforeTagWins(branchId: string, tagId: string, name: string, repository: string)
    requires IsCommitId(branchId) && IsCommitId(tagId)
    requires !MatchesCommitPattern(name)
    requires NoSpace(name) && !Text.Contains(name, "refs/")
    ensures Resolve(name, repository, [ListingLine(branchId, RefPath("heads", name)),
                                       ListingLine(tagId, RefPath("tags", name))])
         == Ok(branchId)
  {
    var lines := [ListingLine(branchId, RefPath("heads", name)), ListingLine(tagId, RefPath("tags", name))];
    ListingLineMatches(branchId, "heads", name);
    ResolveFirstMatchWins(name, repository, lines, 0);
  }

  /** A well-formed listing line for `refs/<segment>/<name>` yields its id and matches `name`. */
  lemma ListingLineMatches(id: string, segment: string, name: string)
    requires IsCommitId(id)
    requires forall i :: 0 <= i < |segment| ==> segment[i] != '/' && !IsSpace(segment[i])
    requires NoSpace(name) && !Text.Contains(name, "refs/")
    ensures RevOf(ListingLine(id, RefPath(segment, name))) == id
    ensures Matches(ListingLine(id, RefPath(segment, name)), name)
  {
    var ref := RefPath(segment, name);
    assert NoSpace(id);
    assert NoSpace(ref) by {
      forall i | 0 <= i < |ref| ensures !IsSpace(ref[i]) {
        if i >= 5 + |segment| + 1 {
          assert ref[i] == name[i - |segment| - 6];
        } else if i >= 5 && i < 5 + |segment| {
          assert ref[i] == segment[i - 5];
        }
      }
    }
    FieldsOfListingLine(id, ref);
    StripRefsOfRefPath(segment, name);
  }

  /** A name no listed ref strips to fails, and the failure names it and the repository. */
  lemma UnknownNameFails(mainId: string, repository: string)
    requires IsCommitId(mainId)
    ensures Resolve("release-9", repository, [ListingLine(mainId, RefPath("heads", "main"))])
         == Err(ResolveError("release-9", repository, ""))
  {
    var lines := [ListingLine(mainId, RefPath("heads", "main"))];
    NoSlashNoRefs("main");
    ListingLineMatches(mainId, "heads", "main");
    assert "main" != "release-9";
    ResolveNoMatchFails("release-9", repository, lines);
  }
}
