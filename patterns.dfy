/**
 * The three regular expressions the resolver uses, each as a small function:
 * the commit-id test `/^[0-9a-f]{40}$/`, the ref stripper `/refs\/.*?\//`
 * (replaced by the empty string, every occurrence) and the field split `/\s+/`.
 */
module Patterns {
  import Text

  predicate IsLowerHex(c: char)
  {
    '0' <= c <= '9' || 'a' <= c <= 'f'
  }

  /** A canonical commit id: exactly forty lower-case hexadecimal digits. */
  predicate IsCommitId(s: string)
  {
    |s| == 40 && forall i :: 0 <= i < |s| ==> IsLowerHex(s[i])
  }

  /**
   * `preg_match('/^[0-9a-f]{40}$/', s)`. Without the D modifier, PCRE's `$`
   * also matches just before a final newline, so forty hex digits followed by
   * one "\n" match as well.
   */
  predicate MatchesCommitPattern(s: string)
    ensures MatchesCommitPattern(s) ==> 40 <= |s| <= 41 && IsCommitId(s[..40])
    ensures MatchesCommitPattern(s) && |s| == 41 ==> s[40] == '\n'
  {
    IsCommitId(s) || (|s| == 41 && s[40] == '\n' && IsCommitId(s[..40]))
  }

  /** The pattern accepts a trailing newline, which no canonical id has. */
  lemma CommitPatternAcceptsTrailingNewline(id: string)
    requires IsCommitId(id)
    ensures MatchesCommitPattern(id + "\n") && !IsCommitId(id + "\n")
  {
    assert (id + "\n")[..40] == id;
  }

  /** On a string without whitespace the pattern and the canonical test agree. */
  lemma CommitPatternExactWithoutSpace(s: string)
    requires NoSpace(s)
    ensures MatchesCommitPattern(s) <==> IsCommitId(s)
  {
    if |s| == 41 {
      assert !IsSpace(s[40]);
    }
  }

  // ---------------------------------------------------------------------
  // preg_replace('/refs\/.*?\//', '', ref)

  /** First index at or after `i` holding '/' or '\n' (PCRE's `.` stops at '\n'), or |s|. */
  function StopAt(s: string, i: nat): (j: nat)
    requires i <= |s|
    ensures i <= j <= |s|
    ensures forall k :: i <= k < j ==> s[k] != '/' && s[k] != '\n'
    ensures j < |s| ==> s[j] == '/' || s[j] == '\n'
    decreases |s| - i
  {
    if i == |s| || s[i] == '/' || s[i] == '\n' then i else StopAt(s, i + 1)
  }

  /**
   * The regex matches at the start of `s`: "refs/", then the shortest run of
   * non-newline characters, then "/". Yields the length of the match.
   */
  function RefsMatchAtStart(s: string): (n: nat)
    ensures n == 0 || (6 <= n <= |s| && Text.StartsWith(s, "refs/") && s[n - 1] == '/')
  {
    if |s| >= 5 && s[..5] == "refs/" && StopAt(s, 5) < |s| && s[StopAt(s, 5)] == '/'
    then StopAt(s, 5) + 1
    else 0
  }

  /** Every non-overlapping match, scanning left to right, removed. */
  function StripRefs(s: string): (r: string)
    ensures |r| <= |s|
    decreases |s|
  {
    if |s| == 0 then ""
    else
      var n := RefsMatchAtStart(s);
      if n > 0 then StripRefs(s[n..]) else [s[0]] + StripRefs(s[1..])
  }

  /** A string in which "refs/" never occurs comes back unchanged. */
  lemma {:induction false} StripRefsKeepsPlainText(s: string)
    requires !Text.Contains(s, "refs/")
    ensures StripRefs(s) == s
  {
    if |s| > 0 {
      assert s[0..] == s;
      assert !Text.StartsWith(s, "refs/");
      assert RefsMatchAtStart(s) == 0;
      StripRefsKeepsPlainText(s[1..]);
    }
  }

  /** A string without '/' cannot contain "refs/". */
  lemma NoSlashNoRefs(s: string)
    requires forall i :: 0 <= i < |s| ==> s[i] != '/'
    ensures !Text.Contains(s, "refs/")
  {
    forall i | 0 <= i <= |s|
      ensures !Text.StartsWith(s[i..], "refs/")
    {
      if i + 5 <= |s| {
        assert s[i..][4] == s[i + 4];
      }
    }
  }

  /** One leading `refs/<segment>/` is removed, and stripping goes on after it. */
  lemma StripRefsLeadingSegment(segment: string, rest: string)
    requires forall i :: 0 <= i < |segment| ==> segment[i] != '/' && segment[i] != '\n'
    ensures StripRefs("refs/" + segment + "/" + rest) == StripRefs(rest)
  {
    var s := "refs/" + segment + "/" + rest;
    assert s[..5] == "refs/";
    StopAtSkips(s, 5, 5 + |segment|);
    assert s[5 + |segment| + 1..] == rest;
  }

  lemma {:induction false} StopAtSkips(s: string, i: nat, j: nat)
    requires i <= j < |s|
    requires forall k :: i <= k < j ==> s[k] != '/' && s[k] != '\n'
    requires s[j] == '/'
    ensures StopAt(s, i) == j
    decreases j - i
  {
    if i < j {
      StopAtSkips(s, i + 1, j);
    }
  }

  /**
   * A branch or tag name is recovered from its full ref path, slashes in the
   * name included ("refs/heads/feature/x" gives "feature/x"), provided "refs/"
   * does not occur in the name itself.
   */
  lemma StripRefsOfRefPath(segment: string, name: string)
    requires forall i :: 0 <= i < |segment| ==> segment[i] != '/' && segment[i] != '\n'
    requires !Text.Contains(name, "refs/")
    ensures StripRefs("refs/" + segment + "/" + name) == name
  {
    StripRefsLeadingSegment(segment, name);
    StripRefsKeepsPlainText(name);
  }

  // ---------------------------------------------------------------------
  // preg_split('/\s+/', line)

  /** PCRE's `\s` outside UTF mode: space, tab, newline, vertical tab, form feed, return. */
  predicate IsSpace(c: char)
  {
    c == ' ' || '\t' <= c <= '\r'
  }

  predicate NoSpace(s: string)
  {
    forall i :: 0 <= i < |s| ==> !IsSpace(s[i])
  }

  /** End of the field that starts at `i`: the first whitespace at or after `i`, or |s|. */
  function FieldEnd(s: string, i: nat): (j: nat)
    requires i <= |s|
    ensures i <= j <= |s|
    ensures forall k :: i <= k < j ==> !IsSpace(s[k])
    ensures j < |s| ==> IsSpace(s[j])
    decreases |s| - i
  {
    if i == |s| || IsSpace(s[i]) then i else FieldEnd(s, i + 1)
  }

  /** End of the whitespace run that starts at `i`. */
  function SpaceEnd(s: string, i: nat): (j: nat)
    requires i <= |s|
    ensures i <= j <= |s|
    ensures i < |s| && IsSpace(s[i]) ==> i < j
    decreases |s| - i
  {
    if i == |s| || !IsSpace(s[i]) then i else SpaceEnd(s, i + 1)
  }

  /** Everything the whitespace run skips is whitespace. */
  lemma {:induction false} SpaceEndRun(s: string, i: nat)
    requires i <= |s|
    ensures forall k :: i <= k < SpaceEnd(s, i) ==> IsSpace(s[k])
    decreases |s| - i
  {
    if i < |s| && IsSpace(s[i]) {
      SpaceEndRun(s, i + 1);
    }
  }

  /** The text with every whitespace character deleted. */
  function RemoveSpace(s: string): string
  {
    if |s| == 0 then ""
    else (if IsSpace(s[0]) then "" else [s[0]]) + RemoveSpace(s[1..])
  }

  /** The pieces written one after another, with nothing between them. */
  function Concat(pieces: seq<string>): string
  {
    if |pieces| == 0 then "" else pieces[0] + Concat(pieces[1..])
  }

  lemma {:induction false} RemoveSpaceAppend(a: string, b: string)
    ensures RemoveSpace(a + b) == RemoveSpace(a) + RemoveSpace(b)
  {
    if |a| > 0 {
      assert (a + b)[1..] == a[1..] + b;
      RemoveSpaceAppend(a[1..], b);
    } else {
      assert a + b == b;
    }
  }

  lemma {:induction false} RemoveSpaceOfNoSpace(a: string)
    requires NoSpace(a)
    ensures RemoveSpace(a) == a
  {
    if |a| > 0 {
      RemoveSpaceOfNoSpace(a[1..]);
    }
  }

  lemma {:induction false} RemoveSpaceOfSpace(a: string)
    requires forall k :: 0 <= k < |a| ==> IsSpace(a[k])
    ensures RemoveSpace(a) == ""
  {
    if |a| > 0 {
      RemoveSpaceOfSpace(a[1..]);
    }
  }

  /** A field, then a whitespace run, then the rest: only the field and the rest's text survive. */
  lemma SplitStep(s: string, i: nat, j: nat, k: nat)
    requires i <= j <= k <= |s|
    requires forall m :: i <= m < j ==> !IsSpace(s[m])
    requires forall m :: j <= m < k ==> IsSpace(s[m])
    ensures RemoveSpace(s[i..]) == s[i..j] + RemoveSpace(s[k..])
  {
    assert s[i..] == s[i..j] + s[j..k] + s[k..];
    RemoveSpaceAppend(s[i..j] + s[j..k], s[k..]);
    RemoveSpaceAppend(s[i..j], s[j..k]);
    RemoveSpaceOfNoSpace(s[i..j]);
    RemoveSpaceOfSpace(s[j..k]);
  }

  /**
   * The pieces between whitespace runs, from index `i` on. Like `preg_split`,
   * leading or trailing whitespace yields an empty first or last piece, and
   * there is always at least one piece. The first piece is everything up to
   * the first whitespace, no piece holds whitespace, and the pieces written
   * together are the text with its whitespace deleted.
   */
  function SplitFrom(s: string, i: nat): (r: seq<string>)
    requires i <= |s|
    ensures |r| >= 1
    ensures forall k :: 0 <= k < |r| ==> NoSpace(r[k])
    ensures Concat(r) == RemoveSpace(s[i..])
    decreases |s| - i
  {
    var j := FieldEnd(s, i);
    if j == |s| then
      RemoveSpaceOfNoSpace(s[i..]);
      assert Concat([s[i..]]) == s[i..] + Concat([]);
      [s[i..]]
    else
      var k := SpaceEnd(s, j);
      SpaceEndRun(s, j);
      SplitStep(s, i, j, k);
      var rest := SplitFrom(s, k);
      assert ([s[i..j]] + rest)[1..] == rest;
      [s[i..j]] + rest
  }

  /** The first piece is the text up to the first whitespace. */
  lemma SplitFromFirstField(s: string, i: nat)
    requires i <= |s|
    ensures Text.StartsWith(s[i..], SplitFrom(s, i)[0])
    ensures i + |SplitFrom(s, i)[0]| < |s| ==> IsSpace(s[i + |SplitFrom(s, i)[0]|])
  {
    var j := FieldEnd(s, i);
    assert SplitFrom(s, i)[0] == s[i..j];
    assert s[i..][..j - i] == s[i..j];
  }

  /** `preg_split('/\s+/', line)`. */
  function Fields(line: string): (r: seq<string>)
    ensures |r| >= 1 && forall k :: 0 <= k < |r| ==> NoSpace(r[k])
    ensures Concat(r) == RemoveSpace(line)
  {
    assert line[0..] == line;
    SplitFrom(line, 0)
  }

  /** A `git ls-remote` line "<id>\t<ref>" splits back into its id and its ref. */
  lemma FieldsOfListingLine(id: string, ref: string)
    requires NoSpace(id) && NoSpace(ref)
    ensures Fields(id + "\t" + ref) == [id, ref]
  {
    var s := id + "\t" + ref;
    FieldEndAt(s, 0, |id|);
    assert s[..|id|] == id;
    assert s[|id|] == '\t';
    assert SpaceEnd(s, |id| + 1) == |id| + 1 by {
      if |id| + 1 < |s| {
        assert s[|id| + 1] == ref[0];
      }
    }
    assert SpaceEnd(s, |id|) == |id| + 1;
    FieldEndAt(s, |id| + 1, |s|);
    assert s[|id| + 1..] == ref;
    assert SplitFrom(s, |id| + 1) == [ref];
  }

  /**
   * A line with an id, a whitespace run, a non-empty ref, and anything after
   * that begins with whitespace (a final "\n", or more fields): its first two
   * fields, the ones `list($rev, $ref)` reads, are the id and the ref.
   */
  lemma FieldsOfLineWithTail(id: string, ws: string, ref: string, tail: string)
    requires NoSpace(id) && NoSpace(ref) && |ref| > 0
    requires |ws| > 0 && forall k :: 0 <= k < |ws| ==> IsSpace(ws[k])
    requires tail == "" || IsSpace(tail[0])
    ensures |Fields(id + ws + ref + tail)| >= 2
    ensures Fields(id + ws + ref + tail)[..2] == [id, ref]
  {
    var s := id + ws + ref + tail;
    var p := |id| + |ws|;
    var q := p + |ref|;
    assert s[|id|] == ws[0];
    FieldEndAt(s, 0, |id|);
    assert s[p] == ref[0];
    SpaceEndAt(s, |id|, p);
    if q < |s| {
      assert s[q] == tail[0];
    }
    FieldEndAt(s, p, q);
    assert s[..|id|] == id;
    assert s[p..q] == ref;
    var rest := SplitFrom(s, p);
    assert rest[0] == ref;
    assert Fields(s) == [id] + rest;
  }

  lemma {:induction false} SpaceEndAt(s: string, i: nat, j: nat)
    requires i <= j <= |s|
    requires forall k :: i <= k < j ==> IsSpace(s[k])
    requires j < |s| ==> !IsSpace(s[j])
    ensures SpaceEnd(s, i) == j
    decreases j - i
  {
    if i < j {
      SpaceEndAt(s, i + 1, j);
    }
  }

  lemma {:induction false} FieldEndAt(s: string, i: nat, j: nat)
    requires i <= j <= |s|
    requires forall k :: i <= k < j ==> !IsSpace(s[k])
    requires j < |s| ==> IsSpace(s[j])
    ensures FieldEnd(s, i) == j
    decreases j - i
  {
    if i < j {
      FieldEndAt(s, i + 1, j);
    }
  }
}
