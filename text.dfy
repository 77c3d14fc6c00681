/** String assembly as PHP does it: `implode`, and substring facts about the result. */
module Text {

  /** PHP's `implode(sep, parts)`: the parts with `sep` between neighbours. */
  function Join(sep: string, parts: seq<string>): string
  {
    if |parts| == 0 then ""
    else if |parts| == 1 then parts[0]
    else parts[0] + sep + Join(sep, parts[1..])
  }

  /** `t` occurs in `s` as a contiguous substring. */
  predicate Contains(s: string, t: string)
  {
    exists i :: 0 <= i <= |s| && StartsWith(s[i..], t)
  }

  predicate StartsWith(s: string, p: string)
  {
    |p| <= |s| && s[..|p|] == p
  }

  predicate EndsWith(s: string, p: string)
  {
    |p| <= |s| && s[|s| - |p|..] == p
  }

  lemma ContainsMiddle(a: string, t: string, b: string)
    ensures Contains(a + t + b, t)
  {
    var s := a + t + b;
    assert s[|a|..][..|t|] == t;
    assert StartsWith(s[|a|..], t);
  }

  /** Text appended after a string keeps every substring of it. */
  lemma ContainsExtended(s: string, t: string, u: string)
    requires Contains(s, t)
    ensures Contains(s + u, t)
  {
    var i :| 0 <= i <= |s| && StartsWith(s[i..], t);
    assert (s + u)[i..][..|t|] == s[i..][..|t|];
    assert StartsWith((s + u)[i..], t);
  }

  /** A substring of a substring is a substring. */
  lemma ContainsTransitive(s: string, t: string, u: string)
    requires Contains(s, t) && Contains(t, u)
    ensures Contains(s, u)
  {
    var i :| 0 <= i <= |s| && StartsWith(s[i..], t);
    var j :| 0 <= j <= |t| && StartsWith(t[j..], u);
    forall k | 0 <= k < |u|
      ensures s[i + j + k] == u[k]
    {
      assert s[i..][j + k] == t[j + k];
      assert t[j..][k] == u[k];
    }
    assert s[i + j..][..|u|] == u;
    assert StartsWith(s[i + j..], u);
  }

  /** Joining two non-empty lists is joining each and putting one separator between. */
  lemma {:induction false} JoinAppend(sep: string, a: seq<string>, b: seq<string>)
    requires |a| > 0 && |b| > 0
    ensures Join(sep, a + b) == Join(sep, a) + sep + Join(sep, b)
  {
    if |a| == 1 {
      assert (a + b)[1..] == b;
    } else {
      assert (a + b)[1..] == a[1..] + b;
      JoinAppend(sep, a[1..], b);
    }
  }

  /** The joined string begins with the first part and ends with the last. */
  lemma {:induction false} JoinEnds(sep: string, parts: seq<string>)
    requires |parts| > 0
    ensures StartsWith(Join(sep, parts), parts[0])
    ensures EndsWith(Join(sep, parts), parts[|parts| - 1])
  {
    if |parts| > 1 {
      JoinEnds(sep, parts[1..]);
      var rest := Join(sep, parts[1..]);
      var s := parts[0] + sep + rest;
      var last := parts[|parts| - 1];
      assert s[|s| - |last|..] == rest[|rest| - |last|..];
    }
  }

  /** Every part survives, verbatim, in the joined string. */
  lemma JoinContainsPart(sep: string, parts: seq<string>, i: nat)
    requires i < |parts|
    ensures Contains(Join(sep, parts), parts[i])
  {
    var before := parts[..i];
    var from := parts[i..];
    assert parts == before + from;
    var tail := if i + 1 < |parts| then sep + Join(sep, parts[i + 1..]) else "";
    assert Join(sep, from) == parts[i] + tail by {
      assert from[1..] == parts[i + 1..];
    }
    if i == 0 {
      assert from == parts;
      assert Join(sep, parts) == "" + parts[i] + tail;
      ContainsMiddle("", parts[i], tail);
    } else {
      JoinAppend(sep, before, from);
      assert Join(sep, parts) == (Join(sep, before) + sep) + parts[i] + tail;
      ContainsMiddle(Join(sep, before) + sep, parts[i], tail);
    }
  }
}
