/** String operations of Java's String and Python's str that the modelled code relies on,
    with the properties the rest of the model needs. */
module Strings {
  import opened Wrappers

  predicate StartsWith(s: string, p: string) {
    |p| <= |s| && s[..|p|] == p
  }

  predicate EndsWith(s: string, p: string) {
    |p| <= |s| && s[|s| - |p|..] == p
  }

  /** `p` occurs in `s` starting at position `i`. */
  predicate OccursAt(s: string, p: string, i: nat) {
    i + |p| <= |s| && s[i..i + |p|] == p
  }

  /** First occurrence of `p` in `s` at or after `from` (Java `indexOf(p, from)`). */
  function IndexOfFrom(s: string, p: string, from: nat): (r: Option<nat>)
    requires from <= |s|
    ensures r.Some? ==> from <= r.value && OccursAt(s, p, r.value)
    ensures r.Some? ==> forall j :: from <= j < r.value ==> !OccursAt(s, p, j)
    ensures r.None? ==> forall j :: from <= j <= |s| ==> !OccursAt(s, p, j)
    decreases |s| - from
  {
    if OccursAt(s, p, from) then Some(from)
    else if from == |s| then None
    else IndexOfFrom(s, p, from + 1)
  }

  /** First occurrence of `p` in `s` (Java `indexOf`, Python `find` with None for -1). */
  function IndexOf(s: string, p: string): (r: Option<nat>)
    ensures r.Some? ==> OccursAt(s, p, r.value)
    ensures r.Some? ==> forall j :: 0 <= j < r.value ==> !OccursAt(s, p, j)
    ensures r.None? ==> forall j :: 0 <= j <= |s| ==> !OccursAt(s, p, j)
  {
    IndexOfFrom(s, p, 0)
  }

  predicate Contains(s: string, p: string) {
    IndexOf(s, p).Some?
  }

  /** Java `lastIndexOf(c)`: the last position holding `c`. */
  function LastIndexOfChar(s: string, c: char): (r: Option<nat>)
    ensures r.Some? ==> r.value < |s| && s[r.value] == c
    ensures r.Some? ==> forall j :: r.value < j < |s| ==> s[j] != c
    ensures r.None? ==> forall j :: 0 <= j < |s| ==> s[j] != c
  {
    if |s| == 0 then None
    else if s[|s| - 1] == c then Some(|s| - 1)
    else LastIndexOfChar(s[..|s| - 1], c)
  }

  /** Python's `find` for one character: the first position holding `c`, or -1. */
  function FindChar(s: string, c: char): (r: int)
    ensures -1 <= r < |s|
    ensures r >= 0 ==> s[r] == c && forall j :: 0 <= j < r ==> s[j] != c
    ensures r == -1 ==> forall j :: 0 <= j < |s| ==> s[j] != c
  {
    if |s| == 0 then -1
    else if s[0] == c then 0
    else var k := FindChar(s[1..], c); if k == -1 then -1 else k + 1
  }

  /** Splits `s` at every non-overlapping occurrence of `sep`, scanning left to right,
      keeping every piece (also empty ones). */
  function SplitAll(s: string, sep: string): (r: seq<string>)
    requires |sep| > 0
    ensures |r| >= 1
    decreases |s|
  {
    match IndexOf(s, sep)
    case None => [s]
    case Some(i) => [s[..i]] + SplitAll(s[i + |sep|..], sep)
  }

  /** `parts` joined with `sep` between consecutive parts (Python `sep.join(parts)`). */
  function Join(parts: seq<string>, sep: string): string {
    if |parts| == 0 then ""
    else if |parts| == 1 then parts[0]
    else parts[0] + sep + Join(parts[1..], sep)
  }

  /** Removes the trailing empty strings of a split result. */
  function DropTrailingEmpty(parts: seq<string>): (r: seq<string>)
    ensures |r| <= |parts| && r == parts[..|r|]
    ensures |r| > 0 ==> r[|r| - 1] != ""
    ensures forall i :: |r| <= i < |parts| ==> parts[i] == ""
  {
    if |parts| == 0 then []
    else if parts[|parts| - 1] == "" then DropTrailingEmpty(parts[..|parts| - 1])
    else parts
  }

  /** Java `String.split` with a literal separator: the string itself when the separator
      does not occur, otherwise every piece with the trailing empty pieces dropped. */
  function JavaSplit(s: string, sep: string): seq<string>
    requires |sep| > 0
  {
    if !Contains(s, sep) then [s] else DropTrailingEmpty(SplitAll(s, sep))
  }

  /** Python `str.replace(pat, rep)`: every non-overlapping occurrence, left to right. */
  function ReplaceAll(s: string, pat: string, rep: string): string
    requires |pat| > 0
    decreases |s|
  {
    match IndexOf(s, pat)
    case None => s
    case Some(i) => s[..i] + rep + ReplaceAll(s[i + |pat|..], pat, rep)
  }

  /** A string is the text before an occurrence, the occurrence, and the text after it. */
  lemma SplitAtOccurrence(s: string, sep: string, i: nat)
    requires OccursAt(s, sep, i)
    ensures s == s[..i] + sep + s[i + |sep|..]
  {
    assert s == s[..i] + s[i..i + |sep|] + s[i + |sep|..];
  }

  /** Joining the pieces of a split back with the separator gives the original string. */
  lemma {:induction false} SplitJoinRoundTrip(s: string, sep: string)
    requires |sep| > 0
    ensures Join(SplitAll(s, sep), sep) == s
    decreases |s|
  {
    match IndexOf(s, sep)
    case None =>
    case Some(i) =>
      var rest := s[i + |sep|..];
      SplitJoinRoundTrip(rest, sep);
      JoinCons(s[..i], SplitAll(rest, sep), sep);
      SplitAtOccurrence(s, sep, i);
  }

  lemma JoinCons(a: string, tail: seq<string>, sep: string)
    requires |tail| >= 1
    ensures Join([a] + tail, sep) == a + sep + Join(tail, sep)
  {
    assert ([a] + tail)[1..] == tail;
  }

  /** Appending a part to a join adds the separator and the part (StringBuilder order). */
  lemma {:induction false} JoinSnoc(parts: seq<string>, x: string, sep: string)
    ensures Join(parts + [x], sep) == if |parts| == 0 then x else Join(parts, sep) + sep + x
  {
    if |parts| > 1 {
      assert (parts + [x])[1..] == parts[1..] + [x];
      JoinSnoc(parts[1..], x, sep);
    } else if |parts| == 1 {
      assert (parts + [x])[1..] == [x];
    }
  }

  /** No piece of a split holds the separator. */
  lemma {:induction false} SplitPiecesFree(s: string, sep: string)
    requires |sep| > 0
    ensures forall k :: 0 <= k < |SplitAll(s, sep)| ==> !Contains(SplitAll(s, sep)[k], sep)
    decreases |s|
  {
    match IndexOf(s, sep)
    case None =>
    case Some(i) =>
      var rest := s[i + |sep|..];
      SplitPiecesFree(rest, sep);
      PrefixBeforeFirstFree(s, sep, i);
      var pieces := SplitAll(s, sep);
      var tail := SplitAll(rest, sep);
      assert pieces == [s[..i]] + tail;
      forall k | 0 <= k < |pieces|
        ensures !Contains(pieces[k], sep)
      {
        if k > 0 {
          assert pieces[k] == tail[k - 1];
        }
      }
  }

  /** The text before the first occurrence of `sep` does not contain `sep`. */
  lemma PrefixBeforeFirstFree(s: string, sep: string, i: nat)
    requires |sep| > 0
    requires i <= |s| && forall j :: 0 <= j < i ==> !OccursAt(s, sep, j)
    ensures !Contains(s[..i], sep)
  {
    if Contains(s[..i], sep) {
      var j := IndexOf(s[..i], sep).value;
      assert s[..i][j..j + |sep|] == s[j..j + |sep|];
      assert OccursAt(s, sep, j);
    }
  }

  /** Python's `replace` is a split followed by a join with the replacement. */
  lemma {:induction false} ReplaceAllIsSplitJoin(s: string, pat: string, rep: string)
    requires |pat| > 0
    ensures ReplaceAll(s, pat, rep) == Join(SplitAll(s, pat), rep)
    decreases |s|
  {
    match IndexOf(s, pat)
    case None =>
    case Some(i) =>
      var rest := s[i + |pat|..];
      var parts := SplitAll(rest, pat);
      assert SplitAll(s, pat) == [s[..i]] + parts;
      assert Join([s[..i]] + parts, rep) == s[..i] + rep + Join(parts, rep) by {
        JoinCons(s[..i], parts, rep);
      }
      assert ReplaceAll(rest, pat, rep) == Join(parts, rep) by {
        ReplaceAllIsSplitJoin(rest, pat, rep);
      }
  }

  /** Replacing a pattern by itself changes nothing. */
  lemma ReplaceAllSelf(s: string, pat: string)
    requires |pat| > 0
    ensures ReplaceAll(s, pat, pat) == s
  {
    ReplaceAllIsSplitJoin(s, pat, pat);
    SplitJoinRoundTrip(s, pat);
  }

  /** Replacing a pattern that does not occur changes nothing. */
  lemma ReplaceAllAbsent(s: string, pat: string, rep: string)
    requires |pat| > 0 && !Contains(s, pat)
    ensures ReplaceAll(s, pat, rep) == s
  {
  }

  /** A single occurrence of the pattern is replaced in place. */
  lemma ReplaceAllSingle(pre: string, pat: string, post: string, rep: string)
    requires |pat| > 0
    requires IndexOf(pre + pat + post, pat) == Some(|pre|)
    requires !Contains(post, pat)
    ensures ReplaceAll(pre + pat + post, pat, rep) == pre + rep + post
  {
    var s := pre + pat + post;
    assert s[..|pre|] == pre;
    assert s[|pre| + |pat|..] == post;
    ReplaceAllAbsent(post, pat, rep);
  }

  /** A pattern whose first character does not recur in it, behind a text free of it,
      occurs first where it was placed: no occurrence can start in the text, nor straddle
      the text and the pattern. */
  lemma FirstOccurrenceAfter(x: string, p: string, y: string)
    requires |p| > 0 && forall k :: 0 < k < |p| ==> p[k] != p[0]
    requires !Contains(x, p)
    ensures IndexOf(x + p + y, p) == Some(|x|)
  {
    var s := x + p + y;
    assert s[|x|..|x| + |p|] == p;
    assert OccursAt(s, p, |x|);
    forall j | 0 <= j < |x|
      ensures !OccursAt(s, p, j)
    {
      if j + |p| <= |x| {
        assert s[j..j + |p|] == x[j..j + |p|];
        assert !OccursAt(x, p, j);
      } else {
        assert s[|x|] == p[0];
        assert s[j..j + |p|][|x| - j] == s[|x|];
        assert p[|x| - j] != p[0];
      }
    }
  }

  /** The one occurrence of such a pattern between two texts free of it is replaced in place. */
  lemma ReplaceBetween(x: string, p: string, y: string, rep: string)
    requires |p| > 0 && forall k :: 0 < k < |p| ==> p[k] != p[0]
    requires !Contains(x, p) && !Contains(y, p)
    ensures ReplaceAll(x + p + y, p, rep) == x + rep + y
  {
    FirstOccurrenceAfter(x, p, y);
    ReplaceAllSingle(x, p, y, rep);
  }

  /** The first of two patterns placed in order is replaced; the text after it is kept. */
  lemma ReplaceFirstOfTwo(a: string, p: string, b: string, q: string, c: string, rp: string)
    requires |p| > 0 && forall k :: 0 < k < |p| ==> p[k] != p[0]
    requires !Contains(a, p) && !Contains(b + q + c, p)
    ensures ReplaceAll(a + p + b + q + c, p, rp) == (a + rp + b) + q + c
  {
    var tail := b + q + c;
    assert a + p + b + q + c == a + p + tail;
    ReplaceBetween(a, p, tail, rp);
    assert a + rp + tail == (a + rp + b) + q + c;
  }

  /** Two patterns placed once each, in order, are replaced one after the other. */
  lemma ReplaceTwoInOrder(a: string, p: string, b: string, q: string, c: string, rp: string, rq: string)
    requires |p| > 0 && forall k :: 0 < k < |p| ==> p[k] != p[0]
    requires |q| > 0 && forall k :: 0 < k < |q| ==> q[k] != q[0]
    requires !Contains(a, p) && !Contains(b + q + c, p)
    requires !Contains(a + rp + b, q) && !Contains(c, q)
    ensures ReplaceAll(ReplaceAll(a + p + b + q + c, p, rp), q, rq) == a + rp + b + rq + c
  {
    ReplaceFirstOfTwo(a, p, b, q, c, rp);
    ReplaceBetween(a + rp + b, q, c, rq);
  }

  /** Python's `strip()` whitespace. */
  predicate IsSpace(c: char) {
    c == ' ' || c == '\t' || c == '\n' || c == '\r' || c == 11 as char || c == 12 as char
  }

  /** Python `s.lstrip(chars)`: drops the longest prefix of characters from `cs`. */
  function LStripSet(s: string, cs: set<char>): (r: string)
    ensures |r| <= |s| && r == s[|s| - |r|..]
    ensures |r| > 0 ==> r[0] !in cs
    ensures forall i :: 0 <= i < |s| - |r| ==> s[i] in cs
  {
    if |s| > 0 && s[0] in cs then
      var r := LStripSet(s[1..], cs);
      assert s[1..][|s| - 1 - |r|..] == s[|s| - |r|..];
      assert forall i :: 1 <= i < |s| - |r| ==> s[i] == s[1..][i - 1];
      r
    else s
  }

  /** Python `s.rstrip()`: drops trailing whitespace. */
  function RStrip(s: string): (r: string)
    ensures |r| <= |s| && r == s[..|r|]
    ensures |r| > 0 ==> !IsSpace(r[|r| - 1])
    ensures forall i :: |r| <= i < |s| ==> IsSpace(s[i])
  {
    if |s| > 0 && IsSpace(s[|s| - 1]) then RStrip(s[..|s| - 1]) else s
  }

  /** Python `s.lstrip()`: drops leading whitespace. */
  function LStrip(s: string): (r: string)
    ensures |r| <= |s| && r == s[|s| - |r|..]
    ensures |r| > 0 ==> !IsSpace(r[0])
    ensures forall i :: 0 <= i < |s| - |r| ==> IsSpace(s[i])
  {
    if |s| > 0 && IsSpace(s[0]) then
      var r := LStrip(s[1..]);
      assert s[1..][|s| - 1 - |r|..] == s[|s| - |r|..];
      assert forall i :: 1 <= i < |s| - |r| ==> s[i] == s[1..][i - 1];
      r
    else s
  }

  /** Python `s.strip()`. */
  function Strip(s: string): string {
    LStrip(RStrip(s))
  }
}
