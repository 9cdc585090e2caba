/**
 * The parts of java.lang.String that the validators and header decoders rely on:
 * substring search and `split` with a literal (metacharacter-free) delimiter.
 *
 * Java's `s.split(d)` (limit 0) cuts `s` at every non-overlapping occurrence of `d`,
 * scanning left to right; when `d` does not occur it returns `[s]` unchanged, and
 * otherwise it drops the trailing empty pieces.
 */
module JavaStrings {

  /** `d` occurs as a contiguous substring of `s`. */
  predicate Occurs(d: string, s: string)
    decreases |s|
  {
    if |s| < |d| then false
    else if s[..|d|] == d then true
    else |s| > 0 && Occurs(d, s[1..])
  }

  /** The pieces of `s` between the leftmost non-overlapping occurrences of `d`, empty ones included. */
  function SplitRaw(s: string, d: string): (parts: seq<string>)
    requires d != ""
    ensures |parts| >= 1
    decreases |s|
  {
    if |s| < |d| then [s]
    else if s[..|d|] == d then [""] + SplitRaw(s[|d|..], d)
    else
      var rest := SplitRaw(s[1..], d);
      [[s[0]] + rest[0]] + rest[1..]
  }

  /** The pieces glued back together with `d` between consecutive ones. */
  function Join(parts: seq<string>, d: string): string
    decreases |parts|
  {
    if |parts| == 0 then ""
    else if |parts| == 1 then parts[0]
    else parts[0] + d + Join(parts[1..], d)
  }

  /** `parts` without its trailing empty strings. */
  function DropTrailingEmpty(parts: seq<string>): (r: seq<string>)
    ensures |r| <= |parts| && r == parts[..|r|]
    ensures r == [] || r[|r| - 1] != ""
    ensures forall i :: |r| <= i < |parts| ==> parts[i] == ""
    decreases |parts|
  {
    if |parts| == 0 then []
    else if parts[|parts| - 1] == "" then DropTrailingEmpty(parts[..|parts| - 1])
    else parts
  }

  /** Java's `s.split(d)` for a delimiter with no regular-expression metacharacters. */
  function Split(s: string, d: string): (r: seq<string>)
    requires d != ""
    ensures !Occurs(d, s) ==> r == [s]
    ensures Occurs(d, s) ==>
      && |r| <= |SplitRaw(s, d)| && r == SplitRaw(s, d)[..|r|]
      && (r == [] || r[|r| - 1] != "")
      && forall i :: |r| <= i < |SplitRaw(s, d)| ==> SplitRaw(s, d)[i] == ""
  {
    if !Occurs(d, s) then [s] else DropTrailingEmpty(SplitRaw(s, d))
  }

  // ---------------------------------------------------------------------------
  // Properties of SplitRaw and Join

  /** An empty first piece contributes only the delimiter after it. */
  lemma JoinEmptyHead(rest: seq<string>, d: string)
    requires |rest| >= 1
    ensures Join([""] + rest, d) == d + Join(rest, d)
  {
    assert ([""] + rest)[1..] == rest;
  }

  /** A character added to the front of the first piece goes to the front of the joined string. */
  lemma JoinConsHead(c: char, rest: seq<string>, d: string)
    requires |rest| >= 1
    ensures Join([[c] + rest[0]] + rest[1..], d) == [c] + Join(rest, d)
  {
    var parts := [[c] + rest[0]] + rest[1..];
    if |rest| > 1 {
      assert parts[1..] == rest[1..];
    }
  }

  /** Split and Join are inverse: the pieces and delimiters rebuild the input. */
  lemma {:induction false} JoinSplitRaw(s: string, d: string)
    requires d != ""
    ensures Join(SplitRaw(s, d), d) == s
    decreases |s|
  {
    if |s| < |d| {
    } else if s[..|d|] == d {
      var rest := SplitRaw(s[|d|..], d);
      JoinSplitRaw(s[|d|..], d);
      JoinEmptyHead(rest, d);
      assert s == d + s[|d|..];
    } else {
      var rest := SplitRaw(s[1..], d);
      JoinSplitRaw(s[1..], d);
      JoinConsHead(s[0], rest, d);
      assert [s[0]] + s[1..] == s;
    }
  }

  /** No piece that SplitRaw returns contains the delimiter. */
  lemma {:induction false} SplitRawPiecesAvoid(s: string, d: string)
    requires d != ""
    ensures forall i :: 0 <= i < |SplitRaw(s, d)| ==> !Occurs(d, SplitRaw(s, d)[i])
    decreases |s|
  {
    if |s| < |d| {
    } else if s[..|d|] == d {
      SplitRawPiecesAvoid(s[|d|..], d);
      assert !Occurs(d, "");
    } else {
      var rest := SplitRaw(s[1..], d);
      SplitRawPiecesAvoid(s[1..], d);
      JoinSplitRaw(s[1..], d);
      var head := [s[0]] + rest[0];
      JoinStartsWithHead(rest, d);
      assert s[1..][..|rest[0]|] == rest[0];
      assert head == s[..|head|];
      if |head| >= |d| {
        assert head[..|d|] == s[..|d|];
      }
      assert head[1..] == rest[0];
      assert !Occurs(d, head);
      assert SplitRaw(s, d) == [head] + rest[1..];
    }
  }

  /** The first piece is a prefix of the joined string. */
  lemma JoinStartsWithHead(parts: seq<string>, d: string)
    requires |parts| >= 1
    ensures |parts[0]| <= |Join(parts, d)| && Join(parts, d)[..|parts[0]|] == parts[0]
  {
    if |parts| > 1 {
      assert Join(parts, d) == parts[0] + (d + Join(parts[1..], d));
    }
  }

  /** A string with no occurrence of the delimiter is a single piece. */
  lemma {:induction false} SplitRawNoOccurrence(s: string, d: string)
    requires d != "" && !Occurs(d, s)
    ensures SplitRaw(s, d) == [s]
    decreases |s|
  {
    if |s| >= |d| {
      assert s[..|d|] != d;
      SplitRawNoOccurrence(s[1..], d);
      assert [s[0]] + s[1..] == s;
    }
  }

  /** Splitting `d + t` yields an empty leading piece, then the pieces of `t`. */
  lemma SplitRawDelimiterFirst(d: string, t: string)
    requires d != ""
    ensures SplitRaw(d + t, d) == [""] + SplitRaw(t, d)
  {
    assert (d + t)[..|d|] == d;
    assert (d + t)[|d|..] == t;
  }

  /** A prefix holding no copy of the delimiter's first character joins the first piece. */
  lemma {:induction false} SplitRawPlainPrefix(x: string, t: string, d: string)
    requires d != ""
    requires forall i :: 0 <= i < |x| ==> x[i] != d[0]
    ensures SplitRaw(x + t, d) == [x + SplitRaw(t, d)[0]] + SplitRaw(t, d)[1..]
    decreases |x|
  {
    if |x| > 0 {
      var s := x + t;
      assert s[0] == x[0] != d[0];
      assert s[1..] == x[1..] + t;
      SplitRawPlainPrefix(x[1..], t, d);
      if |s| >= |d| {
        assert s[..|d|] != d;
      } else {
        // the delimiter is longer than x + t, so t is shorter than d and is a single piece
        SplitRawNoOccurrence(t, d);
        SplitRawNoOccurrence(s, d);
      }
      assert [x[0]] + (x[1..] + SplitRaw(t, d)[0]) == x + SplitRaw(t, d)[0];
    } else {
      var parts := SplitRaw(t, d);
      assert x + t == t && x + parts[0] == parts[0];
      assert [parts[0]] + parts[1..] == parts;
    }
  }

  /** `d` occurs in `s` starting at position `p`. */
  predicate OccursAt(d: string, s: string, p: nat)
  {
    p + |d| <= |s| && s[p..p + |d|] == d
  }

  /** An occurrence at some position is an occurrence. */
  lemma {:induction false} OccursAtOccurs(d: string, s: string, p: nat)
    requires OccursAt(d, s, p)
    ensures Occurs(d, s)
    decreases p
  {
    if p > 0 && s[..|d|] != d {
      assert s[1..][p - 1..p - 1 + |d|] == s[p..p + |d|];
      OccursAtOccurs(d, s[1..], p - 1);
    }
  }

  /** A prefix in which no occurrence of the delimiter starts joins the first piece. */
  lemma {:induction false} SplitRawLatePrefix(x: string, t: string, d: string)
    requires d != ""
    requires forall p :: 0 <= p < |x| ==> !OccursAt(d, x + t, p)
    ensures SplitRaw(x + t, d) == [x + SplitRaw(t, d)[0]] + SplitRaw(t, d)[1..]
    decreases |x|
  {
    if |x| > 0 {
      var s := x + t;
      assert s[1..] == x[1..] + t;
      forall p | 0 <= p < |x| - 1
        ensures !OccursAt(d, x[1..] + t, p)
      {
        if p + |d| <= |s| - 1 {
          assert (x[1..] + t)[p..p + |d|] == s[p + 1..p + 1 + |d|];
        }
        assert !OccursAt(d, s, p + 1);
      }
      SplitRawLatePrefix(x[1..], t, d);
      if |s| >= |d| {
        assert !OccursAt(d, s, 0);
      } else {
        SplitRawNoOccurrence(t, d);
        SplitRawNoOccurrence(s, d);
      }
      assert [x[0]] + (x[1..] + SplitRaw(t, d)[0]) == x + SplitRaw(t, d)[0];
    } else {
      var parts := SplitRaw(t, d);
      assert x + t == t && x + parts[0] == parts[0];
      assert [parts[0]] + parts[1..] == parts;
    }
  }

  /** When the delimiter's first character does not recur in it, following a string free of it
      by the delimiter creates no occurrence before that copy, whatever comes after it. */
  lemma FirstOccurrenceAppended(x: string, d: string, t: string)
    requires d != "" && !Occurs(d, x)
    requires forall k :: 1 <= k < |d| ==> d[k] != d[0]
    ensures forall p :: 0 <= p < |x| ==> !OccursAt(d, x + (d + t), p)
  {
    var s := x + (d + t);
    forall p | 0 <= p < |x|
      ensures !OccursAt(d, s, p)
    {
      if p + |d| <= |x| {
        assert x[p..p + |d|] == s[p..p + |d|];
        if OccursAt(d, s, p) {
          OccursAtOccurs(d, x, p);
        }
      } else {
        // the copy would straddle the end of x, putting the appended d[0] at a later index of d
        var k := |x| - p;
        assert s[p..p + |d|][k] == d[0] != d[k];
      }
    }
  }

  /** A delimiter holding a character the string lacks cannot occur in it. */
  lemma {:induction false} NoOccurrenceOfMissingChar(d: string, s: string, j: nat)
    requires j < |d|
    requires forall i :: 0 <= i < |s| ==> s[i] != d[j]
    ensures !Occurs(d, s)
    decreases |s|
  {
    if |s| >= |d| {
      assert s[..|d|][j] == s[j];
      if |s| > 0 {
        NoOccurrenceOfMissingChar(d, s[1..], j);
      }
    }
  }

  /** A string begins with an occurrence of itself. */
  lemma OccursAtStart(d: string, t: string)
    ensures Occurs(d, d + t)
  {
    assert (d + t)[..|d|] == d;
  }

  // ---------------------------------------------------------------------------
  // Properties of Java's split

  /** Java's split returns the input itself exactly when the delimiter does not occur. */
  lemma SplitWithoutDelimiter(s: string, d: string)
    requires d != "" && !Occurs(d, s)
    ensures Split(s, d) == [s]
  {
  }

  /** Join of pieces that contain no delimiter, split again, gives the pieces back (first and last non-empty). */
  lemma {:induction false} SplitJoinPlain(parts: seq<string>, d: string)
    requires d != "" && |parts| >= 1
    requires forall k, i :: 0 <= k < |parts| && 0 <= i < |parts[k]| ==> parts[k][i] != d[0]
    ensures SplitRaw(Join(parts, d), d) == parts
    decreases |parts|
  {
    if |parts| == 1 {
      SplitRawPlainPrefix(parts[0], "", d);
      assert parts[0] + "" == parts[0];
      assert SplitRaw("", d) == [""];
    } else {
      var tail := Join(parts[1..], d);
      SplitJoinPlain(parts[1..], d);
      SplitRawDelimiterFirst(d, tail);
      assert Join(parts, d) == parts[0] + (d + tail);
      SplitRawPlainPrefix(parts[0], d + tail, d);
      assert SplitRaw(d + tail, d) == [""] + parts[1..];
      assert parts[0] + "" == parts[0];
    }
  }
}
