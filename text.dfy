/**
  String splitting as Python's `str.split(sep)` does it for a one-character
  separator, together with its inverse `sep.join(parts)`.
*/
module Text {

  /** The number of positions of `s` that hold `c`. */
  function Occurrences(s: string, c: char): nat
    decreases |s|
  {
    if |s| == 0 then 0 else (if s[0] == c then 1 else 0) + Occurrences(s[1..], c)
  }

  /** `sep.join(parts)`: the parts with one separator between neighbours. */
  function JoinWith(parts: seq<string>, sep: char): (s: string)
    ensures |parts| == 1 ==> s == parts[0]
    decreases |parts|
  {
    if |parts| == 0 then ""
    else if |parts| == 1 then parts[0]
    else parts[0] + [sep] + JoinWith(parts[1..], sep)
  }

  /**
    `s.split(sep)`: the maximal separator-free pieces of `s`, empty pieces
    included, so there is always one piece more than there are separators
    and joining the pieces gives `s` back.
  */
  function SplitOn(s: string, sep: char): (parts: seq<string>)
    ensures |parts| == Occurrences(s, sep) + 1
    ensures forall k :: 0 <= k < |parts| ==> sep !in parts[k]
    ensures JoinWith(parts, sep) == s
    decreases |s|
  {
    if |s| == 0 then [""]
    else
      var rest := SplitOn(s[1..], sep);
      assert s == [s[0]] + s[1..];
      if s[0] == sep then
        assert JoinWith([""] + rest, sep) == [sep] + JoinWith(rest, sep) by {
          assert ([""] + rest)[1..] == rest;
        }
        [""] + rest
      else
        var parts := [[s[0]] + rest[0]] + rest[1..];
        assert JoinWith(parts, sep) == [s[0]] + JoinWith(rest, sep) by {
          assert parts[1..] == rest[1..];
        }
        parts
  }

  /** The first part opens the joined string, and a separator follows it when there are more. */
  lemma JoinWithHead(parts: seq<string>, sep: char)
    requires |parts| >= 1
    ensures parts[0] <= JoinWith(parts, sep)
    ensures |parts| == 1 ==> JoinWith(parts, sep) == parts[0]
    ensures |parts| > 1 ==>
      && |JoinWith(parts, sep)| > |parts[0]|
      && JoinWith(parts, sep)[|parts[0]|] == sep
      && JoinWith(parts, sep)[|parts[0]| + 1..] == JoinWith(parts[1..], sep)
  {
  }

  /** Joining separator-free pieces is injective. */
  lemma {:induction false} JoinWithInjective(p: seq<string>, q: seq<string>, sep: char)
    requires |p| >= 1 && |q| >= 1
    requires forall k :: 0 <= k < |p| ==> sep !in p[k]
    requires forall k :: 0 <= k < |q| ==> sep !in q[k]
    requires JoinWith(p, sep) == JoinWith(q, sep)
    ensures p == q
    decreases |p|
  {
    var s := JoinWith(p, sep);
    JoinWithHead(p, sep);
    JoinWithHead(q, sep);
    assert (|p| == 1) == (sep !in s);
    assert (|q| == 1) == (sep !in s);
    if |p| > 1 {
      assert |p[0]| == |q[0]|;
      assert p[0] == s[..|p[0]|] == q[0];
      JoinWithInjective(p[1..], q[1..], sep);
      assert p == [p[0]] + p[1..] && q == [q[0]] + q[1..];
    }
  }

  /** Splitting undoes joining whenever no piece contains the separator. */
  lemma SplitOnJoinWith(parts: seq<string>, sep: char)
    requires |parts| >= 1
    requires forall k :: 0 <= k < |parts| ==> sep !in parts[k]
    ensures SplitOn(JoinWith(parts, sep), sep) == parts
  {
    JoinWithInjective(SplitOn(JoinWith(parts, sep), sep), parts, sep);
  }
}
