/**
 * Python's `sep.join(parts)` on strings, and the facts about where every part
 * and every separator lands in the joined string.
 */
module Text {

  /** `sep.join(parts)`: no separator before the first part nor after the last. */
  function Join(sep: string, parts: seq<string>): string
    decreases |parts|
  {
    if |parts| == 0 then ""
    else if |parts| == 1 then parts[0]
    else parts[0] + sep + Join(sep, parts[1..])
  }

  /** Sum of the lengths of the parts. */
  function TotalLength(parts: seq<string>): nat
  {
    if parts == [] then 0 else |parts[0]| + TotalLength(parts[1..])
  }

  /** Index in `Join(sep, parts)` at which `parts[k]` begins. */
  function Offset(sep: string, parts: seq<string>, k: nat): nat
    requires k <= |parts|
  {
    TotalLength(parts[..k]) + k * |sep|
  }

  /** `s` occurs somewhere inside `t`. */
  predicate Contains(t: string, s: string)
  {
    exists i :: 0 <= i <= |t| - |s| && t[i..][..|s|] == s
  }

  /** `s` is a prefix of `t`. */
  predicate StartsWith(t: string, s: string)
  {
    |s| <= |t| && t[..|s|] == s
  }

  /** `s` is a suffix of `t`. */
  predicate EndsWith(t: string, s: string)
  {
    |s| <= |t| && t[|t| - |s|..] == s
  }

  lemma {:induction false} TotalLengthAppend(a: seq<string>, b: seq<string>)
    ensures TotalLength(a + b) == TotalLength(a) + TotalLength(b)
    decreases |a|
  {
    if a != [] {
      assert (a + b)[1..] == a[1..] + b;
      TotalLengthAppend(a[1..], b);
    } else {
      assert a + b == b;
    }
  }

  /** Consecutive offsets are one part and one separator apart. */
  lemma OffsetNext(sep: string, parts: seq<string>, k: nat)
    requires k < |parts|
    ensures Offset(sep, parts, k + 1) == Offset(sep, parts, k) + |parts[k]| + |sep|
  {
    assert parts[..k + 1] == parts[..k] + [parts[k]];
    TotalLengthAppend(parts[..k], [parts[k]]);
    assert TotalLength([parts[k]]) == |parts[k]| + TotalLength([]);
  }

  /** The joined string is as long as all parts plus one separator between each neighbouring pair. */
  lemma {:induction false} JoinLength(sep: string, parts: seq<string>)
    requires parts != []
    ensures |Join(sep, parts)| == TotalLength(parts) + (|parts| - 1) * |sep|
    decreases |parts|
  {
    if |parts| > 1 {
      JoinLength(sep, parts[1..]);
    } else {
      assert parts[1..] == [];
    }
  }

  /**
   * `parts[k]` sits at `Offset(sep, parts, k)` in the joined string and, unless
   * it is the last part, is followed immediately by one separator.
   */
  lemma {:induction false} JoinPlacesPart(sep: string, parts: seq<string>, k: nat)
    requires k < |parts|
    ensures Offset(sep, parts, k) + |parts[k]| <= |Join(sep, parts)|
    ensures Join(sep, parts)[Offset(sep, parts, k)..][..|parts[k]|] == parts[k]
    ensures k + 1 < |parts| ==>
      Offset(sep, parts, k) + |parts[k]| + |sep| <= |Join(sep, parts)| &&
      Join(sep, parts)[Offset(sep, parts, k) + |parts[k]|..][..|sep|] == sep
    decreases |parts|
  {
    var j := Join(sep, parts);
    if k == 0 {
      assert parts[..0] == [];
      assert Offset(sep, parts, 0) == 0;
      if |parts| > 1 {
        assert j == parts[0] + sep + Join(sep, parts[1..]);
        assert j[..|parts[0]|] == parts[0];
        assert j[|parts[0]|..][..|sep|] == sep;
      }
    } else {
      var rest := parts[1..];
      var head := parts[0] + sep;
      assert j == head + Join(sep, rest);
      JoinPlacesPart(sep, rest, k - 1);
      assert parts[..k] == [parts[0]] + rest[..k - 1];
      TotalLengthAppend([parts[0]], rest[..k - 1]);
      assert TotalLength([parts[0]]) == |parts[0]| + TotalLength([]);
      assert k * |sep| == |sep| + (k - 1) * |sep|;
      assert Offset(sep, parts, k) == |head| + Offset(sep, rest, k - 1);
      assert j[Offset(sep, parts, k)..] == Join(sep, rest)[Offset(sep, rest, k - 1)..];
    }
  }

  /** Parts appear in list order: an earlier part ends, with its separator, before a later one begins. */
  lemma {:induction false} JoinKeepsOrder(sep: string, parts: seq<string>, i: nat, k: nat)
    requires i < k < |parts|
    ensures Offset(sep, parts, i) + |parts[i]| + |sep| <= Offset(sep, parts, k)
    decreases k - i
  {
    OffsetNext(sep, parts, i);
    if i + 1 < k {
      JoinKeepsOrder(sep, parts, i + 1, k);
    }
  }

  /** Every part of a join occurs inside it. */
  lemma JoinContainsPart(sep: string, parts: seq<string>, k: nat)
    requires k < |parts|
    ensures Contains(Join(sep, parts), parts[k])
  {
    JoinPlacesPart(sep, parts, k);
  }

  /** What occurs inside a string still occurs inside anything built around it. */
  lemma ContainsWithin(a: string, b: string, c: string, s: string)
    requires Contains(b, s)
    ensures Contains(a + b + c, s)
  {
    var i :| 0 <= i <= |b| - |s| && b[i..][..|s|] == s;
    assert (a + b + c)[|a| + i..][..|s|] == b[i..][..|s|];
  }

  /** A suffix occurs inside the string. */
  lemma EndsWithContains(t: string, s: string)
    requires EndsWith(t, s)
    ensures Contains(t, s)
  {
  }
}
