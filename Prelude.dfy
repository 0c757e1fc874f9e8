/** Shared vocabulary: byte strings, Python 2 integer division, repetition,
    prefixes and the lexicographic order Python uses to compare strings. */
module Prelude {

  /** One octet of a Python 2 byte string. */
  type byte = b: int | 0 <= b < 256

  datatype Option<+T> = None | Some(value: T)

  datatype Result<+T, +E> = Ok(value: T) | Err(error: E)

  /** Value of a nullable column, or `d` when it is NULL (`x or d`, `x if x is not None else d`). */
  function GetOr(o: Option<int>, d: int): int
  {
    if o.Some? then o.value else d
  }

  function Max(a: int, b: int): int
  {
    if a < b then b else a
  }

  function Min(a: int, b: int): int
  {
    if a < b then a else b
  }

  /** Python 2 `a / b` on integers: the quotient rounded toward negative
      infinity, which differs from Dafny's Euclidean `/` for a negative divisor. */
  function FloorDiv(a: int, b: int): (q: int)
    requires b != 0
    ensures b > 0 ==> b * q <= a < b * q + b
    ensures b < 0 ==> b * q >= a > b * q + b
  {
    if b > 0 then a / b else (-a) / (-b)
  }

  /** The length of the leading run of `c` in `s`. */
  function LeadingRun(s: string, c: char): (n: nat)
    ensures n <= |s|
    ensures forall i :: 0 <= i < n ==> s[i] == c
    ensures n < |s| ==> s[n] != c
  {
    if s != [] && s[0] == c then 1 + LeadingRun(s[1..], c) else 0
  }

  /** `[x] * n`, or `c * n` for a one-character string. */
  function Repeat<T>(x: T, n: nat): (r: seq<T>)
    ensures |r| == n
    ensures forall i :: 0 <= i < n ==> r[i] == x
  {
    if n == 0 then [] else Repeat(x, n - 1) + [x]
  }

  /** Python `s.startswith(p)`. */
  predicate StartsWith<T(==)>(s: seq<T>, p: seq<T>)
  {
    |p| <= |s| && s[..|p|] == p
  }

  /** Python slicing `s[i:j]` with `0 <= i`, which clamps both ends to the length. */
  function Slice<T>(s: seq<T>, i: nat, j: nat): (r: seq<T>)
    ensures |r| == if i <= j && i <= |s| then Min(j, |s|) - i else 0
  {
    if i <= j && i <= |s| then s[i..Min(j, |s|)] else []
  }

  /** Python's `a <= b` on byte strings: lexicographic on the codes, a proper
      prefix coming first. */
  predicate LexLe(a: seq<int>, b: seq<int>)
  {
    a == [] || (b != [] && (a[0] < b[0] || (a[0] == b[0] && LexLe(a[1..], b[1..]))))
  }

  /** The character codes of a string, the form in which Python 2 compares `str` values. */
  function Codes(s: string): (r: seq<int>)
    ensures |r| == |s|
    ensures forall i :: 0 <= i < |s| ==> r[i] == s[i] as int
  {
    if s == [] then [] else [s[0] as int] + Codes(s[1..])
  }

  /** Python's `a <= b` on `str`. */
  predicate StrLe(a: string, b: string)
  {
    LexLe(Codes(a), Codes(b))
  }

  /** Any two strings are comparable: the order is total. */
  lemma {:induction false} LexTotal(a: seq<int>, b: seq<int>)
    ensures LexLe(a, b) || LexLe(b, a)
  {
    if a != [] && b != [] && a[0] == b[0] {
      LexTotal(a[1..], b[1..]);
    }
  }

  /** The order is antisymmetric: mutual `<=` means equality. */
  lemma {:induction false} LexAntisymmetric(a: seq<int>, b: seq<int>)
    requires LexLe(a, b) && LexLe(b, a)
    ensures a == b
  {
    if a != [] && b != [] {
      LexAntisymmetric(a[1..], b[1..]);
      assert a == [a[0]] + a[1..];
      assert b == [b[0]] + b[1..];
    }
  }

  /** A common prefix does not change how two strings compare. */
  lemma {:induction false} LexCommonPrefix(c: seq<int>, a: seq<int>, b: seq<int>)
    ensures LexLe(c + a, c + b) <==> LexLe(a, b)
  {
    if c != [] {
      assert (c + a)[1..] == c[1..] + a;
      assert (c + b)[1..] == c[1..] + b;
      LexCommonPrefix(c[1..], a, b);
    } else {
      assert c + a == a && c + b == b;
    }
  }

  /** Two strings of equal length whose codes are pointwise ordered are ordered. */
  lemma {:induction false} LexPointwise(a: seq<int>, b: seq<int>)
    requires |a| == |b|
    requires forall i :: 0 <= i < |a| ==> a[i] <= b[i]
    ensures LexLe(a, b)
  {
    if a != [] {
      LexPointwise(a[1..], b[1..]);
    }
  }

  /** The first position where two strings differ decides their order. */
  lemma {:induction false} LexFirstDifference(a: seq<int>, b: seq<int>, i: nat)
    requires i < |a| && i < |b|
    requires a[..i] == b[..i] && a[i] < b[i]
    ensures LexLe(a, b) && !LexLe(b, a)
  {
    if i > 0 {
      assert a[0] == a[..i][0] && b[0] == b[..i][0];
      assert a[1..][..i - 1] == a[..i][1..];
      assert b[1..][..i - 1] == b[..i][1..];
      LexFirstDifference(a[1..], b[1..], i - 1);
    }
  }

  lemma CodesAppend(a: string, b: string)
    ensures Codes(a + b) == Codes(a) + Codes(b)
  {
    assert Codes(a + b) == Codes(a) + Codes(b);
  }

  /** A non-empty sequence is its front followed by its last element. */
  lemma LastSplit<T>(s: seq<T>)
    requires s != []
    ensures s == s[..|s| - 1] + [s[|s| - 1]]
  {
  }

  /** A prefix one longer ends in the next element. */
  lemma PrefixSnoc<T>(s: seq<T>, i: nat)
    requires i < |s|
    ensures s[..i + 1] == s[..i] + [s[i]]
  {
  }

  lemma AppendAssoc<T>(a: seq<T>, b: seq<T>, c: seq<T>)
    ensures a + (b + c) == (a + b) + c
  {
  }

  lemma AppendEmpty<T>(a: seq<T>)
    ensures a + [] == a && a[..|a|] == a
  {
  }

  /** No identifier occurs twice. */
  predicate Distinct(s: seq<int>)
  {
    forall i, j :: 0 <= i < j < |s| ==> s[i] != s[j]
  }

  /** The identifiers in the order of their first appearance, each once. */
  function FirstSeen(ids: seq<int>): (r: seq<int>)
    ensures forall x :: x in r <==> x in ids
    ensures Distinct(r)
  {
    if ids == [] then []
    else
      var p := FirstSeen(ids[..|ids| - 1]);
      if ids[|ids| - 1] in p then p else p + [ids[|ids| - 1]]
  }

  /** The position of the first occurrence of `x`. */
  function FirstIndex(ids: seq<int>, x: int): (k: nat)
    requires x in ids
    ensures k < |ids| && ids[k] == x && x !in ids[..k]
  {
    var p := ids[..|ids| - 1];
    if x in p then FirstIndex(p, x) else |ids| - 1
  }

  /** First-seen order: an identifier listed earlier first appeared earlier. */
  lemma {:induction false} FirstSeenOrder(ids: seq<int>, i: nat, j: nat)
    requires i < j < |FirstSeen(ids)|
    ensures FirstIndex(ids, FirstSeen(ids)[i]) < FirstIndex(ids, FirstSeen(ids)[j])
  {
    var p := ids[..|ids| - 1];
    var last := ids[|ids| - 1];
    var r := FirstSeen(ids);
    var q := FirstSeen(p);
    assert r[i] in q && r[i] in p;
    FirstIndexOfPrefix(ids, r[i]);
    if j < |q| {
      assert r[j] == q[j] && r[j] in p;
      FirstIndexOfPrefix(ids, r[j]);
      FirstSeenOrder(p, i, j);
    } else {
      assert r[j] == last && last !in p;
    }
  }

  lemma FirstIndexOfPrefix(ids: seq<int>, x: int)
    requires ids != [] && x in ids[..|ids| - 1]
    ensures FirstIndex(ids, x) == FirstIndex(ids[..|ids| - 1], x)
  {
  }
}
