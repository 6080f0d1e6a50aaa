/** Keys are C strings; the tree model orders them as numbers.  The rank of a
    string is the number its bytes spell in base 256, padded with zero bytes to
    the longest length a key can have; strcmp orders strings as their ranks. */
module Names {
  import opened Constants

  /** Bytes of a key in a block, with the terminating zero. */
  const ZKYLEN: nat := 32

  /** A C string without its terminator. */
  type Name = s: seq<int> | forall i :: 0 <= i < |s| ==> 1 <= s[i] <= 255

  /** The sign of strcmp, on unsigned bytes. */
  function StrCmp(a: Name, b: Name): int {
    if |a| == 0 && |b| == 0 then 0
    else if |a| == 0 then -1
    else if |b| == 0 then 1
    else if a[0] != b[0] then (if a[0] < b[0] then -1 else 1)
    else StrCmp(a[1..], b[1..])
  }

  /** Byte i of the string in memory: its terminator and what follows read as 0. */
  function ByteAt(a: Name, i: nat): (c: int)
    ensures 0 <= c <= 255 && (c == 0 <==> i >= |a|)
  {
    if i < |a| then a[i] else 0
  }

  /** What strncpy and the forced terminator keep of a key. */
  function Truncated(a: Name): (t: Name)
    ensures t <= a && |t| == if |a| < ZKYLEN - 1 then |a| else ZKYLEN - 1
  {
    if |a| < ZKYLEN then a else a[..ZKYLEN - 1]
  }

  /** The number that the first n bytes spell, with zeros after the end. */
  function Spelled(a: Name, n: nat): nat {
    if n == 0 then 0
    else if |a| == 0 then 0
    else a[0] * Power(n - 1) + Spelled(a[1..], n - 1)
  }

  function Rank(a: Name): nat {
    Spelled(a, ZKYLEN - 1)
  }

  lemma {:induction false} SpelledBound(a: Name, n: nat)
    ensures Spelled(a, n) < Power(n)
  {
    if n > 0 && |a| > 0 {
      SpelledBound(a[1..], n - 1);
      Carry(a[0], 255, Power(n - 1), Spelled(a[1..], n - 1));
    }
  }

  lemma Carry(d: int, m: int, p: int, r: int)
    requires 0 <= d <= m && 0 <= r < p
    ensures d * p + r < (m + 1) * p
  {
    assert d * p <= m * p;
  }

  /** A larger first byte decides. */
  lemma FirstByte(a: Name, b: Name, n: nat)
    requires n > 0 && |a| > 0 && |b| > 0 && a[0] < b[0]
    ensures Spelled(a, n) < Spelled(b, n)
  {
    SpelledBound(a[1..], n - 1);
    Carry(a[0], b[0] - 1, Power(n - 1), Spelled(a[1..], n - 1));
  }

  lemma EmptyFirst(b: Name, n: nat)
    requires n > 0 && |b| > 0
    ensures Spelled([], n) < Spelled(b, n)
  {
    assert b[0] * Power(n - 1) >= 1;
  }

  /** strcmp is the order of the numbers. */
  lemma {:induction false} SpelledOrder(a: Name, b: Name, n: nat)
    requires |a| <= n && |b| <= n
    ensures StrCmp(a, b) < 0 <==> Spelled(a, n) < Spelled(b, n)
    ensures StrCmp(a, b) == 0 <==> Spelled(a, n) == Spelled(b, n)
    ensures StrCmp(a, b) == 0 <==> a == b
  {
    if |a| == 0 && |b| == 0 {
    } else if |a| == 0 {
      EmptyFirst(b, n);
    } else if |b| == 0 {
      EmptyFirst(a, n);
    } else if a[0] < b[0] {
      FirstByte(a, b, n);
    } else if b[0] < a[0] {
      FirstByte(b, a, n);
    } else {
      SpelledOrder(a[1..], b[1..], n - 1);
      assert a == [a[0]] + a[1..] && b == [b[0]] + b[1..];
    }
  }

  /** On keys that fit into a block, strcmp is the order of the ranks, and only
      equal keys have the same rank.  So a search for a truncated name in a tree
      of names is the search for its rank in the tree of ranks. */
  lemma RankOrder(a: Name, b: Name)
    requires |a| < ZKYLEN && |b| < ZKYLEN
    ensures StrCmp(a, b) < 0 <==> Rank(a) < Rank(b)
    ensures StrCmp(a, b) == 0 <==> Rank(a) == Rank(b)
    ensures StrCmp(a, b) == 0 <==> a == b
  {
    SpelledOrder(a, b, ZKYLEN - 1);
  }

  /** The first byte in which two strings differ decides, the terminator being
      less than every other byte. */
  lemma {:induction false} FirstDifference(a: Name, b: Name, i: nat)
    requires i <= |a| && i <= |b| && a[..i] == b[..i] && ByteAt(a, i) < ByteAt(b, i)
    ensures StrCmp(a, b) < 0 && StrCmp(b, a) > 0
  {
    if i > 0 {
      assert a[0] == a[..i][0] == b[..i][0] == b[0];
      assert a[1..][..i - 1] == a[..i][1..] == b[..i][1..] == b[1..][..i - 1];
      FirstDifference(a[1..], b[1..], i - 1);
    }
  }

  /** Two names are the same key exactly when they agree in their first
      ZKYLEN - 1 bytes, terminators included. */
  lemma SameKey(a: Name, b: Name)
    ensures Rank(Truncated(a)) == Rank(Truncated(b)) <==> forall i :: 0 <= i < ZKYLEN - 1 ==> ByteAt(a, i) == ByteAt(b, i)
  {
    var ta, tb := Truncated(a), Truncated(b);
    RankOrder(ta, tb);
    if ta == tb {
      forall i | 0 <= i < ZKYLEN - 1
        ensures ByteAt(a, i) == ByteAt(b, i)
      {
        assert i < |ta| ==> a[i] == ta[i] == tb[i] == b[i];
      }
    } else if forall i :: 0 <= i < ZKYLEN - 1 ==> ByteAt(a, i) == ByteAt(b, i) {
      SameLength(a, b);
      assert forall i :: 0 <= i < |ta| ==> ta[i] == ByteAt(a, i) && tb[i] == ByteAt(b, i);
    }
  }

  lemma SameLength(a: Name, b: Name)
    requires forall i :: 0 <= i < ZKYLEN - 1 ==> ByteAt(a, i) == ByteAt(b, i)
    ensures |Truncated(a)| == |Truncated(b)|
  {
    var x, y := ByteAt(a, |b|), ByteAt(b, |a|);
    assert |a| < ZKYLEN - 1 ==> y == ByteAt(a, |a|);
    assert |b| < ZKYLEN - 1 ==> x == ByteAt(b, |b|);
  }

  /** The empty key, which bclrlf and btpos put into the context, comes first. */
  lemma EmptyKey(a: Name)
    ensures Rank([]) == 0 && (|a| > 0 ==> Rank([]) < Rank(a))
  {
    if |a| > 0 {
      EmptyFirst(a, ZKYLEN - 1);
    }
  }
}
