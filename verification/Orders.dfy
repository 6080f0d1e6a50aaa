/** Key order in entry sequences, and the map a sorted sequence stands for. */
module Orders {
  import opened Blocks
  import opened Seqs
  import opened Trees

  ghost predicate Sorted(es: seq<Entry>) {
    forall i, j :: 0 <= i < j < |es| ==> es[i].key < es[j].key
  }

  ghost predicate Precedes(a: seq<Entry>, b: seq<Entry>) {
    forall i, j :: 0 <= i < |a| && 0 <= j < |b| ==> a[i].key < b[j].key
  }

  lemma SortedConcat(a: seq<Entry>, b: seq<Entry>)
    ensures Sorted(a + b) <==> Sorted(a) && Sorted(b) && Precedes(a, b)
  {
    var c := a + b;
    if Sorted(c) {
      assert forall i :: 0 <= i < |a| ==> a[i] == c[i];
      assert forall j :: 0 <= j < |b| ==> b[j] == c[|a| + j];
    }
  }

  /** Sorted a + b + c, piece by piece. */
  lemma SortedThree(a: seq<Entry>, b: seq<Entry>, c: seq<Entry>)
    ensures Sorted(a + b + c) <==>
            Sorted(a) && Sorted(b) && Sorted(c) && Precedes(a, b) && Precedes(b, c) && Precedes(a, c)
  {
    SortedConcat(a + b, c);
    SortedConcat(a, b);
    assert forall i :: 0 <= i < |a| ==> a[i] == (a + b)[i];
    assert forall j :: 0 <= j < |b| ==> b[j] == (a + b)[|a| + j];
  }

  /** An entry in the middle part of a sorted sequence. */
  lemma InMiddle(a: seq<Entry>, b: seq<Entry>, c: seq<Entry>, m: Entry)
    requires Sorted(a + b + c) && m in b
    ensures AllBelow(a, m.key) && AllAbove(c, m.key)
  {
    SortedThree(a, b, c);
  }

  lemma BelowConcat(a: seq<Entry>, b: seq<Entry>, k: int)
    ensures AllBelow(a + b, k) <==> AllBelow(a, k) && AllBelow(b, k)
    ensures AllAbove(a + b, k) <==> AllAbove(a, k) && AllAbove(b, k)
  {
    var c := a + b;
    assert forall i :: 0 <= i < |a| ==> a[i] == c[i];
    assert forall j :: 0 <= j < |b| ==> b[j] == c[|a| + j];
  }

  /** The keys of a node are among its entries, in order. */
  lemma {:induction false} KeysWithin(s: Store, ks: seq<Entry>, ls: seq<int>, h: nat, j: nat)
    requires |ls| == |ks| + 1 && j < |ks|
    ensures ks[j] in Between(s, ks, ls, h)
    decreases |ks|
  {
    if h > 0 && j < |ks| - 1 {
      KeysWithin(s, ks[..|ks| - 1], ls[..|ks|], h, j);
    }
  }

  lemma {:induction false} KeysSorted(s: Store, ks: seq<Entry>, ls: seq<int>, h: nat)
    requires |ls| == |ks| + 1 && Sorted(Between(s, ks, ls, h))
    ensures Sorted(ks)
    decreases |ks|
  {
    if h > 0 && |ks| > 0 {
      var n := |ks| - 1;
      var front := Between(s, ks[..n], ls[..n + 1], h);
      SortedThree(front, [ks[n]], Ents(s, ls[n + 1], h - 1));
      KeysSorted(s, ks[..n], ls[..n + 1], h);
      forall j | 0 <= j < n
        ensures ks[j].key < ks[n].key
      {
        KeysWithin(s, ks[..n], ls[..n + 1], h, j);
        assert ks[..n][j] == ks[j];
        var i :| 0 <= i < |front| && front[i] == ks[j];
        assert front[i].key < [ks[n]][0].key;
      }
      assert forall i, j :: 0 <= i < j < n ==> ks[..n][i].key < ks[..n][j].key;
    }
  }

  /** Left of a window everything is bounded by the last key there... */
  lemma PreBelow(s: Store, ka: seq<Entry>, la: seq<int>, h: nat, k: int)
    requires |la| == |ka| && Sorted(PreOf(s, ka, la, h)) && AllBelow(ka, k)
    ensures AllBelow(PreOf(s, ka, la, h), k)
  {
    if |ka| > 0 {
      var b := Between(s, ka[..|ka| - 1], la, h);
      SortedConcat(b, [ka[|ka| - 1]]);
      assert forall i :: 0 <= i < |b| ==> b[i].key < [ka[|ka| - 1]][0].key;
    }
  }

  /** ... and the keys are bounded when everything is. */
  lemma PreKeys(s: Store, ka: seq<Entry>, la: seq<int>, h: nat, k: int)
    requires |la| == |ka| && AllBelow(PreOf(s, ka, la, h), k)
    ensures AllBelow(ka, k)
  {
    forall j | 0 <= j < |ka|
      ensures ka[j] in PreOf(s, ka, la, h)
    {
      if j < |ka| - 1 {
        KeysWithin(s, ka[..|ka| - 1], la, h, j);
        assert ka[..|ka| - 1][j] == ka[j];
      }
    }
  }

  lemma SufAbove(s: Store, kb: seq<Entry>, lb: seq<int>, h: nat, k: int)
    requires |lb| == |kb| && Sorted(SufOf(s, kb, lb, h)) && AllAbove(kb, k)
    ensures AllAbove(SufOf(s, kb, lb, h), k)
  {
    if |kb| > 0 {
      var b := Between(s, kb[1..], lb, h);
      SortedConcat([kb[0]], b);
      assert forall i :: 0 <= i < |b| ==> [kb[0]][0].key < b[i].key;
    }
  }

  lemma SufKeys(s: Store, kb: seq<Entry>, lb: seq<int>, h: nat, k: int)
    requires |lb| == |kb| && AllAbove(SufOf(s, kb, lb, h), k)
    ensures AllAbove(kb, k)
  {
    forall j | 0 <= j < |kb|
      ensures kb[j] in SufOf(s, kb, lb, h)
    {
      if j > 0 {
        KeysWithin(s, kb[1..], lb, h, j - 1);
        assert kb[1..][j - 1] == kb[j];
      }
    }
  }

  // ---------------------------------------------------------------------
  // Maps
  // ---------------------------------------------------------------------

  /** The map an entry sequence stands for. */
  ghost function ToMap(es: seq<Entry>): map<int, int> {
    if |es| == 0 then map[]
    else ToMap(es[..|es| - 1])[es[|es| - 1].key := es[|es| - 1].val]
  }

  lemma {:induction false} ToMapKeys(es: seq<Entry>, k: int)
    ensures k in ToMap(es) <==> exists i :: 0 <= i < |es| && es[i].key == k
  {
    if |es| > 0 {
      var n := |es| - 1;
      ToMapKeys(es[..n], k);
      if i :| 0 <= i < |es| && es[i].key == k {
        assert i < n ==> es[..n][i].key == k;
      }
      if i :| 0 <= i < n && es[..n][i].key == k {
        assert es[i].key == k;
      }
    }
  }

  lemma {:induction false} ToMapAt(es: seq<Entry>, i: nat)
    requires i < |es| && Sorted(es)
    ensures es[i].key in ToMap(es) && ToMap(es)[es[i].key] == es[i].val
  {
    var n := |es| - 1;
    if i < n {
      ToMapAt(es[..n], i);
      assert es[..n][i] == es[i];
    }
  }

  /** A key in the gap between a and b is not in the map of a + b, and putting
      it there or taking it out changes the map at that key only. */
  lemma ToMapGap(a: seq<Entry>, e: Entry, b: seq<Entry>)
    requires Sorted(a + b) && AllBelow(a, e.key) && AllAbove(b, e.key)
    ensures Sorted(a + [e] + b)
    ensures e.key !in ToMap(a + b)
    ensures ToMap(a + [e] + b) == ToMap(a + b)[e.key := e.val]
    ensures ToMap(a + b) == map k | k in ToMap(a + [e] + b) && k != e.key :: ToMap(a + [e] + b)[k]
  {
    var c, d := a + b, a + [e] + b;
    SortedConcat(a, b);
    SortedThree(a, [e], b);
    forall i | 0 <= i < |c|
      ensures c[i].key != e.key && c[i] == d[if i < |a| then i else i + 1]
    {
    }
    ToMapKeys(c, e.key);
    assert d[|a|] == e;
    ToMapAt(d, |a|);
    forall k
      ensures k in ToMap(d) <==> k == e.key || k in ToMap(c)
      ensures k in ToMap(c) ==> ToMap(d)[k] == ToMap(c)[k]
    {
      GapKey(a, e, b, k);
    }
    assert ToMap(d) == ToMap(c)[e.key := e.val];
  }

  lemma GapKey(a: seq<Entry>, e: Entry, b: seq<Entry>, k: int)
    requires Sorted(a + b) && Sorted(a + [e] + b)
    ensures k in ToMap(a + [e] + b) <==> k == e.key || k in ToMap(a + b)
    ensures k in ToMap(a + b) ==> ToMap(a + [e] + b)[k] == ToMap(a + b)[k]
  {
    hide ToMap;
    var c, d := a + b, a + [e] + b;
    ToMapKeys(c, k);
    ToMapKeys(d, k);
    assert d[|a|] == e;
    if i :| 0 <= i < |c| && c[i].key == k {
      var j := if i < |a| then i else i + 1;
      assert d[j] == c[i];
      ToMapAt(c, i);
      ToMapAt(d, j);
    }
    if j :| 0 <= j < |d| && d[j].key == k && j != |a| {
      assert c[if j < |a| then j else j - 1] == d[j];
    }
  }

  /** The last entry holds the largest key. */
  lemma LastKey(es: seq<Entry>, k: int)
    requires |es| > 0 && Sorted(es) && k in ToMap(es)
    ensures k <= es[|es| - 1].key
  {
    ToMapKeys(es, k);
  }

  lemma FrontMap(es: seq<Entry>)
    requires |es| > 0 && Sorted(es)
    ensures es[|es| - 1].key !in ToMap(es[..|es| - 1])
    ensures ToMap(es) == ToMap(es[..|es| - 1])[es[|es| - 1].key := es[|es| - 1].val]
  {
    ToMapKeys(es[..|es| - 1], es[|es| - 1].key);
  }

  /** A sorted sequence is determined by its map. */
  lemma {:induction false} SortedUnique(a: seq<Entry>, b: seq<Entry>)
    requires Sorted(a) && Sorted(b) && ToMap(a) == ToMap(b)
    ensures a == b
    decreases |a|
  {
    if |a| == 0 {
      if |b| > 0 {
        ToMapAt(b, 0);
      }
    } else {
      var n := |a| - 1;
      ToMapAt(a, n);
      ToMapKeys(b, a[n].key);
      var k := |b| - 1;
      ToMapAt(b, k);
      LastKey(a, b[k].key);
      LastKey(b, a[n].key);
      FrontMap(a);
      FrontMap(b);
      CutMaps(ToMap(a[..n]), ToMap(b[..k]), a[n].key, a[n].val);
      SortedUnique(a[..n], b[..k]);
      Unlast(a);
      Unlast(b);
    }
  }

  lemma CutMaps(m: map<int, int>, m': map<int, int>, k: int, v: int)
    requires k !in m && k !in m' && m[k := v] == m'[k := v]
    ensures m == m'
  {
    forall x
      ensures x in m <==> x in m'
      ensures x in m ==> m[x] == m'[x]
    {
      assert x in m[k := v] <==> x in m'[k := v];
      if x in m {
        assert m[k := v][x] == m'[k := v][x];
      }
    }
  }
}
