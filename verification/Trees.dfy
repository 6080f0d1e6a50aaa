/** What a block store says about the tree below a block.

    There is no tree value: everything is read off the store, by recursion on
    the height of a block (leaves have height 0), so equal leaf depth is part
    of what it means to be a node.  In-order contents are sequences, block
    ownership is a multiset, and both are additive over the children, which is
    what makes one lemma (Window) enough for every restructuring step. */
module Trees {
  import opened Constants
  import opened Blocks
  import opened Seqs

  type Store = map<int, Block>

  /** In-order entries below block b. */
  ghost function Ents(s: Store, b: int, h: nat): seq<Entry>
    decreases h, 1, 0
  {
    if b !in s then [] else Between(s, Keys(s[b]), Links(s[b]), h)
  }

  /** In-order entries of a run of keys with the children around them. */
  ghost function Between(s: Store, ks: seq<Entry>, ls: seq<int>, h: nat): seq<Entry>
    requires |ls| == |ks| + 1
    decreases h, 0, |ks|
  {
    if h == 0 then ks
    else if |ks| == 0 then Ents(s, ls[0], h - 1)
    else Between(s, ks[..|ks| - 1], ls[..|ks|], h) + [ks[|ks| - 1]] + Ents(s, ls[|ks|], h - 1)
  }

  /** Blocks of the tree below block b, b included, with multiplicity. */
  ghost function Blks(s: Store, b: int, h: nat): multiset<int>
    decreases h, 0, 0
  {
    multiset{b} + if b in s && h > 0 then BlksOf(s, Links(s[b]), h - 1) else multiset{}
  }

  ghost function BlksOf(s: Store, ls: seq<int>, h: nat): multiset<int>
    decreases h, 1, |ls|
  {
    if |ls| == 0 then multiset{}
    else BlksOf(s, ls[..|ls| - 1], h) + Blks(s, ls[|ls| - 1], h)
  }

  ghost predicate NullLinks(b: Block) {
    forall j :: 0 <= j < |Links(b)| ==> Links(b)[j] == ZNULL
  }

  lemma NullAll(b: Block)
    requires NullLinks(b)
    ensures forall j :: 0 <= j < |Links(b)| ==> Links(b)[j] == ZNULL
  {
  }

  /** A node of height h: key count in range, links of a leaf with keys all null,
      and every block below the top one an in-use block with at least one key. */
  ghost predicate NodeOK(s: Store, b: int, h: nat)
    decreases h, 0
  {
    && b in s && 0 <= b
    && 0 <= s[b].nkeys <= ZMXKEY
    && if h == 0 then s[b].nkeys > 0 ==> NullLinks(s[b])
       else KidsOK(s, Links(s[b]), h - 1)
  }

  ghost predicate KidOK(s: Store, b: int, h: nat)
    decreases h, 1
  {
    NodeOK(s, b, h) && s[b].nkeys >= 1 && s[b].btype == ZINUSE
  }

  ghost predicate KidsOK(s: Store, ls: seq<int>, h: nat)
    decreases h, 2
  {
    forall i :: 0 <= i < |ls| ==> KidOK(s, ls[i], h)
  }

  ghost predicate Unique(m: multiset<int>) {
    forall x :: m[x] <= 1
  }

  ghost predicate TreeOK(s: Store, root: int, H: nat) {
    && NodeOK(s, root, H)
    && s[root].btype == ZROOT
    && (H > 0 ==> s[root].nkeys >= 1)
    && Unique(Blks(s, root, H))
  }

  /** The two stores hold the same thing at every block of m. */
  ghost predicate Same(s: Store, s': Store, m: multiset<int>) {
    forall x :: x in m ==> (x in s <==> x in s') && (x in s ==> s'[x] == s[x])
  }

  // ---------------------------------------------------------------------
  // One unfolding, for proofs that hide the definitions
  // ---------------------------------------------------------------------

  lemma EntsNode(s: Store, b: int, h: nat)
    requires b in s
    ensures Ents(s, b, h) == Between(s, Keys(s[b]), Links(s[b]), h)
    ensures h == 0 ==> Ents(s, b, h) == Keys(s[b])
  {
  }

  lemma BlksNode(s: Store, b: int, h: nat)
    requires b in s
    ensures h > 0 ==> Blks(s, b, h) == multiset{b} + BlksOf(s, Links(s[b]), h - 1)
    ensures h == 0 ==> Blks(s, b, h) == multiset{b}
    ensures b in Blks(s, b, h)
  {
  }

  lemma NodeKids(s: Store, b: int, h: nat)
    requires NodeOK(s, b, h)
    ensures b in s && 0 <= b && 0 <= s[b].nkeys <= ZMXKEY && Count(s[b]) == s[b].nkeys
    ensures h > 0 ==> KidsOK(s, Links(s[b]), h - 1)
    ensures h == 0 && s[b].nkeys > 0 ==> NullLinks(s[b])
  {
  }

  lemma MakeNode(s: Store, b: int, h: nat)
    requires b in s && 0 <= b && 0 <= s[b].nkeys <= ZMXKEY
    requires h > 0 ==> KidsOK(s, Links(s[b]), h - 1)
    requires h == 0 && s[b].nkeys > 0 ==> NullLinks(s[b])
    ensures NodeOK(s, b, h)
  {
  }

  lemma KidType(s: Store, b: int, h: nat)
    requires KidOK(s, b, h)
    ensures NodeOK(s, b, h) && s[b].nkeys >= 1 && s[b].btype == ZINUSE
  {
  }

  lemma MakeKid(s: Store, b: int, h: nat)
    requires NodeOK(s, b, h) && s[b].nkeys >= 1 && s[b].btype == ZINUSE
    ensures KidOK(s, b, h)
  {
  }

  // ---------------------------------------------------------------------
  // Additivity
  // ---------------------------------------------------------------------

  lemma {:induction false} BetweenConcat(s: Store, k1: seq<Entry>, l1: seq<int>, m: Entry,
                                         k2: seq<Entry>, l2: seq<int>, h: nat)
    requires |l1| == |k1| + 1 && |l2| == |k2| + 1
    ensures Between(s, k1 + [m] + k2, l1 + l2, h) == Between(s, k1, l1, h) + [m] + Between(s, k2, l2, h)
    decreases |k2|
  {
    hide Between, Ents;
    var k, l := k1 + [m] + k2, l1 + l2;
    if h == 0 {
      BetweenZero(s, k, l);
      BetweenZero(s, k1, l1);
      BetweenZero(s, k2, l2);
    } else {
      BetweenLast(s, k, l, h);
      if |k2| == 0 {
        BetweenSingle(s, k2, l2, h);
        assert k[..|k| - 1] == k1 && l[..|k|] == l1;
      } else {
        var n := |k2| - 1;
        BetweenLast(s, k2, l2, h);
        BetweenConcat(s, k1, l1, m, k2[..n], l2[..n + 1], h);
        assert k[..|k| - 1] == k1 + [m] + k2[..n] && l[..|k|] == l1 + l2[..n + 1];
        assert k[|k| - 1] == k2[n] && l[|k|] == l2[n + 1];
        Regroup(Between(s, k1, l1, h) + [m], Between(s, k2[..n], l2[..n + 1], h), [k2[n]], Ents(s, l2[n + 1], h - 1));
      }
    }
  }

  lemma BetweenZero(s: Store, ks: seq<Entry>, ls: seq<int>)
    requires |ls| == |ks| + 1
    ensures Between(s, ks, ls, 0) == ks
  {
  }

  lemma BetweenSingle(s: Store, ks: seq<Entry>, ls: seq<int>, h: nat)
    requires |ks| == 0 && |ls| == 1 && h > 0
    ensures Between(s, ks, ls, h) == Ents(s, ls[0], h - 1)
  {
  }

  lemma BetweenOne(s: Store, b: int, h: nat)
    requires h > 0
    ensures Between(s, [], [b], h) == Ents(s, b, h - 1)
  {
  }

  lemma BetweenLast(s: Store, ks: seq<Entry>, ls: seq<int>, h: nat)
    requires |ls| == |ks| + 1 && |ks| > 0 && h > 0
    ensures var n := |ks| - 1;
            Between(s, ks, ls, h) == Between(s, ks[..n], ls[..n + 1], h) + [ks[n]] + Ents(s, ls[n + 1], h - 1)
  {
  }

  lemma Regroup(a: seq<Entry>, b: seq<Entry>, c: seq<Entry>, d: seq<Entry>)
    ensures a + b + c + d == a + (b + c + d)
  {
  }

  lemma {:induction false} BlksConcat(s: Store, l1: seq<int>, l2: seq<int>, h: nat)
    ensures BlksOf(s, l1 + l2, h) == BlksOf(s, l1, h) + BlksOf(s, l2, h)
    decreases |l2|
  {
    if |l2| == 0 {
      assert l1 + l2 == l1;
    } else {
      BlksConcat(s, l1, l2[..|l2| - 1], h);
      assert (l1 + l2)[..|l1 + l2| - 1] == l1 + l2[..|l2| - 1];
    }
  }

  lemma BlksOne(s: Store, b: int, h: nat)
    ensures BlksOf(s, [b], h) == Blks(s, b, h)
  {
    assert [b][..0] == [];
  }

  lemma KidsTwo(s: Store, m: Entry, a: int, b: int, h: nat)
    ensures Between(s, [m], [a, b], h + 1) == Ents(s, a, h) + [m] + Ents(s, b, h)
    ensures BlksOf(s, [a, b], h) == Blks(s, a, h) + Blks(s, b, h)
    ensures KidOK(s, a, h) && KidOK(s, b, h) ==> KidsOK(s, [a, b], h)
  {
    hide Ents, Blks, KidOK;
    BlksOne(s, a, h);
    assert [m][..0] == [] && [a, b][..1] == [a];
  }

  lemma {:induction false} BlksIn(s: Store, ls: seq<int>, h: nat, i: nat)
    requires i < |ls|
    ensures Blks(s, ls[i], h) <= BlksOf(s, ls, h)
    decreases |ls|
  {
    if i < |ls| - 1 {
      BlksIn(s, ls[..|ls| - 1], h, i);
    }
  }

  // ---------------------------------------------------------------------
  // Frames
  // ---------------------------------------------------------------------

  lemma {:induction false} FrameNode(s: Store, s': Store, b: int, h: nat)
    requires Same(s, s', Blks(s, b, h))
    ensures Ents(s', b, h) == Ents(s, b, h)
    ensures Blks(s', b, h) == Blks(s, b, h)
    ensures NodeOK(s, b, h) ==> NodeOK(s', b, h)
    decreases h, 1, 0
  {
    assert b in Blks(s, b, h);
    if b in s && h > 0 {
      assert BlksOf(s, Links(s[b]), h - 1) <= Blks(s, b, h);
      FrameOf(s, s', Keys(s[b]), Links(s[b]), h);
    }
  }

  lemma {:induction false} FrameOf(s: Store, s': Store, ks: seq<Entry>, ls: seq<int>, h: nat)
    requires |ls| == |ks| + 1
    requires h > 0 && Same(s, s', BlksOf(s, ls, h - 1))
    ensures Between(s', ks, ls, h) == Between(s, ks, ls, h)
    ensures BlksOf(s', ls, h - 1) == BlksOf(s, ls, h - 1)
    ensures KidsOK(s, ls, h - 1) ==> KidsOK(s', ls, h - 1)
    decreases h, 0, |ls|
  {
    FrameBlks(s, s', ls, h - 1);
    forall i | 0 <= i < |ls|
      ensures Ents(s', ls[i], h - 1) == Ents(s, ls[i], h - 1)
      ensures KidOK(s, ls[i], h - 1) ==> KidOK(s', ls[i], h - 1)
    {
      FrameAt(s, s', ls, h - 1, i);
    }
    BetweenCong(s, s', ks, ls, h);
  }

  lemma {:induction false} FrameAt(s: Store, s': Store, ls: seq<int>, h: nat, i: nat)
    requires i < |ls| && Same(s, s', BlksOf(s, ls, h))
    ensures Ents(s', ls[i], h) == Ents(s, ls[i], h)
    ensures KidOK(s, ls[i], h) ==> KidOK(s', ls[i], h)
    decreases h, 2, 0
  {
    BlksIn(s, ls, h, i);
    assert ls[i] in Blks(s, ls[i], h);
    FrameNode(s, s', ls[i], h);
  }

  lemma {:induction false} FrameBlks(s: Store, s': Store, ls: seq<int>, h: nat)
    requires Same(s, s', BlksOf(s, ls, h))
    ensures BlksOf(s', ls, h) == BlksOf(s, ls, h)
    decreases h, 2, |ls|
  {
    if |ls| > 0 {
      FrameBlks(s, s', ls[..|ls| - 1], h);
      FrameNode(s, s', ls[|ls| - 1], h);
    }
  }

  lemma {:induction false} BetweenCong(s: Store, s': Store, ks: seq<Entry>, ls: seq<int>, h: nat)
    requires |ls| == |ks| + 1 && h > 0
    requires forall i :: 0 <= i < |ls| ==> Ents(s', ls[i], h - 1) == Ents(s, ls[i], h - 1)
    ensures Between(s', ks, ls, h) == Between(s, ks, ls, h)
    decreases |ks|
  {
    if |ks| > 0 {
      BetweenCong(s, s', ks[..|ks| - 1], ls[..|ks|], h);
    }
  }

  // ---------------------------------------------------------------------
  // One node seen around a window of its children
  // ---------------------------------------------------------------------

  /** Entries of a node left of a window: the keys ka with a child before each. */
  ghost function PreOf(s: Store, ka: seq<Entry>, la: seq<int>, h: nat): seq<Entry>
    requires |la| == |ka|
  {
    if |ka| == 0 then [] else Between(s, ka[..|ka| - 1], la, h) + [ka[|ka| - 1]]
  }

  /** Entries of a node right of a window: the keys kb with a child after each. */
  ghost function SufOf(s: Store, kb: seq<Entry>, lb: seq<int>, h: nat): seq<Entry>
    requires |lb| == |kb|
  {
    if |kb| == 0 then [] else [kb[0]] + Between(s, kb[1..], lb, h)
  }

  /** A node around a window: left part, the window with its children, right part. */
  lemma Parts(s: Store, ka: seq<Entry>, la: seq<int>, wk: seq<Entry>, wl: seq<int>,
              kb: seq<Entry>, lb: seq<int>, h: nat)
    requires |la| == |ka| && |wl| == |wk| + 1 && |lb| == |kb|
    ensures Between(s, ka + wk + kb, la + wl + lb, h)
         == PreOf(s, ka, la, h) + Between(s, wk, wl, h) + SufOf(s, kb, lb, h)
  {
    hide Between;
    PartsRight(s, wk, wl, kb, lb, h);
    Assoc(ka, wk, kb);
    Assoc(la, wl, lb);
    PartsLeft(s, ka, la, wk + kb, wl + lb, h);
    Assoc(PreOf(s, ka, la, h), Between(s, wk, wl, h), SufOf(s, kb, lb, h));
  }

  lemma PartsLeft(s: Store, ka: seq<Entry>, la: seq<int>, kr: seq<Entry>, lr: seq<int>, h: nat)
    requires |la| == |ka| && |lr| == |kr| + 1
    ensures Between(s, ka + kr, la + lr, h) == PreOf(s, ka, la, h) + Between(s, kr, lr, h)
  {
    hide Between;
    if |ka| == 0 {
      Unit(kr);
      Unit(lr);
      Unit(Between(s, kr, lr, h));
      assert ka == [] && la == [];
    } else {
      var m := ka[|ka| - 1];
      BetweenConcat(s, ka[..|ka| - 1], la, m, kr, lr, h);
      Unlast(ka);
    }
  }

  lemma PartsRight(s: Store, wk: seq<Entry>, wl: seq<int>, kb: seq<Entry>, lb: seq<int>, h: nat)
    requires |wl| == |wk| + 1 && |lb| == |kb|
    ensures Between(s, wk + kb, wl + lb, h) == Between(s, wk, wl, h) + SufOf(s, kb, lb, h)
  {
    hide Between;
    if |kb| == 0 {
      Unit(wk);
      Unit(wl);
      Unit(Between(s, wk, wl, h));
      assert kb == [] && lb == [];
    } else {
      BetweenConcat(s, wk, wl, kb[0], kb[1..], lb, h);
      Unfirst(kb);
      Assoc(wk, [kb[0]], kb[1..]);
      Assoc(Between(s, wk, wl, h), [kb[0]], Between(s, kb[1..], lb, h));
    }
  }

  lemma BlksParts(s: Store, la: seq<int>, wl: seq<int>, lb: seq<int>, h: nat)
    ensures BlksOf(s, la + wl + lb, h) == BlksOf(s, la, h) + BlksOf(s, wl, h) + BlksOf(s, lb, h)
  {
    hide *;
    BlksConcat(s, la, wl, h);
    BlksConcat(s, la + wl, lb, h);
  }

  lemma PreFrame(s: Store, s': Store, ka: seq<Entry>, la: seq<int>, h: nat)
    requires |la| == |ka| && h > 0 && Same(s, s', BlksOf(s, la, h - 1))
    ensures PreOf(s', ka, la, h) == PreOf(s, ka, la, h)
  {
    if |ka| > 0 {
      FrameOf(s, s', ka[..|ka| - 1], la, h);
    }
  }

  lemma SufFrame(s: Store, s': Store, kb: seq<Entry>, lb: seq<int>, h: nat)
    requires |lb| == |kb| && h > 0 && Same(s, s', BlksOf(s, lb, h - 1))
    ensures SufOf(s', kb, lb, h) == SufOf(s, kb, lb, h)
  {
    if |kb| > 0 {
      FrameOf(s, s', kb[1..], lb, h);
    }
  }

  lemma KidsFrame(s: Store, s': Store, ls: seq<int>, h: nat)
    requires KidsOK(s, ls, h) && Same(s, s', BlksOf(s, ls, h))
    ensures KidsOK(s', ls, h)
  {
    forall k | 0 <= k < |ls|
      ensures KidOK(s', ls[k], h)
    {
      assert KidOK(s, ls[k], h);
      FrameAt(s, s', ls, h, k);
    }
  }

  lemma KidsParts(s: Store, la: seq<int>, wl: seq<int>, lb: seq<int>, h: nat)
    ensures KidsOK(s, la + wl + lb, h) <==> KidsOK(s, la, h) && KidsOK(s, wl, h) && KidsOK(s, lb, h)
  {
    hide KidOK;
    var ls := la + wl + lb;
    if KidsOK(s, ls, h) {
      assert forall i :: 0 <= i < |la| ==> la[i] == ls[i];
      assert forall i :: 0 <= i < |wl| ==> wl[i] == ls[|la| + i];
      assert forall i :: 0 <= i < |lb| ==> lb[i] == ls[|la| + |wl| + i];
    }
  }

  /** Replacing the window wl by wk', wl' and changing nothing below the other
      children: the node keeps what is left and right of the window. */
  lemma Window(s: Store, s': Store, ka: seq<Entry>, la: seq<int>, wl: seq<int>,
               wk': seq<Entry>, wl': seq<int>, kb: seq<Entry>, lb: seq<int>, h: nat)
    requires |la| == |ka| && |wl'| == |wk'| + 1 && |lb| == |kb| && h > 0
    requires Same(s, s', BlksOf(s, la, h - 1)) && Same(s, s', BlksOf(s, lb, h - 1))
    ensures Between(s', ka + wk' + kb, la + wl' + lb, h)
         == PreOf(s, ka, la, h) + Between(s', wk', wl', h) + SufOf(s, kb, lb, h)
    ensures KidsOK(s, la + wl + lb, h - 1) && KidsOK(s', wl', h - 1) ==> KidsOK(s', la + wl' + lb, h - 1)
    ensures BlksOf(s', la + wl' + lb, h - 1) + BlksOf(s, wl, h - 1)
         == BlksOf(s, la + wl + lb, h - 1) + BlksOf(s', wl', h - 1)
  {
    hide *;
    Parts(s', ka, la, wk', wl', kb, lb, h);
    PreFrame(s, s', ka, la, h);
    SufFrame(s, s', kb, lb, h);
    WindowBlks(s, s', la, wl, wl', lb, h - 1);
    if KidsOK(s, la + wl + lb, h - 1) && KidsOK(s', wl', h - 1) {
      KidsParts(s, la, wl, lb, h - 1);
      KidsFrame(s, s', la, h - 1);
      KidsFrame(s, s', lb, h - 1);
      KidsParts(s', la, wl', lb, h - 1);
    }
  }

  lemma WindowBlks(s: Store, s': Store, la: seq<int>, wl: seq<int>, wl': seq<int>, lb: seq<int>, h: nat)
    requires Same(s, s', BlksOf(s, la, h)) && Same(s, s', BlksOf(s, lb, h))
    ensures BlksOf(s', la + wl' + lb, h) + BlksOf(s, wl, h) == BlksOf(s, la + wl + lb, h) + BlksOf(s', wl', h)
  {
    hide *;
    BlksParts(s, la, wl, lb, h);
    BlksParts(s', la, wl', lb, h);
    FrameBlks(s, s', la, h);
    FrameBlks(s, s', lb, h);
  }
}
