/** The route of a key: the blocks a search for it passes.

    Demoting a key may fill a block, and bdemte cannot cope with a full sister.
    What keeps such blocks from piling up is the search at the end of a delete:
    it splits every full block on the route of the deleted key, and this is
    where all blocks lie that the demotions filled. */
module Routes {
  import opened Constants
  import opened Blocks
  import opened Seqs
  import opened Trees
  import opened Paths
  import opened Orders
  import opened Split

  /** The child to follow for a key. */
  ghost function Towards(b: Block, k: int): int {
    Links(b)[PutPos(Keys(b), k)]
  }

  ghost function Route(s: Store, b: int, h: nat, k: int): set<int>
    decreases h
  {
    {b} + if h == 0 || b !in s then {} else Route(s, Towards(s[b], k), h - 1, k)
  }

  /** Every full non-leaf block of m is one of road. */
  ghost predicate FullOn(s: Store, m: multiset<int>, road: set<int>) {
    forall x :: x in m && x in s && s[x].link[0] != ZNULL && s[x].nkeys >= ZMXKEY ==> x in road
  }

  /** No block of road is full. */
  ghost predicate Open(s: Store, road: set<int>) {
    forall x :: x in road && x in s ==> s[x].nkeys < ZMXKEY
  }

  lemma RouteNode(s: Store, b: int, h: nat, k: int)
    requires b in s
    ensures h > 0 ==> Route(s, b, h, k) == {b} + Route(s, Towards(s[b], k), h - 1, k)
    ensures h == 0 ==> Route(s, b, h, k) == {b}
    ensures b in Route(s, b, h, k)
  {
  }

  lemma TowardsIs(b: Block, k: int)
    ensures |Links(b)| == |Keys(b)| + 1 && Towards(b, k) == Links(b)[PutPos(Keys(b), k)]
  {
  }

  lemma TowardsAt(b: Block, k: int, i: nat)
    requires i <= |Keys(b)| && AllBelow(Keys(b)[..i], k) && AllAbove(Keys(b)[i..], k)
    ensures |Links(b)| == |Keys(b)| + 1 && Towards(b, k) == Links(b)[i]
  {
    PutPosIs(Keys(b), k, i);
  }

  lemma {:induction false} RouteFrame(s: Store, s': Store, b: int, h: nat, k: int)
    requires Same(s, s', Blks(s, b, h)) && b in s
    requires NodeOK(s, b, h)
    ensures Route(s', b, h, k) == Route(s, b, h, k)
    decreases h
  {
    hide *;
    BlksNode(s, b, h);
    SameIn(s, s', Blks(s, b, h), b);
    RouteNode(s, b, h, k);
    RouteNode(s', b, h, k);
    if h > 0 {
      var ls, i := Links(s[b]), PutPos(Keys(s[b]), k);
      TowardsIs(s[b], k);
      BlksIn(s, ls, h - 1, i);
      NodeKids(s, b, h);
      KidIn(s, ls, h - 1, i);
      SameLess(s, s', Blks(s, ls[i], h - 1), Blks(s, b, h));
      RouteFrame(s, s', ls[i], h - 1, k);
    }
  }

  lemma SameIn(s: Store, s': Store, m: multiset<int>, x: int)
    requires Same(s, s', m) && x in m && x in s
    ensures x in s' && s'[x] == s[x]
  {
  }

  lemma SameLess(s: Store, s': Store, a: multiset<int>, m: multiset<int>)
    requires Same(s, s', m) && a <= m
    ensures Same(s, s', a)
  {
    forall x | x in a
      ensures x in m
    {
      assert a[x] <= m[x];
    }
  }

  lemma KidIn(s: Store, ls: seq<int>, h: nat, i: nat)
    requires KidsOK(s, ls, h) && i < |ls|
    ensures NodeOK(s, ls[i], h) && ls[i] in s
  {
    assert KidOK(s, ls[i], h);
    KidNode(s, ls[i], h);
    NodeKids(s, ls[i], h);
  }

  // ---------------------------------------------------------------------
  // Splits keep to the route
  // ---------------------------------------------------------------------

  lemma PutPosUnique(ks: seq<Entry>, k: int, i: nat)
    requires Sorted(ks) && i <= |ks| && (i < |ks| ==> k <= ks[i].key) && (i > 0 ==> ks[i - 1].key < k)
    ensures PutPos(ks, k) == i
  {
  }

  /** A position in a sorted run of keys, and in its two sides. */
  lemma PutPosHalves(ks: seq<Entry>, k: int, i: nat)
    requires Sorted(ks) && i < |ks|
    ensures var q := PutPos(ks, k);
            if k <= ks[i].key then q <= i && PutPos(ks[..i], k) == q
            else q > i && PutPos(ks[i + 1..], k) == q - i - 1
  {
    var q := PutPos(ks, k);
    if k <= ks[i].key {
      PutPosUnique(ks[..i], k, q);
    } else {
      PutPosUnique(ks[i + 1..], k, q - i - 1);
    }
  }

  /** The half that takes the key's side of a block takes its route. */
  lemma HalfRoute(s: Store, c: int, s': Store, a: int, b: int, i: nat, h: nat, k: int)
    requires NodeOK(s, c, h) && Halves(s, c, s', a, b, i) && Sorted(Keys(s[c])) && i < |Keys(s[c])|
    requires h > 0 ==> Same(s, s', BlksOf(s, Links(s[c]), h - 1))
    ensures var x := if k <= Keys(s[c])[i].key then a else b;
            Route(s', x, h, k) >= Route(s, c, h, k) - {c}
  {
    hide *;
    HalvesSlices(s, c, s', a, b, i);
    var ks, ls := Keys(s[c]), Links(s[c]);
    var x, q := if k <= ks[i].key then a else b, PutPos(ks, k);
    RouteNode(s, c, h, k);
    RouteNode(s', x, h, k);
    if h > 0 {
      TowardsIs(s[c], k);
      TowardsIs(s'[x], k);
      PutPosHalves(ks, k, i);
      HalvesAre(s, c, s', a, b, i);
      NodeKids(s, c, h);
      KidIn(s, ls, h - 1, q);
      BlksIn(s, ls, h - 1, q);
      SameLess(s, s', Blks(s, ls[q], h - 1), BlksOf(s, ls, h - 1));
      RouteFrame(s, s', ls[q], h - 1, k);
    }
  }

  lemma HalvesAre(s: Store, c: int, s': Store, a: int, b: int, i: nat)
    requires Halves(s, c, s', a, b, i)
    ensures c in s && a in s' && b in s' && i < |Keys(s[c])| && |Links(s[c])| == |Keys(s[c])| + 1
    ensures Keys(s'[a]) == Keys(s[c])[..i] && Links(s'[a]) == Links(s[c])[..i + 1]
    ensures Keys(s'[b]) == Keys(s[c])[i + 1..] && Links(s'[b]) == Links(s[c])[i + 1..]
  {
  }

  /** Seen from the parent, a split block's route goes through one of its halves. */
  lemma RouteSplit(s: Store, s': Store, f: Frame, hp: nat, n: int, k: int)
    requires hp > 0 && NodeOK(s, f.blk, hp) && 0 <= f.pos <= s[f.blk].nkeys && s[f.blk].nkeys > 0
    requires Unique(Blks(s, f.blk, hp)) && Sorted(Ents(s, f.blk, hp))
    requires SplitResult(s, s', f.blk, Child(s, f), n) && n !in Blks(s, f.blk, hp)
    requires |Keys(s[f.blk])| == s[f.blk].nkeys
    requires AllBelow(Keys(s[f.blk])[..f.pos], k) && AllAbove(Keys(s[f.blk])[f.pos..], k)
    ensures Route(s', f.blk, hp, k) >= {f.blk} + (Route(s, Child(s, f), hp - 1, k) - {Child(s, f)})
  {
    hide *;
    var p, c, pos, i := f.blk, Child(s, f), f.pos, ZMXKEY / 2;
    SplitOpen(s, s', p, c, n);
    NodeKids(s, p, hp);
    NodeChildOK(s, f, hp);
    KidNode(s, c, hp - 1);
    NodeKids(s, c, hp - 1);
    LiveCounts(s[p]);
    ChildOf(s, f);
    NodeParts(s, f, hp);
    SortedThree(PreAt(s, f, hp), Ents(s, c, hp - 1), SufAt(s, f, hp));
    EntsNode(s, c, hp - 1);
    LiveCounts(s[c]);
    KeysSorted(s, Keys(s[c]), Links(s[c]), hp - 1);
    HalvesSlices(s, c, s', c, n, i);
    if hp > 1 {
      BlksNode(s, c, hp - 1);
      SameExcept(s, s', p, hp, Blks(s, p, hp), p, c, n, BlksOf(s, Links(s[c]), hp - 2), multiset{p} + multiset{c});
    }
    HalfRoute(s, c, s', c, n, i, hp - 1, k);
    PromotedFits(s, f, hp, i);
    PutPromoted(s[p], Keys(s[c])[i], pos, c, n);
    RouteNode(s', p, hp, k);
    PromotedTowards(s'[p], Keys(s[p]), Links(s[p]), pos, Keys(s[c])[i], c, n, k);
  }

  lemma SplitOpen(s: Store, s': Store, p: int, c: int, n: int)
    requires SplitResult(s, s', p, c, n)
    ensures p in s && c in s && p in s' && c in s' && n in s' && 0 <= n
    ensures s[c].nkeys == ZMXKEY && 0 <= s[p].nkeys < ZMXKEY
    ensures Halves(s, c, s', c, n, ZMXKEY / 2)
    ensures ZMXKEY / 2 < |Keys(s[c])|
    ensures s'[p] == PutKey(s[p], Keys(s[c])[ZMXKEY / 2], c, n)
    ensures forall x :: x in s && x != p && x != c && x != n ==> x in s' && s'[x] == s[x]
  {
    hide Halves, PutKey;
  }

  lemma LiveCounts(b: Block)
    ensures |Keys(b)| == Count(b) && |Links(b)| == Count(b) + 1
    ensures 0 <= b.nkeys <= ZMXKEY ==> Count(b) == b.nkeys
  {
  }

  lemma ChildOf(s: Store, f: Frame)
    requires f.blk in s && 0 <= f.pos <= Count(s[f.blk])
    ensures |Links(s[f.blk])| == Count(s[f.blk]) + 1 && Child(s, f) == Links(s[f.blk])[f.pos]
  {
  }

  lemma PromotedTowards(b: Block, ks: seq<Entry>, ls: seq<int>, pos: nat, m: Entry, c: int, n: int, k: int)
    requires |ls| == |ks| + 1 && pos <= |ks| && ls[pos] == c
    requires Keys(b) == ks[..pos] + [m] + ks[pos..] && Links(b) == ls[..pos + 1] + [n] + ls[pos + 1..]
    requires AllBelow(ks[..pos], k) && AllAbove(ks[pos..], k)
    requires AllBelow(ks[..pos], m.key) && AllAbove(ks[pos..], m.key)
    ensures Towards(b, k) == if k <= m.key then c else n
  {
    hide Keys, Links;
    LiveCounts(b);
    var i := if k <= m.key then pos else pos + 1;
    var q := PutPos(Keys(b), k);
    assert forall j :: 0 <= j < pos ==> Keys(b)[j] == ks[..pos][j] && Keys(b)[j].key < k;
    assert forall j :: pos < j < |Keys(b)| ==> Keys(b)[j] == ks[pos..][j - pos - 1] && k < Keys(b)[j].key;
    assert Keys(b)[pos] == m;
    assert q < |Keys(b)| ==> k <= Keys(b)[q].key;
    assert q > 0 ==> Keys(b)[q - 1].key < k;
    assert q == i;
  }

  /** The same for a root split. */
  lemma RouteRootSplit(s: Store, s': Store, r: int, H: nat, a: int, b: int, k: int)
    requires NodeOK(s, r, H) && Unique(Blks(s, r, H)) && Sorted(Ents(s, r, H))
    requires RootSplitResult(s, s', r, a, b) && a !in Blks(s, r, H) && b !in Blks(s, r, H)
    ensures Route(s', r, H + 1, k) >= {r} + (Route(s, r, H, k) - {r})
  {
    hide *;
    RootSplitOpen(s, s', r, a, b);
    var i := ZMXKEY / 2;
    NodeKids(s, r, H);
    LiveCounts(s[r]);
    EntsNode(s, r, H);
    KeysSorted(s, Keys(s[r]), Links(s[r]), H);
    if H > 0 {
      BelowRoot(s, s', r, H, a, b);
    }
    HalfRoute(s, r, s', a, b, i, H, k);
    RouteNode(s', r, H + 1, k);
    TwoTowards(s'[r], Keys(s[r])[i], a, b, k);
  }

  lemma RootSplitOpen(s: Store, s': Store, r: int, a: int, b: int)
    requires RootSplitResult(s, s', r, a, b)
    ensures r in s && r in s' && a in s' && b in s' && s[r].nkeys == ZMXKEY
    ensures Halves(s, r, s', a, b, ZMXKEY / 2) && ZMXKEY / 2 < |Keys(s[r])|
    ensures Keys(s'[r]) == [Keys(s[r])[ZMXKEY / 2]] && Links(s'[r]) == [a, b]
    ensures forall x :: x in s && x != r && x != a && x != b ==> x in s' && s'[x] == s[x]
  {
    hide Halves, Links;
  }

  lemma TwoTowards(b: Block, m: Entry, l: int, r: int, k: int)
    requires Keys(b) == [m] && Links(b) == [l, r]
    ensures Towards(b, k) == if k <= m.key then l else r
  {
    hide Keys, Links;
    var q := PutPos([m], k);
    assert q == if k <= m.key then 0 else 1;
  }

  lemma FullAfterSplit(s: Store, s': Store, m: multiset<int>, p: int, c: int, n: int, road: set<int>, road': set<int>)
    requires SplitResult(s, s', p, c, n) && FullOn(s, m, road) && road' >= {p} + (road - {c})
    requires forall x :: x in s' ==> x in s || x == n
    ensures FullOn(s', m + multiset{n}, road')
  {
    hide Halves, Keys, PutKey;
  }

  lemma FullAfterRootSplit(s: Store, s': Store, m: multiset<int>, r: int, a: int, b: int, road: set<int>,
                           road': set<int>)
    requires RootSplitResult(s, s', r, a, b) && FullOn(s, m, road) && road' >= {r} + (road - {r})
    requires forall x :: x in s' ==> x in s || x == a || x == b
    ensures FullOn(s', m + multiset{a} + multiset{b}, road')
  {
    hide Halves, Keys, Links;
  }

  /** Leaving a block that is not full behind. */
  lemma FullPast(s: Store, m: multiset<int>, b: int, road: set<int>)
    requires FullOn(s, m, {b} + road) && b in s && s[b].nkeys < ZMXKEY
    ensures FullOn(s, m, road)
  {
  }

  // ---------------------------------------------------------------------
  // Paths and routes
  // ---------------------------------------------------------------------

  /** The path leads towards the key. */
  ghost predicate Aimed(s: Store, root: int, H: nat, fs: seq<Frame>, k: int) {
    PathOK(s, root, H, fs) && AllBelow(Lft(s, root, H, fs), k) && AllAbove(Rgt(s, root, H, fs), k)
  }

  lemma AimedFacts(s: Store, root: int, H: nat, fs: seq<Frame>, k: int)
    requires Aimed(s, root, H, fs, k)
    ensures PathOK(s, root, H, fs) && AllBelow(Lft(s, root, H, fs), k) && AllAbove(Rgt(s, root, H, fs), k)
  {
  }

  lemma MakeAimed(s: Store, root: int, H: nat, fs: seq<Frame>, k: int)
    requires PathOK(s, root, H, fs) && AllBelow(Lft(s, root, H, fs), k) && AllAbove(Rgt(s, root, H, fs), k)
    ensures Aimed(s, root, H, fs, k)
  {
  }

  /** One frame up it still does, and the key belongs at the frame's position. */
  lemma AimedUp(s: Store, root: int, H: nat, fs: seq<Frame>, k: int)
    requires Aimed(s, root, H, fs, k) && |fs| > 0
    ensures var front, f, hp := fs[..|fs| - 1], fs[|fs| - 1], H - |fs| + 1;
            && Aimed(s, root, H, front, k) && PathOK(s, root, H, fs)
            && f.blk in s && 0 <= f.pos <= |Keys(s[f.blk])| && f.pos <= Count(s[f.blk])
            && AllBelow(Keys(s[f.blk])[..f.pos], k) && AllAbove(Keys(s[f.blk])[f.pos..], k)
            && Towards(s[f.blk], k) == Child(s, f)
  {
    hide *;
    var front, f, hp := fs[..|fs| - 1], fs[|fs| - 1], H - |fs| + 1;
    AimedFacts(s, root, H, fs, k);
    PathStep(s, root, H, fs);
    BelowConcat(Lft(s, root, H, front), PreAt(s, f, hp), k);
    BelowConcat(SufAt(s, f, hp), Rgt(s, root, H, front), k);
    MakeAimed(s, root, H, front, k);
    LiveCounts(s[f.blk]);
    AroundKeys(s, f, hp, k);
    TowardsAt(s[f.blk], k, f.pos);
    ChildOf(s, f);
  }

  /** The route of the key from the end of such a path is part of its route from
      the root. */
  lemma {:induction false} RouteThrough(s: Store, root: int, H: nat, fs: seq<Frame>, k: int)
    requires Aimed(s, root, H, fs, k) && |fs| <= H
    ensures Route(s, Target(s, root, fs), H - |fs|, k) <= Route(s, root, H, k)
    decreases |fs|
  {
    hide *;
    AimedFacts(s, root, H, fs, k);
    if |fs| == 0 {
      PathNil(s, root, H, fs);
    } else {
      var front, f := fs[..|fs| - 1], fs[|fs| - 1];
      PathStep(s, root, H, fs);
      AimedUp(s, root, H, fs, k);
      RouteThrough(s, root, H, front, k);
      RouteNode(s, f.blk, H - |fs| + 1, k);
    }
  }
}
