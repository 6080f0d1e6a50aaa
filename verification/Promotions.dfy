/** Where a search ends.  The splits of bfndky lift the middle key of a full leaf
    into the parent, so a search can end above the leaves at a key that was in a
    leaf before.  EndsAbove tells from the tree as it is whether it will, and no
    split on the way changes the answer. */
module Promotions {
  import opened Constants
  import opened Blocks
  import opened Seqs
  import opened Trees
  import opened Paths
  import opened Orders
  import opened Split
  import opened Routes

  /** A search for the key ends in a block with children: the key is in one, or it
      is the middle key of a full leaf. */
  ghost predicate EndsAbove(s: Store, b: int, h: nat, k: int)
    decreases h
  {
    b in s
    && var i := PutPos(Keys(s[b]), k);
       if i < |Keys(s[b])| && Keys(s[b])[i].key == k then h > 0 || (s[b].nkeys == ZMXKEY && i == ZMXKEY / 2)
       else h > 0 && EndsAbove(s, Towards(s[b], k), h - 1, k)
  }

  lemma EndsNode(s: Store, b: int, h: nat, k: int)
    requires b in s
    ensures |Links(s[b])| == |Keys(s[b])| + 1 && PutPos(Keys(s[b]), k) <= |Keys(s[b])|
    ensures var i := PutPos(Keys(s[b]), k);
            EndsAbove(s, b, h, k) ==
            if i < |Keys(s[b])| && Keys(s[b])[i].key == k then h > 0 || (s[b].nkeys == ZMXKEY && i == ZMXKEY / 2)
            else h > 0 && EndsAbove(s, Links(s[b])[i], h - 1, k)
  {
    TowardsIs(s[b], k);
  }

  /** A block that does not have the key passes the question on. */
  lemma EndsPast(s: Store, b: int, h: nat, k: int, i: nat)
    requires b in s && h > 0 && i <= |Keys(s[b])| && AllBelow(Keys(s[b])[..i], k) && AllAbove(Keys(s[b])[i..], k)
    ensures |Links(s[b])| == |Keys(s[b])| + 1 && EndsAbove(s, b, h, k) == EndsAbove(s, Links(s[b])[i], h - 1, k)
  {
    hide EndsAbove, Keys, Links;
    EndsNode(s, b, h, k);
    PutPosIs(Keys(s[b]), k, i);
    assert i < |Keys(s[b])| ==> Keys(s[b])[i..][0] == Keys(s[b])[i];
  }

  /** One that has it answers. */
  lemma EndsAt(s: Store, b: int, h: nat, k: int, i: nat)
    requires b in s && i < |Keys(s[b])| && Keys(s[b])[i].key == k && Sorted(Keys(s[b]))
    ensures EndsAbove(s, b, h, k) == (h > 0 || (s[b].nkeys == ZMXKEY && i == ZMXKEY / 2))
  {
    hide EndsAbove, Keys, Links;
    EndsNode(s, b, h, k);
    PutPosUnique(Keys(s[b]), k, i);
  }

  lemma {:induction false} EndsFrame(s: Store, s': Store, b: int, h: nat, k: int)
    requires Same(s, s', Blks(s, b, h)) && NodeOK(s, b, h) && b in s
    ensures EndsAbove(s', b, h, k) == EndsAbove(s, b, h, k)
    decreases h
  {
    hide *;
    BlksNode(s, b, h);
    SameIn(s, s', Blks(s, b, h), b);
    EndsNode(s, b, h, k);
    EndsNode(s', b, h, k);
    if h > 0 {
      var ls, i := Links(s[b]), PutPos(Keys(s[b]), k);
      BlksIn(s, ls, h - 1, i);
      NodeKids(s, b, h);
      KidIn(s, ls, h - 1, i);
      SameLess(s, s', Blks(s, ls[i], h - 1), Blks(s, b, h));
      EndsFrame(s, s', ls[i], h - 1, k);
    }
  }

  /** From the end of a path towards the key the answer is the same as from the
      root. */
  lemma {:induction false} EndsThrough(s: Store, root: int, H: nat, fs: seq<Frame>, k: int)
    requires Aimed(s, root, H, fs, k) && |fs| <= H
    ensures EndsAbove(s, root, H, k) == EndsAbove(s, Target(s, root, fs), H - |fs|, k)
    decreases |fs|
  {
    hide *;
    if |fs| == 0 {
      AimedFacts(s, root, H, fs, k);
      PathNil(s, root, H, fs);
    } else {
      var front, f, hp := fs[..|fs| - 1], fs[|fs| - 1], H - |fs| + 1;
      AimedUp(s, root, H, fs, k);
      PathStep(s, root, H, fs);
      EndsThrough(s, root, H, front, k);
      EndsPast(s, f.blk, hp, k, f.pos);
      ChildOf(s, f);
    }
  }

  /** A half of a split block answers for the keys on its side. */
  lemma HalfEnds(s: Store, c: int, s': Store, a: int, b: int, i: nat, h: nat, k: int)
    requires NodeOK(s, c, h) && Halves(s, c, s', a, b, i) && Sorted(Keys(s[c])) && i < |Keys(s[c])|
    requires h > 0 ==> Same(s, s', BlksOf(s, Links(s[c]), h - 1))
    requires i == ZMXKEY / 2 && Keys(s[c])[i].key != k
    requires a in s' && b in s' && s'[a].nkeys < ZMXKEY && s'[b].nkeys < ZMXKEY
    ensures EndsAbove(s', if k <= Keys(s[c])[i].key then a else b, h, k) == EndsAbove(s, c, h, k)
  {
    hide *;
    HalvesAre(s, c, s', a, b, i);
    var ks, ls := Keys(s[c]), Links(s[c]);
    var x, q := if k <= ks[i].key then a else b, PutPos(ks, k);
    EndsNode(s, c, h, k);
    EndsNode(s', x, h, k);
    PutPosHalves(ks, k, i);
    if h > 0 {
      NodeKids(s, c, h);
      KidIn(s, ls, h - 1, q);
      BlksIn(s, ls, h - 1, q);
      SameLess(s, s', Blks(s, ls[q], h - 1), BlksOf(s, ls, h - 1));
      EndsFrame(s, s', ls[q], h - 1, k);
    }
  }

  /** A split below a block does not change its answer. */
  lemma EndsSplit(s: Store, s': Store, f: Frame, hp: nat, n: int, k: int)
    requires hp > 0 && NodeOK(s, f.blk, hp) && 0 <= f.pos <= s[f.blk].nkeys && s[f.blk].nkeys > 0
    requires Unique(Blks(s, f.blk, hp)) && Sorted(Ents(s, f.blk, hp))
    requires SplitResult(s, s', f.blk, Child(s, f), n) && n !in Blks(s, f.blk, hp)
    requires |Keys(s[f.blk])| == s[f.blk].nkeys
    requires AllBelow(Keys(s[f.blk])[..f.pos], k) && AllAbove(Keys(s[f.blk])[f.pos..], k)
    ensures EndsAbove(s', f.blk, hp, k) == EndsAbove(s, f.blk, hp, k)
  {
    hide *;
    var p, c, pos, i := f.blk, Child(s, f), f.pos, ZMXKEY / 2;
    SplitOpen(s, s', p, c, n);
    SplitCounts(s, s', p, c, n);
    NodeKids(s, p, hp);
    NodeChildOK(s, f, hp);
    KidNode(s, c, hp - 1);
    NodeKids(s, c, hp - 1);
    LiveCounts(s[p]);
    ChildOf(s, f);
    NodeParts(s, f, hp);
    SortedThree(PreAt(s, f, hp), Ents(s, c, hp - 1), SufAt(s, f, hp));
    EntsNode(s, c, hp - 1);
    LiveCounts(s[c]);
    KeysSorted(s, Keys(s[c]), Links(s[c]), hp - 1);
    HalvesSlices(s, c, s', c, n, i);
    if hp > 1 {
      BlksNode(s, c, hp - 1);
      SameExcept(s, s', p, hp, Blks(s, p, hp), p, c, n, BlksOf(s, Links(s[c]), hp - 2), multiset{p} + multiset{c});
    }
    PromotedFits(s, f, hp, i);
    PutPromoted(s[p], Keys(s[c])[i], pos, c, n);
    EndsPast(s, p, hp, k, pos);
    var m := Keys(s[c])[i];
    PromotedPlace(s'[p], Keys(s[p]), Links(s[p]), pos, m, c, n, k);
    EndsNode(s', p, hp, k);
    if k == m.key {
      EndsAt(s, c, hp - 1, k, i);
    } else {
      HalfEnds(s, c, s', c, n, i, hp - 1, k);
    }
  }

  lemma SplitCounts(s: Store, s': Store, p: int, c: int, n: int)
    requires SplitResult(s, s', p, c, n)
    ensures c in s' && n in s' && s'[c].nkeys < ZMXKEY && s'[n].nkeys < ZMXKEY
  {
    hide Halves, PutKey;
  }

  /** Where the key belongs in the parent once the middle key is there. */
  lemma PromotedPlace(b: Block, ks: seq<Entry>, ls: seq<int>, pos: nat, m: Entry, c: int, n: int, k: int)
    requires |ls| == |ks| + 1 && pos <= |ks| && ls[pos] == c
    requires Keys(b) == ks[..pos] + [m] + ks[pos..] && Links(b) == ls[..pos + 1] + [n] + ls[pos + 1..]
    requires AllBelow(ks[..pos], k) && AllAbove(ks[pos..], k)
    requires AllBelow(ks[..pos], m.key) && AllAbove(ks[pos..], m.key)
    ensures var q := PutPos(Keys(b), k);
            && q == (if k <= m.key then pos else pos + 1)
            && q < |Links(b)| && Links(b)[q] == (if k <= m.key then c else n)
            && (q < |Keys(b)| && Keys(b)[q].key == k <==> k == m.key)
  {
    hide Keys, Links;
    var i := if k <= m.key then pos else pos + 1;
    var q := PutPos(Keys(b), k);
    assert forall j :: 0 <= j < pos ==> Keys(b)[j] == ks[..pos][j] && Keys(b)[j].key < k;
    assert forall j :: pos < j < |Keys(b)| ==> Keys(b)[j] == ks[pos..][j - pos - 1] && k < Keys(b)[j].key;
    assert Keys(b)[pos] == m;
    assert q < |Keys(b)| ==> k <= Keys(b)[q].key;
    assert q > 0 ==> Keys(b)[q - 1].key < k;
    assert q == i;
  }

  /** Nor does a root split. */
  lemma EndsRootSplit(s: Store, s': Store, r: int, H: nat, a: int, b: int, k: int)
    requires NodeOK(s, r, H) && Unique(Blks(s, r, H)) && Sorted(Ents(s, r, H))
    requires RootSplitResult(s, s', r, a, b) && a !in Blks(s, r, H) && b !in Blks(s, r, H)
    ensures EndsAbove(s', r, H + 1, k) == EndsAbove(s, r, H, k)
  {
    hide *;
    RootSplitOpen(s, s', r, a, b);
    RootCounts(s, s', r, a, b);
    var i := ZMXKEY / 2;
    var m := Keys(s[r])[i];
    NodeKids(s, r, H);
    LiveCounts(s[r]);
    EntsNode(s, r, H);
    KeysSorted(s, Keys(s[r]), Links(s[r]), H);
    if H > 0 {
      BelowRoot(s, s', r, H, a, b);
    }
    EndsNode(s', r, H + 1, k);
    SolePlace(m, k);
    if k == m.key {
      EndsAt(s, r, H, k, i);
    } else {
      HalfEnds(s, r, s', a, b, i, H, k);
    }
  }

  lemma RootCounts(s: Store, s': Store, r: int, a: int, b: int)
    requires RootSplitResult(s, s', r, a, b)
    ensures a in s' && b in s' && s'[a].nkeys < ZMXKEY && s'[b].nkeys < ZMXKEY
  {
    hide Halves, Links;
  }

  lemma SolePlace(m: Entry, k: int)
    ensures PutPos([m], k) == if k <= m.key then 0 else 1
  {
    assert PutPos([m][..0], k) == 0;
  }
}
