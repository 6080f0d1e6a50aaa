/** bsptbk: splitting a full block.

    The half of a block that stays, the half that moves and the middle key make
    up what the block held, at any height; a root makes room for its middle key
    by growing the tree, any other block by giving it to its parent. */
module Split {
  import opened Constants
  import opened Blocks
  import opened Seqs
  import opened Trees
  import opened Paths
  import opened Orders
  import opened Context

  /** Two blocks a and b of s' that hold the two sides of key i of block c. */
  ghost predicate Halves(s: Store, c: int, s': Store, a: int, b: int, i: nat)
  {
    && c in s && a in s' && b in s' && i < Count(s[c])
    && Keys(s'[a]) == Keys(s[c])[..i] && Links(s'[a]) == Links(s[c])[..i + 1]
    && Keys(s'[b]) == Keys(s[c])[i + 1..] && Links(s'[b]) == Links(s[c])[i + 1..]
  }

  /** The halves and the middle key hold what c held, and own what c owned
      below itself. */
  lemma HalvesTogether(s: Store, c: int, s': Store, a: int, b: int, i: nat, h: nat)
    requires NodeOK(s, c, h) && Halves(s, c, s', a, b, i) && 0 <= a && 0 <= b
    requires 0 <= s'[a].nkeys <= ZMXKEY && 0 <= s'[b].nkeys <= ZMXKEY
    requires h > 0 ==> Same(s, s', BlksOf(s, Links(s[c]), h - 1))
    ensures Ents(s', a, h) + [Keys(s[c])[i]] + Ents(s', b, h) == Ents(s, c, h)
    ensures Blks(s', a, h) + Blks(s', b, h) + multiset{c} == Blks(s, c, h) + multiset{a} + multiset{b}
    ensures NodeOK(s', a, h) && NodeOK(s', b, h)
  {
    hide *;
    HalvesEnts(s, c, s', a, b, i, h);
    HalvesBlks(s, c, s', a, b, i, h);
    HalvesNodes(s, c, s', a, b, i, h);
  }

  lemma HalvesEnts(s: Store, c: int, s': Store, a: int, b: int, i: nat, h: nat)
    requires NodeOK(s, c, h) && Halves(s, c, s', a, b, i)
    requires h > 0 ==> Same(s, s', BlksOf(s, Links(s[c]), h - 1))
    ensures Ents(s', a, h) + [Keys(s[c])[i]] + Ents(s', b, h) == Ents(s, c, h)
  {
    hide *;
    HalvesSlices(s, c, s', a, b, i);
    var ks, ls := Keys(s[c]), Links(s[c]);
    EntsNode(s, c, h);
    EntsNode(s', a, h);
    EntsNode(s', b, h);
    BetweenConcat(s', ks[..i], ls[..i + 1], ks[i], ks[i + 1..], ls[i + 1..], h);
    if h > 0 {
      FrameOf(s, s', ks, ls, h);
    } else {
      BetweenZero(s, ks, ls);
      BetweenZero(s', ks, ls);
    }
  }

  lemma HalvesBlks(s: Store, c: int, s': Store, a: int, b: int, i: nat, h: nat)
    requires NodeOK(s, c, h) && Halves(s, c, s', a, b, i)
    requires h > 0 ==> Same(s, s', BlksOf(s, Links(s[c]), h - 1))
    ensures Blks(s', a, h) + Blks(s', b, h) + multiset{c} == Blks(s, c, h) + multiset{a} + multiset{b}
  {
    hide *;
    HalvesSlices(s, c, s', a, b, i);
    BlksNode(s, c, h);
    BlksNode(s', a, h);
    BlksNode(s', b, h);
    if h > 0 {
      var ls := Links(s[c]);
      FrameBlks(s, s', ls, h - 1);
      BlksConcat(s', ls[..i + 1], ls[i + 1..], h - 1);
      HalvesSum(a, b, c, BlksOf(s', ls[..i + 1], h - 1), BlksOf(s', ls[i + 1..], h - 1));
    }
  }

  lemma HalvesSum(a: int, b: int, c: int, x: multiset<int>, y: multiset<int>)
    ensures (multiset{a} + x) + (multiset{b} + y) + multiset{c} == (multiset{c} + (x + y)) + multiset{a} + multiset{b}
  {
  }

  lemma HalvesNodes(s: Store, c: int, s': Store, a: int, b: int, i: nat, h: nat)
    requires NodeOK(s, c, h) && Halves(s, c, s', a, b, i) && 0 <= a && 0 <= b
    requires 0 <= s'[a].nkeys <= ZMXKEY && 0 <= s'[b].nkeys <= ZMXKEY
    requires h > 0 ==> Same(s, s', BlksOf(s, Links(s[c]), h - 1))
    ensures NodeOK(s', a, h) && NodeOK(s', b, h)
  {
    hide *;
    HalvesSlices(s, c, s', a, b, i);
    NodeKids(s, c, h);
    if h > 0 {
      var ls := Links(s[c]);
      KidsFrame(s, s', ls, h - 1);
      KidsCut(s', ls[..i + 1], ls[i + 1..], h - 1);
    } else {
      NullPart(s[c], s'[a], 0);
      NullPart(s[c], s'[b], i + 1);
    }
    MakeNode(s', a, h);
    MakeNode(s', b, h);
  }

  lemma NullPart(b: Block, part: Block, from: nat)
    requires b.nkeys > 0 ==> NullLinks(b)
    requires |Links(part)| + from <= |Links(b)|
    requires forall j :: 0 <= j < |Links(part)| ==> Links(part)[j] == Links(b)[from + j]
    ensures b.nkeys > 0 ==> NullLinks(part)
  {
    hide Links;
  }

  lemma KidsCut(s: Store, la: seq<int>, lb: seq<int>, h: nat)
    requires KidsOK(s, la + lb, h)
    ensures KidsOK(s, la, h) && KidsOK(s, lb, h)
  {
    KidsParts(s, la, [], lb, h);
    Unit(la);
  }

  lemma HalvesSlices(s: Store, c: int, s': Store, a: int, b: int, i: nat)
    requires Halves(s, c, s', a, b, i)
    ensures c in s && a in s' && b in s' && i < |Keys(s[c])| && |Links(s[c])| == |Keys(s[c])| + 1
    ensures Keys(s[c]) == Keys(s[c])[..i] + [Keys(s[c])[i]] + Keys(s[c])[i + 1..]
    ensures Links(s[c]) == Links(s[c])[..i + 1] + Links(s[c])[i + 1..]
    ensures Keys(s'[a]) == Keys(s[c])[..i] && Links(s'[a]) == Links(s[c])[..i + 1]
    ensures Keys(s'[b]) == Keys(s[c])[i + 1..] && Links(s'[b]) == Links(s[c])[i + 1..]
    ensures forall j :: 0 <= j < |Links(s'[a])| ==> Links(s'[a])[j] == Links(s[c])[j]
    ensures forall j :: 0 <= j < |Links(s'[b])| ==> Links(s'[b])[j] == Links(s[c])[i + 1 + j]
  {
  }

  /** The root r gave its halves to new blocks a and b and kept the middle key. */
  lemma GrowRoot(s: Store, s': Store, r: int, H: nat, a: int, b: int, i: nat)
    requires TreeOK(s, r, H) && Halves(s, r, s', a, b, i) && 0 <= a && 0 <= b
    requires 0 < i && i + 1 < s[r].nkeys
    requires a != b && a !in Blks(s, r, H) && b !in Blks(s, r, H)
    requires forall x :: x in s && x != r && x != a && x != b ==> x in s' && s'[x] == s[x]
    requires r in s' && s'[r].btype == ZROOT && s'[r].nkeys == 1
    requires Keys(s'[r]) == [Keys(s[r])[i]] && Links(s'[r]) == [a, b]
    requires s'[a].nkeys == i && s'[a].btype == ZINUSE
    requires s'[b].nkeys == s[r].nkeys - i - 1 && s'[b].btype == ZINUSE
    ensures TreeOK(s', r, H + 1)
    ensures Ents(s', r, H + 1) == Ents(s, r, H)
    ensures Blks(s', r, H + 1) == Blks(s, r, H) + multiset{a} + multiset{b}
  {
    hide Ents, Blks, NodeOK, KidOK, KidsOK, Between, BlksOf, Unique, Halves, Same;
    NodeKids(s, r, H);
    HalvesSlices(s, r, s', a, b, i);
    if H > 0 {
      BelowRoot(s, s', r, H, a, b);
    }
    HalvesTogether(s, r, s', a, b, i, H);
    MakeKid(s', a, H);
    MakeKid(s', b, H);
    KidsTwo(s', Keys(s[r])[i], a, b, H);
    EntsNode(s', r, H + 1);
    BlksNode(s', r, H + 1);
    MakeNode(s', r, H + 1);
    assert Blks(s', r, H + 1) == Blks(s, r, H) + multiset{a} + multiset{b};
    UniqueWith(Blks(s, r, H), a, b);
  }

  lemma UniqueWith(m: multiset<int>, a: int, b: int)
    requires Unique(m) && a != b && a !in m && b !in m
    ensures Unique(m + multiset{a} + multiset{b})
  {
  }

  lemma BelowRoot(s: Store, s': Store, r: int, H: nat, a: int, b: int)
    requires H > 0 && NodeOK(s, r, H) && Unique(Blks(s, r, H))
    requires a !in Blks(s, r, H) && b !in Blks(s, r, H)
    requires forall x :: x in s && x != r && x != a && x != b ==> x in s' && s'[x] == s[x]
    ensures Same(s, s', BlksOf(s, Links(s[r]), H - 1))
  {
    var below := BlksOf(s, Links(s[r]), H - 1);
    assert Blks(s, r, H) == multiset{r} + below;
    forall x | x in below
      ensures x != r && x != a && x != b && x in s
    {
      assert Blks(s, r, H)[x] <= 1;
      BlksAllocated(s, r, H, x);
    }
  }

  /** Every block of a tree is in the store. */
  lemma {:induction false} BlksAllocated(s: Store, b: int, h: nat, x: int)
    requires NodeOK(s, b, h) && x in Blks(s, b, h)
    ensures x in s
    decreases h, 0
  {
    if x != b && h > 0 {
      BlksOfAllocated(s, Links(s[b]), h - 1, x);
    }
  }

  lemma {:induction false} BlksOfAllocated(s: Store, ls: seq<int>, h: nat, x: int)
    requires KidsOK(s, ls, h) && x in BlksOf(s, ls, h)
    ensures x in s
    decreases h, 1, |ls|
  {
    var n := |ls| - 1;
    if x in Blks(s, ls[n], h) {
      assert KidOK(s, ls[n], h);
      BlksAllocated(s, ls[n], h, x);
    } else {
      assert forall i :: 0 <= i < n ==> ls[..n][i] == ls[i];
      BlksOfAllocated(s, ls[..n], h, x);
    }
  }

  /** What a non-root split leaves: the left half in c, the right half in n, the
      middle key and the link to n in the parent p. */
  ghost predicate SplitResult(s: Store, s': Store, p: int, c: int, n: int) {
    && p in s && c in s && p in s' && c in s' && n in s'
    && p != c && n != p && n != c && 0 <= n
    && s[c].nkeys == ZMXKEY && 0 <= s[p].nkeys < ZMXKEY
    && Halves(s, c, s', c, n, ZMXKEY / 2)
    && s'[c].nkeys == ZMXKEY / 2 && s'[c].btype == s[c].btype
    && s'[n].nkeys == ZMXKEY - ZMXKEY / 2 - 1 && s'[n].btype == ZINUSE
    && s'[p] == PutKey(s[p], Keys(s[c])[ZMXKEY / 2], c, n)
    && forall x :: x in s && x != p && x != c && x != n ==> x in s' && s'[x] == s[x]
  }

  /** The key promoted into the parent falls between its neighbours there. */
  lemma PromotedFits(s: Store, f: Frame, hp: nat, i: nat)
    requires hp > 0 && NodeOK(s, f.blk, hp) && 0 <= f.pos <= s[f.blk].nkeys
    requires Sorted(Ents(s, f.blk, hp))
    requires Child(s, f) in s && i < Count(s[Child(s, f)])
    ensures AllBelow(Keys(s[f.blk])[..f.pos], Keys(s[Child(s, f)])[i].key)
    ensures AllAbove(Keys(s[f.blk])[f.pos..], Keys(s[Child(s, f)])[i].key)
  {
    hide *;
    NodeKids(s, f.blk, hp);
    var c := Child(s, f);
    NodeParts(s, f, hp);
    EntsNode(s, c, hp - 1);
    KeysWithin(s, Keys(s[c]), Links(s[c]), hp - 1, i);
    InMiddle(PreAt(s, f, hp), Ents(s, c, hp - 1), SufAt(s, f, hp), Keys(s[c])[i]);
    AroundKeys(s, f, hp, Keys(s[c])[i].key);
  }

  /** A key between the parts of a node around a child is between its keys. */
  lemma AroundKeys(s: Store, f: Frame, h: nat, k: int)
    requires f.blk in s && 0 <= f.pos <= Count(s[f.blk])
    requires AllBelow(PreAt(s, f, h), k) && AllAbove(SufAt(s, f, h), k)
    ensures AllBelow(Keys(s[f.blk])[..f.pos], k) && AllAbove(Keys(s[f.blk])[f.pos..], k)
  {
    PreKeys(s, Keys(s[f.blk])[..f.pos], Links(s[f.blk])[..f.pos], h, k);
    SufKeys(s, Keys(s[f.blk])[f.pos..], Links(s[f.blk])[f.pos + 1..], h, k);
  }

  /** After a non-root split the parent holds what it held, one block richer. */
  lemma SplitChild(s: Store, s': Store, f: Frame, hp: nat, n: int)
    requires hp > 0 && NodeOK(s, f.blk, hp) && 0 <= f.pos <= s[f.blk].nkeys && s[f.blk].nkeys > 0
    requires Unique(Blks(s, f.blk, hp)) && Sorted(Ents(s, f.blk, hp))
    requires SplitResult(s, s', f.blk, Child(s, f), n) && n !in Blks(s, f.blk, hp)
    ensures NodeOK(s', f.blk, hp) && s'[f.blk].nkeys == s[f.blk].nkeys + 1
    ensures Ents(s', f.blk, hp) == Ents(s, f.blk, hp)
    ensures Blks(s', f.blk, hp) == Blks(s, f.blk, hp) + multiset{n}
  {
    hide Ents, Blks, NodeOK, KidOK, KidsOK, Between, BlksOf, PreOf, SufOf, Unique, Halves, Same, Sorted, PutKey,
      AllBelow, AllAbove;
    NodeKids(s, f.blk, hp);
    var p, pos, c := f.blk, f.pos, Child(s, f);
    var ks, ls := Keys(s[p]), Links(s[p]);
    NodeChildOK(s, f, hp);
    KidNode(s, c, hp - 1);
    NodeKids(s, c, hp - 1);
    HalvesSlices(s, c, s', c, n, ZMXKEY / 2);
    var m := Keys(s[c])[ZMXKEY / 2];
    PromotedFits(s, f, hp, ZMXKEY / 2);
    PutPromoted(s[p], m, pos, c, n);
    SplitChildKids(s, s', f, hp, n);
    NodeParts(s, f, hp);
    SplitWindow(s, s', ks, ls, pos, c, m, n, hp);
    EntsNode(s', p, hp);
    BlksNode(s, p, hp);
    BlksNode(s', p, hp);
    assert BlksOf(s', Links(s'[p]), hp - 1) + Blks(s, c, hp - 1)
        == BlksOf(s, ls, hp - 1) + multiset{n} + Blks(s, c, hp - 1);
    Cancel(BlksOf(s', Links(s'[p]), hp - 1), BlksOf(s, ls, hp - 1) + multiset{n}, Blks(s, c, hp - 1));
    MakeNode(s', p, hp);
  }

  /** The store outside c, n and the parent is the same, so c's halves are in order. */
  lemma SplitChildKids(s: Store, s': Store, f: Frame, hp: nat, n: int)
    requires hp > 0 && NodeOK(s, f.blk, hp) && 0 <= f.pos <= s[f.blk].nkeys
    requires Unique(Blks(s, f.blk, hp))
    requires SplitResult(s, s', f.blk, Child(s, f), n) && n !in Blks(s, f.blk, hp)
    ensures var ls, c := Links(s[f.blk]), Child(s, f);
            && Same(s, s', BlksOf(s, ls[..f.pos], hp - 1)) && Same(s, s', BlksOf(s, ls[f.pos + 1..], hp - 1))
            && KidOK(s', c, hp - 1) && KidOK(s', n, hp - 1)
            && Blks(s', c, hp - 1) + Blks(s', n, hp - 1) == Blks(s, c, hp - 1) + multiset{n}
            && Ents(s', c, hp - 1) + [Keys(s[c])[ZMXKEY / 2]] + Ents(s', n, hp - 1) == Ents(s, c, hp - 1)
  {
    hide Ents, Blks, NodeOK, KidOK, KidsOK, Between, BlksOf, PreOf, SufOf, Unique, Halves, Same, PutKey, Keys;
    NodeKids(s, f.blk, hp);
    var p, c := f.blk, Child(s, f);
    var ls := Links(s[p]);
    NodeChildOK(s, f, hp);
    KidType(s, c, hp - 1);
    NodeKids(s, c, hp - 1);
    NodeParts(s, f, hp);
    BlksNode(s, c, hp - 1);
    var all, below := Blks(s, p, hp), Blks(s, c, hp - 1);
    if hp > 1 {
      var inner := BlksOf(s, Links(s[c]), hp - 2);
      SameExcept(s, s', p, hp, all, p, c, n, inner, multiset{p} + multiset{c});
    }
    SameExcept(s, s', p, hp, all, p, c, n, BlksOf(s, ls[..f.pos], hp - 1), multiset{p} + multiset{c});
    SameExcept(s, s', p, hp, all, p, c, n, BlksOf(s, ls[f.pos + 1..], hp - 1), multiset{p} + multiset{c});
    HalvesTogether(s, c, s', c, n, ZMXKEY / 2, hp - 1);
    Cancel(Blks(s', c, hp - 1) + Blks(s', n, hp - 1), Blks(s, c, hp - 1) + multiset{n}, multiset{c});
    MakeKid(s', c, hp - 1);
    MakeKid(s', n, hp - 1);
  }

  /** Part of a tree away from p, c and the new block n is the same in s'. */
  lemma SameExcept(s: Store, s': Store, b: int, h: nat, all: multiset<int>, p: int, c: int, n: int,
                   part: multiset<int>, others: multiset<int>)
    requires NodeOK(s, b, h) && all == Blks(s, b, h) && Unique(all) && n !in all
    requires part + others <= all && others == multiset{p} + multiset{c}
    requires forall x :: x in s && x != p && x != c && x != n ==> x in s' && s'[x] == s[x]
    ensures Same(s, s', part)
  {
    hide Blks, NodeOK;
    forall x | x in part
      ensures x in s && x != p && x != c && x != n
    {
      assert (part + others)[x] <= all[x] <= 1;
      BlksAllocated(s, b, h, x);
    }
  }

  lemma SplitWindow(s: Store, s': Store, ks: seq<Entry>, ls: seq<int>, pos: nat, c: int, m: Entry, n: int, hp: nat)
    requires |ls| == |ks| + 1 && pos <= |ks| && hp > 0 && ls[pos] == c
    requires Same(s, s', BlksOf(s, ls[..pos], hp - 1)) && Same(s, s', BlksOf(s, ls[pos + 1..], hp - 1))
    requires KidsOK(s, ls, hp - 1) && KidOK(s', c, hp - 1) && KidOK(s', n, hp - 1)
    ensures var ks', ls' := ks[..pos] + [m] + ks[pos..], ls[..pos + 1] + [n] + ls[pos + 1..];
            && KidsOK(s', ls', hp - 1)
            && Between(s', ks', ls', hp) == PreOf(s, ks[..pos], ls[..pos], hp)
                 + (Ents(s', c, hp - 1) + [m] + Ents(s', n, hp - 1)) + SufOf(s, ks[pos..], ls[pos + 1..], hp)
            && BlksOf(s', ls', hp - 1) + Blks(s, c, hp - 1)
               == BlksOf(s, ls, hp - 1) + (Blks(s', c, hp - 1) + Blks(s', n, hp - 1))
  {
    hide *;
    Window(s, s', ks[..pos], ls[..pos], [c], [m], [c, n], ks[pos..], ls[pos + 1..], hp);
    KidsTwo(s', m, c, n, hp - 1);
    BlksOne(s, c, hp - 1);
    assert ls == ls[..pos] + [c] + ls[pos + 1..];
    assert ls[..pos + 1] + [n] + ls[pos + 1..] == ls[..pos] + [c, n] + ls[pos + 1..];
  }

  /** What a root split leaves: both halves in new blocks, the middle key alone
      in the root. */
  ghost predicate RootSplitResult(s: Store, s': Store, r: int, a: int, b: int) {
    && r in s && r in s' && a in s' && b in s' && a != b && a != r && b != r && 0 <= a && 0 <= b
    && s[r].nkeys == ZMXKEY
    && Halves(s, r, s', a, b, ZMXKEY / 2)
    && s'[a].nkeys == ZMXKEY / 2 && s'[a].btype == ZINUSE
    && s'[b].nkeys == ZMXKEY - ZMXKEY / 2 - 1 && s'[b].btype == ZINUSE
    && s'[r].nkeys == 1 && s'[r].btype == s[r].btype
    && Keys(s'[r]) == [Keys(s[r])[ZMXKEY / 2]] && Links(s'[r]) == [a, b]
    && forall x :: x in s && x != r && x != a && x != b ==> x in s' && s'[x] == s[x]
  }

  /** The image of a new block that takes n keys of b from fs on. */
  function Taken(slot: Block, b: Block, fs: nat, n: nat, parent: int, root: int): Block
    requires fs + n <= ZMXKEY
  {
    SetInfo(CopyKeys(slot, b, 0, fs, n), ZINUSE, 0, parent, n, root, ZNULL)
  }

  lemma TakenView(slot: Block, b: Block, fs: nat, n: nat, parent: int, root: int)
    requires fs + n <= b.nkeys == ZMXKEY
    ensures var t := Taken(slot, b, fs, n, parent, root);
            t.nkeys == n && t.btype == ZINUSE && Keys(t) == Keys(b)[fs..fs + n] && Links(t) == Links(b)[fs..fs + n + 1]
  {
    CopyFromStartView(slot, b, fs, n);
  }

  lemma TruncatedView(b: Block, n: nat)
    requires n <= b.nkeys <= ZMXKEY
    ensures Keys(b.(nkeys := n)) == Keys(b)[..n] && Links(b.(nkeys := n)) == Links(b)[..n + 1]
  {
  }

  lemma SoleKeyView(b: Block, e: Entry, a: int, c: int)
    requires 0 <= b.nkeys <= ZMXKEY
    ensures var t: Block := RepKey(b, 0, e, a, c).(nkeys := 1);
            Keys(t) == [e] && Links(t) == [a, c] && t.nkeys == 1 && t.btype == b.btype
  {
  }

  lemma RootSplitStore(s: Store, s0: Store, s': Store, r: int, a: int, b: int)
    requires r in s && s[r].nkeys == ZMXKEY && a in s0 && b in s0 && a != b && a != r && b != r && 0 <= a && 0 <= b
    requires forall x :: x in s ==> x in s0 && s0[x] == s[x]
    requires forall x :: x in s0 ==> x in s' && (x != a && x != b && x != r ==> s'[x] == s0[x])
    requires var sp := ZMXKEY / 2;
             && s'[a] == Taken(s0[a], s[r], 0, sp, r, r)
             && s'[b] == Taken(s0[b], s[r], sp + 1, ZMXKEY - sp - 1, r, r)
             && s'[r] == RepKey(s[r], 0, Keys(s[r])[sp], a, b).(nkeys := 1)
    ensures RootSplitResult(s, s', r, a, b)
  {
    hide Taken, RepKey, Keys, Links;
    var sp := ZMXKEY / 2;
    TakenView(s0[a], s[r], 0, sp, r, r);
    TakenView(s0[b], s[r], sp + 1, ZMXKEY - sp - 1, r, r);
    assert Keys(s[r])[0..sp] == Keys(s[r])[..sp] && Links(s[r])[0..sp + 1] == Links(s[r])[..sp + 1];
    assert Keys(s[r])[sp + 1..ZMXKEY] == Keys(s[r])[sp + 1..];
    assert Links(s[r])[sp + 1..ZMXKEY + 1] == Links(s[r])[sp + 1..];
    SoleKeyView(s[r], Keys(s[r])[sp], a, b);
  }

  lemma SplitStore(s: Store, s0: Store, s': Store, p: int, c: int, n: int, root: int)
    requires p in s && c in s && n in s0 && p != c && n != p && n != c && 0 <= n
    requires s[c].nkeys == ZMXKEY && 0 <= s[p].nkeys < ZMXKEY
    requires forall x :: x in s ==> x in s0 && s0[x] == s[x]
    requires forall x :: x in s0 ==> x in s' && (x != n && x != c && x != p ==> s'[x] == s0[x])
    requires var sp := ZMXKEY / 2;
             && s'[n] == Taken(s0[n], s[c], sp + 1, ZMXKEY - sp - 1, p, root)
             && s'[c] == s[c].(nkeys := sp)
             && s'[p] == PutKey(s[p], Keys(s[c])[sp], c, n)
    ensures SplitResult(s, s', p, c, n)
  {
    hide Taken, PutKey, Keys, Links;
    var sp := ZMXKEY / 2;
    TakenView(s0[n], s[c], sp + 1, ZMXKEY - sp - 1, p, root);
    assert Keys(s[c])[sp + 1..ZMXKEY] == Keys(s[c])[sp + 1..];
    assert Links(s[c])[sp + 1..ZMXKEY + 1] == Links(s[c])[sp + 1..];
    TruncatedView(s[c], sp);
  }

  /** A block a split has made below this parent. */
  ghost predicate NewUnder(s: Store, n: int, parent: int, root: int) {
    n in s && s[n].btype == ZINUSE && NewInfo(s[n], root) && s[n].nxblk == parent
  }

  /** The words after a split: new blocks have those of a split and their parent,
      all others the ones they had. */
  lemma SplitWords(s: Store, s0: Store, s': Store, p: int, c: int, n: int, fs: nat, k: nat, e: Entry, root: int)
    requires p in s && c in s && n in s0 && p != c && n != p && n != c && fs + k <= ZMXKEY
    requires 0 <= s[p].nkeys < ZMXKEY
    requires forall x :: x in s ==> x in s0 && s0[x] == s[x]
    requires forall x :: x in s0 ==> x == n || x in s
    requires forall x :: x in s' <==> x in s0
    requires forall x :: x in s0 && x != n && x != c && x != p ==> s'[x] == s0[x]
    requires s'[n] == Taken(s0[n], s[c], fs, k, p, root) && s'[p] == PutKey(s[p], e, c, n)
    requires exists m :: s'[c] == s[c].(nkeys := m)
    ensures n != root ==> Worded(s, s', root)
    ensures NewUnder(s', n, p, root)
  {
    InfoKept(s[p]);
    InfoKept(s[c]);
  }

  lemma RootSplitWords(s: Store, s0: Store, s': Store, r: int, a: int, b: int, fs: nat, k: nat, fs2: nat, k2: nat,
                       e: Entry)
    requires r in s && a in s0 && b in s0 && a != b && a != r && b != r && fs + k <= ZMXKEY && fs2 + k2 <= ZMXKEY
    requires forall x :: x in s ==> x in s0 && s0[x] == s[x]
    requires forall x :: x in s0 ==> x == a || x == b || x in s
    requires forall x :: x in s' <==> x in s0
    requires forall x :: x in s0 && x != a && x != b && x != r ==> s'[x] == s0[x]
    requires s'[a] == Taken(s0[a], s[r], fs, k, r, r) && s'[b] == Taken(s0[b], s[r], fs2, k2, r, r)
    requires s'[r] == RepKey(s[r], 0, e, a, b).(nkeys := 1)
    ensures Worded(s, s', r)
    ensures NewUnder(s', a, r, r) && NewUnder(s', b, r, r)
  {
    InfoKept(s[r]);
    InfoKept(RepKey(s[r], 0, e, a, b));
  }

  /** bsptbk on the current root: the tree grows. */
  method SplitRoot(ix: Index, blk: int, ghost used: multiset<int>) returns (newblk: int, ghost blk2: int)
    requires Calm(ix)
    requires AllocOK(ix.store, ix.sblkmx, ix.sfreep, ix.snfree, ix.free, used)
    requires blk in used && blk in ix.store && blk == ix.scroot && ix.store[blk].nkeys == ZMXKEY
    modifies ix`store, ix`sblkmx, ix`snfree, ix`sfreep, ix`free, ix`busy
    ensures Calm(ix)
    ensures newblk !in used && blk2 !in used
    ensures RootSplitResult(old(ix.store), ix.store, blk, newblk, blk2)
    ensures AllocOK(ix.store, ix.sblkmx, ix.sfreep, ix.snfree, ix.free,
                    used + multiset{newblk} + multiset{blk2})
    ensures forall x :: x in ix.store ==> x in old(ix.store) || x == newblk || x == blk2
    ensures Worded(old(ix.store), ix.store, ix.scroot) && NewUnder(ix.store, newblk, blk, ix.scroot)
    ensures NewUnder(ix.store, blk2, blk, ix.scroot)
  {
    hide *;
    ghost var s := ix.store;
    var blk1 := GetFree(ix, used);
    var other := GetFree(ix, used + multiset{blk1});
    newblk, blk2 := blk1, other;
    ghost var s0 := ix.store;
    FillHalves(ix, blk, blk1, other);
    RootSplitStore(s, s0, ix.store, blk, blk1, other);
    CountKeys(s[blk]);
    CountIs(s[blk]);
    RootSplitWords(s, s0, ix.store, blk, blk1, other, 0, ZMXKEY / 2, ZMXKEY / 2 + 1, ZMXKEY - ZMXKEY / 2 - 1,
                   Keys(s[blk])[ZMXKEY / 2]);
    AllocFrame(s0, ix.store, ix.sblkmx, ix.sfreep, ix.snfree, ix.free, used + multiset{blk1} + multiset{other});
  }

  /** Both halves of the root go to new blocks, the middle key stays. */
  method FillHalves(ix: Index, blk: int, blk1: int, blk2: int)
    requires Calm(ix)
    requires blk in ix.store && blk1 in ix.store && blk2 in ix.store
    requires blk != blk1 && blk != blk2 && blk1 != blk2
    requires ix.store[blk].nkeys == ZMXKEY && blk == ix.scroot
    modifies ix`store, ix`busy
    ensures Calm(ix)
    ensures var s, s', sp := old(ix.store), ix.store, ZMXKEY / 2;
            && (forall x :: x in s' <==> x in s)
            && (forall x :: x in s && x != blk && x != blk1 && x != blk2 ==> s'[x] == s[x])
            && s'[blk1] == Taken(s[blk1], s[blk], 0, sp, blk, blk)
            && s'[blk2] == Taken(s[blk2], s[blk], sp + 1, ZMXKEY - sp - 1, blk, blk)
            && s'[blk] == RepKey(s[blk], 0, Keys(s[blk])[sp], blk1, blk2).(nkeys := 1)
  {
    hide *;
    var sp := ZMXKEY / 2;
    var sp2 := if ZMXKEY % 2 == 0 then sp - 1 else sp;
    ghost var s := ix.store;
    TakeHalves(ix, blk, blk1, blk2, sp, sp2);
    var kep, _, _, _ := Fetch(ix, blk, sp);
    KeepSole(ix, blk, kep, blk1, blk2);
    ThreeNew(s, blk1, Taken(s[blk1], s[blk], 0, sp, blk, blk), blk2, Taken(s[blk2], s[blk], sp + 1, sp2, blk, blk),
             blk, RepKey(s[blk], 0, kep, blk1, blk2).(nkeys := 1));
  }

  /** Both halves of the root, with their information words. */
  method TakeHalves(ix: Index, blk: int, blk1: int, blk2: int, sp: nat, sp2: nat)
    requires Calm(ix) && sp <= ZMXKEY && sp + 1 + sp2 <= ZMXKEY && blk == ix.scroot
    requires blk in ix.store && blk1 in ix.store && blk2 in ix.store && blk != blk1 && blk != blk2 && blk1 != blk2
    modifies ix`store, ix`busy
    ensures Calm(ix)
    ensures var s := old(ix.store);
            ix.store == s[blk1 := Taken(s[blk1], s[blk], 0, sp, blk, blk)][blk2 := Taken(s[blk2], s[blk], sp + 1, sp2, blk, blk)]
  {
    hide *;
    ghost var s := ix.store;
    CopyHalves(ix, blk, blk1, blk2, sp, sp2);
    SetHalf(ix, blk1, blk, sp);
    SetHalf(ix, blk2, blk, sp2);
    TakenIs(s[blk1], s[blk], 0, sp, blk, blk);
    TakenIs(s[blk2], s[blk], sp + 1, sp2, blk, blk);
    TwoNew(s, blk1, blk2, CopyKeys(s[blk1], s[blk], 0, 0, sp), CopyKeys(s[blk2], s[blk], 0, sp + 1, sp2),
           Taken(s[blk1], s[blk], 0, sp, blk, blk), Taken(s[blk2], s[blk], sp + 1, sp2, blk, blk));
  }

  /** The root with the middle key alone. */
  method KeepSole(ix: Index, blk: int, kep: Entry, blk1: int, blk2: int)
    requires Calm(ix) && blk in ix.store
    modifies ix`store
    ensures ix.store == old(ix.store)[blk := RepKey(old(ix.store[blk]), 0, kep, blk1, blk2).(nkeys := 1)]
  {
    hide *;
    Replace(ix, blk, 0, kep, blk1, blk2);
    SetCount(ix, blk, 1);
  }

  lemma ThreeNew(s: Store, x: int, a: Block, y: int, b: Block, z: int, c: Block)
    requires x in s && y in s && z in s && x != y && x != z && y != z
    ensures var s' := s[x := a][y := b][z := c];
            && (forall k :: k in s' <==> k in s) && s'[x] == a && s'[y] == b && s'[z] == c
            && forall k :: k in s && k != x && k != y && k != z ==> s'[k] == s[k]
  {
  }

  lemma TwoNew(s: Store, x: int, y: int, a0: Block, b0: Block, a: Block, b: Block)
    requires x != y
    ensures s[x := a0][y := b0][x := a][y := b] == s[x := a][y := b]
  {
  }

  /** Both halves of the root. */
  method CopyHalves(ix: Index, blk: int, blk1: int, blk2: int, sp: nat, sp2: nat)
    requires Calm(ix) && sp <= ZMXKEY && sp + 1 + sp2 <= ZMXKEY
    requires blk in ix.store && blk1 in ix.store && blk2 in ix.store && blk != blk1 && blk != blk2 && blk1 != blk2
    modifies ix`store, ix`busy
    ensures Calm(ix)
    ensures var s := old(ix.store);
            ix.store == s[blk1 := CopyKeys(s[blk1], s[blk], 0, 0, sp)][blk2 := CopyKeys(s[blk2], s[blk], 0, sp + 1, sp2)]
  {
    hide *;
    CalmIs(ix);
    Copy(ix, blk1, blk, 0, 0, sp);
    CalmIs(ix);
    Copy(ix, blk2, blk, 0, sp + 1, sp2);
    CalmIs(ix);
  }

  method SetHalf(ix: Index, half: int, blk: int, n: nat)
    requires Calm(ix) && half in ix.store
    modifies ix`store
    ensures ix.store == old(ix.store)[half := SetInfo(old(ix.store[half]), ZINUSE, 0, blk, n, ix.scroot, ZNULL)]
  {
    hide *;
    SetBlock(ix, half, ZINUSE, 0, blk, n, ix.scroot, ZNULL);
  }

  lemma TakenIs(slot: Block, b: Block, fs: nat, n: nat, parent: int, root: int)
    requires fs + n <= ZMXKEY
    ensures SetInfo(CopyKeys(slot, b, 0, fs, n), ZINUSE, 0, parent, n, root, ZNULL) == Taken(slot, b, fs, n, parent, root)
  {
  }

  /** bsptbk on any other block: its parent is the last found block. */
  method SplitOther(ix: Index, blk: int, ghost used: multiset<int>) returns (newblk: int)
    requires Calm(ix)
    requires AllocOK(ix.store, ix.sblkmx, ix.sfreep, ix.snfree, ix.free, used)
    requires blk in used && ix.lfblk in used && ix.lfblk != blk
    requires blk in ix.store && ix.store[blk].nkeys == ZMXKEY
    requires ix.lfblk in ix.store && 0 <= ix.store[ix.lfblk].nkeys < ZMXKEY
    modifies ix`store, ix`sblkmx, ix`snfree, ix`sfreep, ix`free, ix`busy
    ensures Calm(ix)
    ensures newblk !in used
    ensures SplitResult(old(ix.store), ix.store, ix.lfblk, blk, newblk)
    ensures AllocOK(ix.store, ix.sblkmx, ix.sfreep, ix.snfree, ix.free, used + multiset{newblk})
    ensures forall x :: x in ix.store ==> x in old(ix.store) || x == newblk
    ensures NewUnder(ix.store, newblk, ix.lfblk, ix.scroot)
    ensures ix.scroot in used ==> Worded(old(ix.store), ix.store, ix.scroot)
  {
    hide *;
    ghost var s := ix.store;
    CalmIs(ix);
    SetBusy(ix, blk, true);
    AtMostTwo(ix, blk);
    newblk := GetFree(ix, used);
    ghost var s0 := ix.store;
    MoveHalf(ix, blk, newblk);
    CalmIs(ix);
    SplitStore(s, s0, ix.store, ix.lfblk, blk, newblk, ix.scroot);
    CountKeys(s[blk]);
    CountIs(s[blk]);
    SplitWords(s, s0, ix.store, ix.lfblk, blk, newblk, ZMXKEY / 2 + 1, ZMXKEY - ZMXKEY / 2 - 1, Keys(s[blk])[ZMXKEY / 2],
               ix.scroot);
    AllocFrame(s0, ix.store, ix.sblkmx, ix.sfreep, ix.snfree, ix.free, used + multiset{newblk});
  }

  /** The right half of a block goes to a new block, the middle key to the parent. */
  method MoveHalf(ix: Index, blk: int, newblk: int)
    requires blk in ix.store && newblk in ix.store && ix.lfblk in ix.store
    requires blk != newblk && blk != ix.lfblk && newblk != ix.lfblk
    requires ix.store[blk].nkeys == ZMXKEY && 0 <= ix.store[ix.lfblk].nkeys < ZMXKEY
    requires blk in ix.busy && ix.busy <= {ix.scroot, blk}
    modifies ix`store, ix`busy
    ensures ix.busy <= {ix.scroot}
    ensures var s, s', sp, p := old(ix.store), ix.store, ZMXKEY / 2, ix.lfblk;
            && (forall x :: x in s' <==> x in s)
            && (forall x :: x in s && x != blk && x != newblk && x != p ==> s'[x] == s[x])
            && s'[newblk] == Taken(s[newblk], s[blk], sp + 1, ZMXKEY - sp - 1, p, ix.scroot)
            && s'[blk] == s[blk].(nkeys := sp)
            && s'[p] == PutKey(s[p], Keys(s[blk])[sp], blk, newblk)
  {
    hide *;
    var sp := ZMXKEY / 2;
    var sp2 := if ZMXKEY % 2 == 0 then sp - 1 else sp;
    ghost var s := ix.store;
    TakeHalf(ix, blk, newblk, sp, sp2);
    AtMostTwo(ix, blk);
    var pblk := ix.lfblk;
    var kep, _, _, _ := Fetch(ix, blk, sp);
    SetCount(ix, blk, sp);
    Put(ix, pblk, kep, blk, newblk);
    ThreeNew(s, newblk, Taken(s[newblk], s[blk], sp + 1, sp2, pblk, ix.scroot), blk, s[blk].(nkeys := sp),
             pblk, PutKey(s[pblk], kep, blk, newblk));
    SetBusy(ix, blk, false);
  }

  /** The upper half of a wired block in a new one. */
  method TakeHalf(ix: Index, blk: int, newblk: int, sp: nat, sp2: nat)
    requires blk in ix.store && newblk in ix.store && blk != newblk && sp + 1 + sp2 <= ZMXKEY
    requires blk in ix.busy && ix.busy <= {ix.scroot, blk}
    modifies ix`store, ix`busy
    ensures blk in ix.busy && ix.busy <= {ix.scroot, blk}
    ensures ix.store == old(ix.store)[newblk := Taken(old(ix.store[newblk]), old(ix.store[blk]), sp + 1, sp2, ix.lfblk,
                                                      ix.scroot)]
  {
    hide *;
    ghost var s := ix.store;
    AtMostTwo(ix, blk);
    Copy(ix, newblk, blk, 0, sp + 1, sp2);
    AtMostTwo(ix, blk);
    var pblk := ix.lfblk;
    SetBlock(ix, newblk, ZINUSE, 0, pblk, sp2, ix.scroot, ZNULL);
    TakenIs(s[newblk], s[blk], sp + 1, sp2, pblk, ix.scroot);
  }

  /** bsptbk: which case it is depends on the type of the block. */
  method SplitBlock(ix: Index, blk: int, ghost used: multiset<int>) returns (newblk: int, ghost blk2: int)
    requires Calm(ix)
    requires AllocOK(ix.store, ix.sblkmx, ix.sfreep, ix.snfree, ix.free, used)
    requires blk in used && blk in ix.store && ix.store[blk].nkeys == ZMXKEY
    requires ix.scroot in used && (ix.store[blk].btype == ZROOT ==> blk == ix.scroot)
    requires ix.store[blk].btype != ZROOT ==>
               ix.lfblk in used && ix.lfblk != blk && ix.lfblk in ix.store && 0 <= ix.store[ix.lfblk].nkeys < ZMXKEY
    modifies ix`store, ix`sblkmx, ix`snfree, ix`sfreep, ix`free, ix`busy
    ensures Calm(ix)
    ensures newblk !in used && blk2 !in used
    ensures old(ix.store[blk].btype) == ZROOT ==>
              RootSplitResult(old(ix.store), ix.store, blk, newblk, blk2)
              && AllocOK(ix.store, ix.sblkmx, ix.sfreep, ix.snfree, ix.free, used + multiset{newblk} + multiset{blk2})
    ensures old(ix.store[blk].btype) != ZROOT ==>
              blk2 == newblk && SplitResult(old(ix.store), ix.store, ix.lfblk, blk, newblk)
              && AllocOK(ix.store, ix.sblkmx, ix.sfreep, ix.snfree, ix.free, used + multiset{newblk})
    ensures forall x :: x in ix.store ==> x in old(ix.store) || x == newblk || x == blk2
    ensures Worded(old(ix.store), ix.store, ix.scroot)
    ensures var parent := if old(ix.store[blk].btype) == ZROOT then blk else ix.lfblk;
            NewUnder(ix.store, newblk, parent, ix.scroot) && NewUnder(ix.store, blk2, parent, ix.scroot)
  {
    hide *;
    var b := Read(ix, blk);
    if b.btype == ZROOT {
      newblk, blk2 := SplitRoot(ix, blk, used);
    } else {
      newblk := SplitOther(ix, blk, used);
      blk2 := newblk;
    }
  }
}
