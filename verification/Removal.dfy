/** bdelky and bdelk1: a delete removes exactly one key.

    A key in a leaf is simply taken out.  A key higher up is first overwritten
    with its predecessor, the last key of the leaf that bleaf finds, and the
    predecessor is taken out of its leaf.  Then the tree is repaired from the
    leaf upwards (Delete.dfy), and the key is searched for once more, so that
    the context stands where the key was. */
module Removal {
  import opened Constants
  import opened Blocks
  import opened Seqs
  import opened Trees
  import opened Paths
  import opened Orders
  import opened Context
  import opened Split
  import opened Promotions
  import opened Routes
  import opened Find
  import opened Leaf
  import opened Insert
  import opened Repair
  import opened Filling
  import opened Delete

  // ---------------------------------------------------------------------
  // Overwriting a key with its predecessor
  // ---------------------------------------------------------------------

  /** A key of a node changes and nothing else does. */
  lemma RekeyNode(s: Store, s': Store, f: Frame, h: nat, e: Entry)
    requires h > 0 && NodeOK(s, f.blk, h) && 0 <= f.pos < s[f.blk].nkeys && Unique(Blks(s, f.blk, h))
    requires Links(s[f.blk])[f.pos] == s[f.blk].link[f.pos] && Links(s[f.blk])[f.pos + 1] == s[f.blk].link[f.pos + 1]
    requires s' == s[f.blk := RepKey(s[f.blk], f.pos, e, s[f.blk].link[f.pos], s[f.blk].link[f.pos + 1])]
    ensures NodeOK(s', f.blk, h) && Blks(s', f.blk, h) == Blks(s, f.blk, h)
    ensures 0 <= f.pos < Count(s'[f.blk]) && 0 <= f.pos < Count(s[f.blk]) && Child(s', f) == Child(s, f)
    ensures PreAt(s', f, h) == PreAt(s, f, h)
    ensures |SufAt(s, f, h)| > 0 && SufAt(s, f, h) == [Keys(s[f.blk])[f.pos]] + SufAt(s, f, h)[1..]
    ensures SufAt(s', f, h) == [e] + SufAt(s, f, h)[1..]
    ensures Same(s, s', Blks(s, Child(s, f), h - 1)) && f.blk !in Blks(s, Child(s, f), h - 1)
    ensures Blks(s, Child(s, f), h - 1) <= Blks(s, f.blk, h)
  {
    hide *;
    NodeKids(s, f.blk, h);
    var b, b', pos := s[f.blk], s'[f.blk], f.pos;
    CountKeys(b);
    var ks, ls := Keys(b), Links(b);
    RekeyedBlock(b, pos, e);
    NodeParts(s, f, h);
    NodeParts(s', f, h);
    BlksNode(s, f.blk, h);
    BlksNode(s', f.blk, h);
    BelowTop(f.blk, Blks(s, f.blk, h), BlksOf(s, ls, h - 1));
    SameBut(s, s', f.blk, BlksOf(s, ls, h - 1));
    FrameBlks(s, s', ls, h - 1);
    KidsFrame(s, s', ls, h - 1);
    MakeNode(s', f.blk, h);
    ChildIs(s, f);
    ChildIs(s', f);
    RekeySides(s, s', ks, Keys(b'), ls, pos, e, h);
    SidesAre(s, f, h);
    SidesAre(s', f, h);
    BlksIn(s, ls, h - 1, pos);
    SamePart(s, s', Blks(s, Child(s, f), h - 1), BlksOf(s, ls, h - 1));
  }

  lemma RekeyedBlock(b: Block, pos: nat, e: Entry)
    requires pos < b.nkeys <= ZMXKEY
    ensures var b' := RepKey(b, pos, e, b.link[pos], b.link[pos + 1]);
            && b'.nkeys == b.nkeys && b'.btype == b.btype && Count(b') == Count(b) == b.nkeys
            && Keys(b') == Keys(b)[pos := e] && Links(b') == Links(b)
            && b'.link == b.link
  {
    RepKeyView(b, pos, e, b.link[pos], b.link[pos + 1]);
  }

  lemma BelowTop(b: int, m: multiset<int>, below: multiset<int>)
    requires m == multiset{b} + below && Unique(m)
    ensures b !in below
  {
    assert m[b] <= 1;
  }

  lemma SameBut(s: Store, s': Store, b: int, m: multiset<int>)
    requires b !in m && b in s && b in s' && (forall x :: x != b ==> (x in s <==> x in s') && (x in s ==> s'[x] == s[x]))
    ensures Same(s, s', m)
  {
  }

  lemma SamePart(s: Store, s': Store, a: multiset<int>, m: multiset<int>)
    requires Same(s, s', m) && a <= m
    ensures Same(s, s', a)
    ensures forall x :: x !in m ==> x !in a
  {
    forall x | x in a
      ensures x in m
    {
      assert a[x] <= m[x];
    }
  }

  lemma RekeySides(s: Store, s': Store, ks: seq<Entry>, ks': seq<Entry>, ls: seq<int>, pos: nat, e: Entry, h: nat)
    requires h > 0 && pos < |ks| && |ls| == |ks| + 1 && ks' == ks[pos := e]
    requires Same(s, s', BlksOf(s, ls, h - 1))
    ensures PreOf(s', ks'[..pos], ls[..pos], h) == PreOf(s, ks[..pos], ls[..pos], h)
    ensures var t := SufOf(s, ks[pos..], ls[pos + 1..], h);
            |t| > 0 && t == [ks[pos]] + t[1..] && SufOf(s', ks'[pos..], ls[pos + 1..], h) == [e] + t[1..]
  {
    hide Between, BlksOf, Same;
    assert ls == ls[..pos] + [ls[pos]] + ls[pos + 1..];
    BlksParts(s, ls[..pos], [ls[pos]], ls[pos + 1..], h - 1);
    SamePart(s, s', BlksOf(s, ls[..pos], h - 1), BlksOf(s, ls, h - 1));
    SamePart(s, s', BlksOf(s, ls[pos + 1..], h - 1), BlksOf(s, ls, h - 1));
    assert ks'[..pos] == ks[..pos];
    PreFrame(s, s', ks[..pos], ls[..pos], h);
    assert ks[pos..][1..] == ks'[pos..][1..];
    FrameOf(s, s', ks[pos..][1..], ls[pos + 1..], h);
  }

  lemma SidesAre(s: Store, f: Frame, h: nat)
    requires f.blk in s && 0 <= f.pos <= Count(s[f.blk])
    ensures |Keys(s[f.blk])| == Count(s[f.blk]) && |Links(s[f.blk])| == Count(s[f.blk]) + 1
    ensures PreAt(s, f, h) == PreOf(s, Keys(s[f.blk])[..f.pos], Links(s[f.blk])[..f.pos], h)
    ensures SufAt(s, f, h) == SufOf(s, Keys(s[f.blk])[f.pos..], Links(s[f.blk])[f.pos + 1..], h)
  {
  }

  /** A path along the right edge, below a change: its frames are untouched, and
      nothing is added on the right. */
  lemma {:induction false} BelowPath(s: Store, s': Store, root: int, H: nat, fs: seq<Frame>, m: nat)
    requires NodeOK(s, root, H) && PathOK(s, root, H, fs) && m <= |fs| <= H
    requires PathOK(s', root, H, fs[..m]) && Target(s', root, fs[..m]) == Target(s, root, fs[..m])
    requires PathOK(s, root, H, fs[..m]) && Same(s, s', Blks(s, Target(s, root, fs[..m]), H - m))
    requires RightEdge(s, fs, m)
    ensures PathOK(s', root, H, fs) && Target(s', root, fs) == Target(s, root, fs)
    ensures Same(s, s', Blks(s, Target(s, root, fs), H - |fs|))
    ensures Blks(s, Target(s, root, fs), H - |fs|) <= Blks(s, Target(s, root, fs[..m]), H - m)
    ensures Lft(s', root, H, fs[..m]) == Lft(s, root, H, fs[..m]) ==> Lft(s', root, H, fs) == Lft(s, root, H, fs)
    ensures Rgt(s, root, H, fs) == Rgt(s, root, H, fs[..m]) && Rgt(s', root, H, fs) == Rgt(s', root, H, fs[..m])
    decreases |fs|
  {
    hide *;
    if |fs| == m {
      assert fs[..m] == fs;
    } else {
      var front, f := fs[..|fs| - 1], fs[|fs| - 1];
      var h := H - |fs| + 1;
      assert front[..m] == fs[..m];
      PathStep(s, root, H, fs);
      EdgeFront(s, fs, m);
      BelowPath(s, s', root, H, front, m);
      PathTarget(s, root, H, front);
      EdgeStep(s, s', f, h);
      PathStepBack(s', root, H, fs);
      Unit(Rgt(s, root, H, front));
      Unit(Rgt(s', root, H, front));
    }
  }

  lemma EdgeFront(s: Store, fs: seq<Frame>, m: nat)
    requires m < |fs| && RightEdge(s, fs, m)
    ensures RightEdge(s, fs[..|fs| - 1], m)
    ensures var f := fs[|fs| - 1]; f.blk in s && f.pos == Count(s[f.blk])
  {
  }

  lemma EdgeStep(s: Store, s': Store, f: Frame, h: nat)
    requires h > 0 && NodeOK(s, f.blk, h) && f.blk in s && f.pos == Count(s[f.blk]) && Same(s, s', Blks(s, f.blk, h))
    ensures f.blk in s' && s'[f.blk] == s[f.blk] && Child(s', f) == Child(s, f)
    ensures PreAt(s', f, h) == PreAt(s, f, h) && SufAt(s, f, h) == [] && SufAt(s', f, h) == []
    ensures Blks(s, Child(s, f), h - 1) <= Blks(s, f.blk, h) && Same(s, s', Blks(s, Child(s, f), h - 1))
  {
    hide *;
    BlksNode(s, f.blk, h);
    NodeParts(s, f, h);
    SameIn(s, s', Blks(s, f.blk, h), f.blk);
    var ls := Links(s[f.blk]);
    CountKeys(s[f.blk]);
    SamePart(s, s', BlksOf(s, ls[..f.pos], h - 1), Blks(s, f.blk, h));
    SamePart(s, s', Blks(s, Child(s, f), h - 1), Blks(s, f.blk, h));
    PreFrame(s, s', Keys(s[f.blk])[..f.pos], ls[..f.pos], h);
    SidesAre(s, f, h);
    SidesAre(s', f, h);
    SufNone(s, h);
    SufNone(s', h);
    assert Keys(s[f.blk])[f.pos..] == [] && ls[f.pos + 1..] == [];
    ChildIs(s, f);
    ChildIs(s', f);
  }

  lemma SufNone(s: Store, h: nat)
    ensures SufOf(s, [], [], h) == []
  {
  }

  /** Overwriting key f0 on the way to the last leaf below its left child: the
      tree stays whole, and seen from the leaf only the next key changed. */
  lemma Rekeyed(s: Store, s': Store, root: int, H: nat, front: seq<Frame>, f0: Frame, fs: seq<Frame>, e: Entry)
    returns (y: seq<Entry>)
    requires TreeOK(s, root, H) && PathOK(s, root, H, fs) && |fs| == H && |front| < H
    requires fs[..|front|] == front && fs[|front|] == f0 && RightEdge(s, fs, |front| + 1)
    requires PathOK(s, root, H, front) && f0.blk == Target(s, root, front)
    requires f0.blk in s && 0 <= f0.pos < s[f0.blk].nkeys <= ZMXKEY
    requires s' == s[f0.blk := RepKey(s[f0.blk], f0.pos, e, s[f0.blk].link[f0.pos], s[f0.blk].link[f0.pos + 1])]
    ensures TreeOK(s', root, H) && Blks(s', root, H) == Blks(s, root, H)
    ensures PathOK(s', root, H, fs) && Target(s', root, fs) == Target(s, root, fs)
    ensures f0.blk != Target(s, root, fs) && f0.blk in Blks(s, root, H)
    ensures Lft(s', root, H, fs) == Lft(s, root, H, fs)
    ensures f0.pos < |Keys(s[f0.blk])|
    ensures Rgt(s, root, H, fs) == [Keys(s[f0.blk])[f0.pos]] + y && Rgt(s', root, H, fs) == [e] + y
  {
    hide *;
    var h, m := H - |front|, |front| + 1;
    TreeFacts(s, root, H);
    PathTarget(s, root, H, front);
    NodeKids(s, f0.blk, h);
    CountKeys(s[f0.blk]);
    LinksAt(s[f0.blk]);
    UniquePart(Blks(s, f0.blk, h), Blks(s, root, H));
    RekeyNode(s, s', f0, h, e);
    RekeyedBlock(s[f0.blk], f0.pos, e);
    BlksNode(s, f0.blk, h);
    InMultiset(f0.blk, Blks(s, f0.blk, h), Blks(s, root, H));
    OffRekey(s, s', root, H, f0.blk, Blks(s, f0.blk, h));
    Plug(s, s', root, H, front);
    Cancel(Blks(s', root, H), Blks(s, root, H), Blks(s, f0.blk, h));
    RekeyTree(s, s', root, H, front, f0.blk);
    var up := fs[..m];
    assert up == front + [f0] && up[..|up| - 1] == front && up[|up| - 1] == f0;
    PathStepBack(s, root, H, up);
    PathStepBack(s', root, H, up);
    BelowPath(s, s', root, H, fs, m);
    PathTarget(s, root, H, fs);
    NodeKids(s, Target(s, root, fs), 0);
    BlksNode(s, Target(s, root, fs), 0);
    InMultiset(Target(s, root, fs), Blks(s, Target(s, root, fs), 0), Blks(s, Child(s, f0), h - 1));
    y := SufAt(s, f0, h)[1..] + Rgt(s, root, H, front);
    Assoc([Keys(s[f0.blk])[f0.pos]], SufAt(s, f0, h)[1..], Rgt(s, root, H, front));
    Assoc([e], SufAt(s, f0, h)[1..], Rgt(s, root, H, front));
  }

  lemma TreeFacts(s: Store, root: int, H: nat)
    requires TreeOK(s, root, H)
    ensures NodeOK(s, root, H) && Unique(Blks(s, root, H)) && root in s && s[root].btype == ZROOT
    ensures H > 0 ==> s[root].nkeys >= 1
  {
  }

  lemma LinksAt(b: Block)
    requires 0 <= b.nkeys <= ZMXKEY
    ensures |Links(b)| == b.nkeys + 1 && |Keys(b)| == b.nkeys
    ensures forall i :: 0 <= i <= b.nkeys ==> Links(b)[i] == b.link[i]
    ensures forall i :: 0 <= i < b.nkeys ==> Keys(b)[i] == b.key[i]
  {
  }

  lemma OffRekey(s: Store, s': Store, root: int, H: nat, b: int, sub: multiset<int>)
    requires NodeOK(s, root, H) && b in sub
    requires forall x :: x in s && x != b ==> x in s' && s'[x] == s[x]
    ensures Off(s, s', Blks(s, root, H), sub)
  {
    hide NodeOK, Blks;
    forall x | x in Blks(s, root, H) && x !in sub
      ensures x in s' && x in s && s'[x] == s[x]
    {
      BlksAllocated(s, root, H, x);
    }
  }

  lemma RekeyTree(s: Store, s': Store, root: int, H: nat, front: seq<Frame>, b: int)
    requires TreeOK(s, root, H) && PathOK(s, root, H, front) && |front| <= H && b == Target(s, root, front)
    requires NodeOK(s', b, H - |front|) && b in s && s'[b].btype == s[b].btype && s'[b].nkeys == s[b].nkeys
    requires |front| > 0 ==> root in s' && root in s && s'[root] == s[root] && KidOK(s, b, H - |front|)
    requires |front| > 0 && KidOK(s', b, H - |front|) ==> NodeOK(s', root, H)
    requires Blks(s', root, H) == Blks(s, root, H)
    ensures TreeOK(s', root, H)
  {
    hide Blks, NodeOK, Unique, PathOK;
    if |front| > 0 {
      KidType(s, b, H - |front|);
      MakeKid(s', b, H - |front|);
    }
  }

  // ---------------------------------------------------------------------
  // The key leaves its leaf
  // ---------------------------------------------------------------------

  /** The context stands at key lfkey. */
  ghost predicate Exact(ix: Index, front: seq<Frame>)
    reads ix`store, ix`scroot, ix`height, ix`lfblk, ix`lfpos, ix`lfkey, ix`stk
  {
    && FoundAt(ix.store, ix.scroot, ix.height, ix.Entries(), front, ix.lfblk, ix.lfpos, ix.lfkey)
    && OnPath(ix.stk, ix.lfblk, ix.lfpos, front + [Frame(ix.lfblk, ix.lfpos)])
  }

  /** Just before bremky: a whole tree in which the last found key, a key of a
      leaf, is the one that has to go. */
  ghost predicate Removing(ix: Index, fs: seq<Frame>, goal: seq<Entry>)
    reads ix
  {
    var s, root, H, leaf, pos := ix.store, ix.scroot, ix.height, ix.lfblk, ix.lfpos;
    && TreeOK(s, root, H) && PathOK(s, root, H, fs) && |fs| == H && leaf == Target(s, root, fs)
    && leaf in s && 0 <= pos < Count(s[leaf])
    && AllocOK(s, ix.sblkmx, ix.sfreep, ix.snfree, ix.free, ix.Owned())
    && StackOn(ix.stk, fs + [Frame(leaf, pos)])
    && SlackBut(s, Blks(s, root, H), ZNULL)
    && goal == Lft(s, root, H, fs) + (Keys(s[leaf])[..pos] + Keys(s[leaf])[pos + 1..]) + Rgt(s, root, H, fs)
    && Sorted(goal)
  }

  /** Taking one entry out of a sorted sequence. */
  lemma TakenOut(es: seq<Entry>, l: seq<Entry>, ka: seq<Entry>, d: Entry, kb: seq<Entry>, r: seq<Entry>)
    requires es == l + (ka + [d] + kb) + r && Sorted(es)
    ensures es == (l + ka) + [d] + (kb + r)
    ensures l + (ka + kb) + r == (l + ka) + (kb + r) && Sorted((l + ka) + (kb + r))
    ensures AllBelow(l + ka, d.key) && AllAbove(kb + r, d.key)
  {
    PathArith(l, ka, [d], kb, r);
    assert l + (ka + kb) + r == (l + ka) + (kb + r);
    SortedThree(l + ka, [d], kb + r);
    SortedConcat(l + ka, kb + r);
    assert d in [d];
    InMiddle(l + ka, [d], kb + r, d);
  }

  /** The key is in a leaf. */
  lemma LeafKey(s: Store, root: int, H: nat, es: seq<Entry>, fs: seq<Frame>, leaf: int, pos: int, key: int)
    returns (a: seq<Entry>, d: Entry, b: seq<Entry>)
    requires FoundAt(s, root, H, es, fs, leaf, pos, key) && |fs| == H
    ensures PathOK(s, root, H, fs) && leaf in s && 0 <= pos < |Keys(s[leaf])|
    ensures es == a + [d] + b && d.key == key && Sorted(a + b) && AllBelow(a, key) && AllAbove(b, key)
    ensures Lft(s, root, H, fs) + (Keys(s[leaf])[..pos] + Keys(s[leaf])[pos + 1..]) + Rgt(s, root, H, fs) == a + b
  {
    hide *;
    FoundFacts(s, root, H, es, fs, leaf, pos, key);
    SearchBlockOK(s, root, H, es, fs, leaf, key);
    EntsNode(s, leaf, 0);
    var ks := Keys(s[leaf]);
    var l, r := Lft(s, root, H, fs), Rgt(s, root, H, fs);
    d := ks[pos];
    assert ks == ks[..pos] + [d] + ks[pos + 1..];
    TakenOut(es, l, ks[..pos], d, ks[pos + 1..], r);
    a, b := l + ks[..pos], ks[pos + 1..] + r;
  }

  lemma FoundFacts(s: Store, root: int, H: nat, es: seq<Entry>, fs: seq<Frame>, blk: int, pos: int, key: int)
    requires FoundAt(s, root, H, es, fs, blk, pos, key)
    ensures Searching(s, root, H, es, fs, blk, key) && TreeOK(s, root, H) && PathOK(s, root, H, fs) && |fs| <= H
    ensures blk == Target(s, root, fs) && Sorted(es) && es == Ents(s, root, H)
    ensures AllBelow(Lft(s, root, H, fs), key) && AllAbove(Rgt(s, root, H, fs), key)
    ensures blk in s && 0 <= pos < Count(s[blk]) && |Keys(s[blk])| == Count(s[blk]) && Keys(s[blk])[pos].key == key
    ensures NodeOK(s, root, H) && Unique(Blks(s, root, H))
  {
    hide Ents, Blks, Lft, Rgt, PathOK, NodeOK, Sorted, AllBelow, AllAbove;
  }

  /** The key is not in a leaf: its predecessor, the last key of the leaf, took
      its place. */
  lemma UpperKey(s: Store, s': Store, root: int, H: nat, es: seq<Entry>, front: seq<Frame>, f0: Frame, fs: seq<Frame>,
                 leaf: int, e: Entry, key: int)
    returns (a: seq<Entry>, d: Entry, b: seq<Entry>)
    requires FoundAt(s, root, H, es, front, f0.blk, f0.pos, key) && |front| < H
    requires PathOK(s, root, H, fs) && |fs| == H && fs[..|front|] == front && fs[|front|] == f0
    requires RightEdge(s, fs, |front| + 1) && leaf == Target(s, root, fs)
    requires leaf in s && |Keys(s[leaf])| > 0 && e == Keys(s[leaf])[|Keys(s[leaf])| - 1]
    requires 0 <= f0.pos < s[f0.blk].nkeys <= ZMXKEY
    requires s' == s[f0.blk := RepKey(s[f0.blk], f0.pos, e, s[f0.blk].link[f0.pos], s[f0.blk].link[f0.pos + 1])]
    ensures TreeOK(s', root, H) && Blks(s', root, H) == Blks(s, root, H) && f0.blk in Blks(s, root, H)
    ensures PathOK(s', root, H, fs) && Target(s', root, fs) == leaf && s'[leaf] == s[leaf]
    ensures es == a + [d] + b && d.key == key && Sorted(a + b) && AllBelow(a, key) && AllAbove(b, key)
    ensures var ks := Keys(s[leaf]); var pos := |ks| - 1;
            Lft(s', root, H, fs) + (ks[..pos] + ks[pos + 1..]) + Rgt(s', root, H, fs) == a + b
  {
    hide *;
    FoundFacts(s, root, H, es, front, f0.blk, f0.pos, key);
    var y := Rekeyed(s, s', root, H, front, f0, fs, e);
    PathTarget(s, root, H, fs);
    EntsNode(s, leaf, 0);
    var ks := Keys(s[leaf]);
    var pos := |ks| - 1;
    d := Keys(s[f0.blk])[f0.pos];
    var l := Lft(s, root, H, fs);
    assert es == l + (ks + [d] + []) + y by {
      Unit(ks + [d]);
      PathArith(l, ks, [d], [], y);
      Unit(y);
      Assoc(l + ks, [d], y);
    }
    TakenOut(es, l, ks, d, [], y);
    Unit(y);
    a, b := l + ks, y;
    PredBack(l, ks, e, y);
  }

  /** Without its last key the leaf ends where the moved key begins. */
  lemma PredBack(l: seq<Entry>, ks: seq<Entry>, e: Entry, y: seq<Entry>)
    requires |ks| > 0 && e == ks[|ks| - 1]
    ensures l + (ks[..|ks| - 1] + ks[|ks| - 1 + 1..]) + ([e] + y) == (l + ks) + y
  {
    assert ks == ks[..|ks| - 1] + [e];
    assert ks[|ks| - 1 + 1..] == [];
  }

  lemma SlackRekey(s: Store, s': Store, m: multiset<int>, b: int)
    requires SlackBut(s, m, ZNULL) && b in s
    requires forall x :: x in s' && x != b ==> x in s && s'[x] == s[x]
    requires b in s' && s'[b].nkeys == s[b].nkeys && s'[b].link == s[b].link
    ensures SlackBut(s', m, ZNULL)
  {
  }

  lemma ExactFacts(ix: Index, front: seq<Frame>)
    requires Exact(ix, front)
    ensures FoundAt(ix.store, ix.scroot, ix.height, ix.Entries(), front, ix.lfblk, ix.lfpos, ix.lfkey)
    ensures OnPath(ix.stk, ix.lfblk, ix.lfpos, front + [Frame(ix.lfblk, ix.lfpos)])
  {
  }

  lemma MakeAtPos(s: Store, root: int, H: nat, front: seq<Frame>, f: Frame)
    requires NodeOK(s, root, H) && Unique(Blks(s, root, H))
    requires PathOK(s, root, H, front) && |front| <= H && f.blk == Target(s, root, front)
    requires f.blk in s && 0 <= f.pos <= Count(s[f.blk])
    ensures AtPos(s, root, H, front, f)
  {
  }

  lemma AtPosPath(s: Store, root: int, H: nat, front: seq<Frame>, f: Frame)
    requires AtPos(s, root, H, front, f)
    ensures PathOK(s, root, H, front) && f.blk == Target(s, root, front)
  {
  }

  lemma ValidFacts(ix: Index)
    requires ix.Valid()
    ensures TreeOK(ix.store, ix.scroot, ix.height)
    ensures AllocOK(ix.store, ix.sblkmx, ix.sfreep, ix.snfree, ix.free,
                    Blks(ix.store, ix.scroot, ix.height) + multiset(ix.rest))
    ensures Blks(ix.store, ix.scroot, ix.height) + multiset(ix.rest) + multiset(ix.free) == multiset(ix.store.Keys)
    ensures ix.Entries() == Ents(ix.store, ix.scroot, ix.height) && Sorted(ix.Entries())
    ensures ix.Contents() == ToMap(ix.Entries())
  {
  }

  /** The first part of bdelk1: after it the last found key can be removed from
      its leaf, and that leaves everything but the given key. */
  method TakeEntry(ix: Index, pos: int, blk: int, llink: int, rlink: int, ghost front: seq<Frame>)
    returns (ghost fs: seq<Frame>, ghost a: seq<Entry>, ghost d: Entry, ghost b: seq<Entry>)
    requires Calm(ix)
    requires ix.Valid() && Exact(ix, front)
    requires SlackBut(ix.store, Blks(ix.store, ix.scroot, ix.height), ZNULL)
    requires blk == ix.lfblk && pos == ix.lfpos && blk in ix.store && 0 <= pos < ix.store[blk].nkeys <= ZMXKEY
    requires llink == ix.store[blk].link[pos] && rlink == ix.store[blk].link[pos + 1]
    modifies ix`store, ix`stk, ix`lfblk, ix`lfpos
    ensures Removing(ix, fs, a + b)
    ensures old(ix.Entries()) == a + [d] + b && d.key == ix.lfkey
    ensures Sorted(a + b) && AllBelow(a, d.key) && AllAbove(b, d.key)
    ensures |front| == ix.height ==> Aimed(ix.store, ix.scroot, ix.height, fs, ix.lfkey)
    ensures Kept(old(ix.store), ix.store, ix.scroot, ix.rest)
  {
    hide *;
    ExactFacts(ix, front);
    if llink != ZNULL {
      fs, a, d, b := TakeUpper(ix, pos, blk, llink, rlink, front);
    } else {
      fs := front;
      a, d, b := TakeLower(ix, front);
    }
  }

  /** A key in a leaf is the entry to remove. */
  lemma TakeLower(ix: Index, front: seq<Frame>) returns (a: seq<Entry>, d: Entry, b: seq<Entry>)
    requires ix.Valid() && Exact(ix, front)
    requires SlackBut(ix.store, Blks(ix.store, ix.scroot, ix.height), ZNULL)
    requires ix.lfblk in ix.store && 0 <= ix.lfpos < ix.store[ix.lfblk].nkeys <= ZMXKEY
    requires ix.store[ix.lfblk].link[ix.lfpos] == ZNULL
    ensures Removing(ix, front, a + b)
    ensures ix.Entries() == a + [d] + b && d.key == ix.lfkey
    ensures Sorted(a + b) && AllBelow(a, d.key) && AllAbove(b, d.key)
    ensures Aimed(ix.store, ix.scroot, ix.height, front, ix.lfkey)
    ensures Kept(ix.store, ix.store, ix.scroot, ix.rest)
  {
    hide *;
    var s, root, H, es, key := ix.store, ix.scroot, ix.height, ix.Entries(), ix.lfkey;
    var f0 := Frame(ix.lfblk, ix.lfpos);
    ValidFacts(ix);
    ExactFacts(ix, front);
    FoundFacts(s, root, H, es, front, ix.lfblk, ix.lfpos, key);
    MakeAtPos(s, root, H, front, f0);
    AtPosFacts(s, root, H, front, f0);
    RestThere(ix);
    KeptRefl(s, ix.scroot, ix.rest);
    OnPathStack(ix.stk, ix.lfblk, ix.lfpos, front + [f0]);
    a, d, b := LeafKey(s, root, H, es, front, ix.lfblk, ix.lfpos, key);
    MakeAimed(s, root, H, front, key);
    CountKeys(ix.store[ix.lfblk]);
    MakeRemoving(ix, front, a + b);
  }

  /** A key above the leaves: its predecessor, at the end of a leaf, takes its
      place and is the entry to remove. */
  method TakeUpper(ix: Index, pos: int, blk: int, llink: int, rlink: int, ghost front: seq<Frame>)
    returns (ghost fs: seq<Frame>, ghost a: seq<Entry>, ghost d: Entry, ghost b: seq<Entry>)
    requires Calm(ix)
    requires ix.Valid() && Exact(ix, front)
    requires SlackBut(ix.store, Blks(ix.store, ix.scroot, ix.height), ZNULL)
    requires blk == ix.lfblk && pos == ix.lfpos && blk in ix.store && 0 <= pos < ix.store[blk].nkeys <= ZMXKEY
    requires llink == ix.store[blk].link[pos] && rlink == ix.store[blk].link[pos + 1] && llink != ZNULL
    modifies ix`store, ix`stk, ix`lfblk, ix`lfpos
    ensures |front| < ix.height && Removing(ix, fs, a + b)
    ensures old(ix.Entries()) == a + [d] + b && d.key == ix.lfkey
    ensures Sorted(a + b) && AllBelow(a, d.key) && AllAbove(b, d.key)
    ensures Kept(old(ix.store), ix.store, ix.scroot, ix.rest)
  {
    hide *;
    ghost var s, root, H, es, key := ix.store, ix.scroot, ix.height, ix.Entries(), ix.lfkey;
    ghost var f0 := Frame(blk, pos);
    ValidFacts(ix);
    UpperFacts(ix, front);
    fs := ToPredecessor(ix, front);
    CalmIs(ix);
    var kep, link1, link2, result := Fetch(ix, ix.lfblk, ix.lfpos);
    Replace(ix, blk, pos, kep, llink, rlink);
    RekeyedBlock(s[blk], pos, kep);
    a, d, b := UpperKey(s, ix.store, root, H, es, front, f0, fs, ix.lfblk, kep, key);
    TreeFacts(s, root, H);
    UpperKept(ix, s, Blks(s, root, H), blk);
    CountKeys(ix.store[ix.lfblk]);
    MakeRemoving(ix, fs, a + b);
  }

  lemma UpperFacts(ix: Index, front: seq<Frame>)
    requires ix.Valid() && Exact(ix, front)
    requires ix.lfblk in ix.store && 0 <= ix.lfpos < ix.store[ix.lfblk].nkeys <= ZMXKEY
    requires ix.store[ix.lfblk].link[ix.lfpos] != ZNULL
    ensures |front| < ix.height && AtPos(ix.store, ix.scroot, ix.height, front, Frame(ix.lfblk, ix.lfpos))
    ensures FoundAt(ix.store, ix.scroot, ix.height, ix.Entries(), front, ix.lfblk, ix.lfpos, ix.lfkey)
    ensures OnPath(ix.stk, ix.lfblk, ix.lfpos, front + [Frame(ix.lfblk, ix.lfpos)])
  {
    hide *;
    var s, root, H, es, key := ix.store, ix.scroot, ix.height, ix.Entries(), ix.lfkey;
    ExactFacts(ix, front);
    FoundFacts(s, root, H, es, front, ix.lfblk, ix.lfpos, key);
    MakeAtPos(s, root, H, front, Frame(ix.lfblk, ix.lfpos));
    AtPosFacts(s, root, H, front, Frame(ix.lfblk, ix.lfpos));
  }

  /** Down to the last entry left of the key above the leaves. */
  method ToPredecessor(ix: Index, ghost front: seq<Frame>) returns (ghost fs: seq<Frame>)
    requires Calm(ix) && AtPos(ix.store, ix.scroot, ix.height, front, Frame(ix.lfblk, ix.lfpos)) && |front| < ix.height
    requires ix.lfblk in ix.store && 0 < ix.store[ix.lfblk].nkeys
    requires OnPath(ix.stk, ix.lfblk, ix.lfpos, front + [Frame(ix.lfblk, ix.lfpos)])
    modifies ix`stk, ix`lfblk, ix`lfpos
    ensures PathOK(ix.store, ix.scroot, ix.height, fs) && |fs| == ix.height > |front|
    ensures ix.lfblk == Target(ix.store, ix.scroot, fs)
    ensures fs[..|front|] == front && fs[|front|] == old(Frame(ix.lfblk, ix.lfpos))
    ensures RightEdge(ix.store, fs, |front| + 1)
    ensures ix.lfblk in ix.store && 0 <= ix.lfpos == |Keys(ix.store[ix.lfblk])| - 1
    ensures ix.store[ix.lfblk].nkeys == ix.lfpos + 1 <= ZMXKEY
    ensures StackOn(ix.stk, fs + [Frame(ix.lfblk, ix.lfpos)])
  {
    hide *;
    SeesSelf(ix.store, ix.height, front, Frame(ix.lfblk, ix.lfpos));
    fs := GoLeaf(ix, 1, front, ix.store);
    ghost var f := Frame(ix.lfblk, ix.lfpos);
    AtPosFacts(ix.store, ix.scroot, ix.height, fs, f);
    AtPosPath(ix.store, ix.scroot, ix.height, fs, f);
    OnPathStack(ix.stk, ix.lfblk, ix.lfpos, fs + [f]);
    StackTop(ix.stk, fs, f, Frame(ix.lfblk, ix.lfpos - 1));
    ix.lfpos := ix.lfpos - 1;
  }

  /** Allocation, free slots and other blocks after a change of one key. */
  lemma UpperKept(ix: Index, s: Store, m: multiset<int>, blk: int)
    requires AllocOK(s, ix.sblkmx, ix.sfreep, ix.snfree, ix.free, m + multiset(ix.rest)) && SlackBut(s, m, ZNULL)
    requires m + multiset(ix.rest) + multiset(ix.free) == multiset(s.Keys) && blk in m
    requires blk in s && blk in ix.store && ix.store == s[blk := ix.store[blk]]
    requires ix.store[blk].nkeys == s[blk].nkeys && ix.store[blk].link == s[blk].link
    requires ix.scroot in s && Worded(s, ix.store, ix.scroot)
    ensures AllocOK(ix.store, ix.sblkmx, ix.sfreep, ix.snfree, ix.free, m + multiset(ix.rest))
    ensures SlackBut(ix.store, m, ZNULL) && Kept(s, ix.store, ix.scroot, ix.rest)
  {
    hide *;
    forall x | x in ix.rest
      ensures x in s
    {
      RestApart(s, m, ix.rest, ix.free, x);
    }
    AllocFrame(s, ix.store, ix.sblkmx, ix.sfreep, ix.snfree, ix.free, m + multiset(ix.rest));
    SlackRekey(s, ix.store, m, blk);
    RestApart(s, m, ix.rest, ix.free, blk);
    KeptOne(s, ix.store, ix.scroot, ix.rest, blk);
  }

  lemma MakeRemoving(ix: Index, fs: seq<Frame>, goal: seq<Entry>)
    requires var s, root, H, leaf, pos := ix.store, ix.scroot, ix.height, ix.lfblk, ix.lfpos;
      && TreeOK(s, root, H) && PathOK(s, root, H, fs) && |fs| == H && leaf == Target(s, root, fs)
      && leaf in s && 0 <= pos < |Keys(s[leaf])|
      && AllocOK(s, ix.sblkmx, ix.sfreep, ix.snfree, ix.free, Blks(s, root, H) + multiset(ix.rest))
      && StackOn(ix.stk, fs + [Frame(leaf, pos)])
      && SlackBut(s, Blks(s, root, H), ZNULL)
      && goal == Lft(s, root, H, fs) + (Keys(s[leaf])[..pos] + Keys(s[leaf])[pos + 1..]) + Rgt(s, root, H, fs)
      && Sorted(goal)
    ensures Removing(ix, fs, goal)
  {
    hide TreeOK, PathOK, Lft, Rgt, Sorted, AllocOK, Blks;
  }

  lemma RemovingFacts(ix: Index, fs: seq<Frame>, goal: seq<Entry>)
    requires Removing(ix, fs, goal)
    ensures var s, root, H, leaf, pos := ix.store, ix.scroot, ix.height, ix.lfblk, ix.lfpos;
      && TreeOK(s, root, H) && NodeOK(s, root, H) && Unique(Blks(s, root, H))
      && PathOK(s, root, H, fs) && |fs| == H && leaf == Target(s, root, fs)
      && leaf in s && 0 <= pos < |Keys(s[leaf])|
      && AllocOK(s, ix.sblkmx, ix.sfreep, ix.snfree, ix.free, Blks(s, root, H) + multiset(ix.rest))
      && Blks(s, root, H) + multiset(ix.rest) + multiset(ix.free) == multiset(s.Keys)
      && StackOn(ix.stk, fs + [Frame(leaf, pos)])
      && SlackBut(s, Blks(s, root, H), ZNULL)
      && goal == Lft(s, root, H, fs) + (Keys(s[leaf])[..pos] + Keys(s[leaf])[pos + 1..]) + Rgt(s, root, H, fs)
      && Sorted(goal)
  {
    hide NodeOK, Blks, Unique, PathOK, Lft, Rgt, Sorted;
  }

  /** A key leaves a leaf: the leaf is the hole to repair. */
  lemma LeafHole(s: Store, s': Store, root: int, H: nat, fs: seq<Frame>, leaf: int, pos: nat)
    requires TreeOK(s, root, H) && PathOK(s, root, H, fs) && |fs| == H && leaf == Target(s, root, fs)
    requires leaf in s && pos < s[leaf].nkeys <= ZMXKEY && pos < |Keys(s[leaf])|
    requires s' == s[leaf := RemKey(s[leaf], pos)]
    ensures Hole(s, s', root, H, fs, Keys(s[leaf])[..pos] + Keys(s[leaf])[pos + 1..], multiset{})
    ensures leaf in Blks(s, root, H) && (s'[leaf].btype == ZROOT <==> H == 0) && 0 <= s'[leaf].nkeys <= ZMXKEY
  {
    hide *;
    TreeFacts(s, root, H);
    PathTarget(s, root, H, fs);
    NodeKids(s, leaf, 0);
    BlksNode(s, leaf, 0);
    BlksNode(s', leaf, 0);
    InMultiset(leaf, Blks(s, leaf, 0), Blks(s, root, H));
    RemKeyView(s[leaf], pos);
    RemKeyCount(s[leaf], pos);
    RemKeyNulls(s[leaf], pos);
    MakeNode(s', leaf, 0);
    EntsNode(s', leaf, 0);
    OffRekey(s, s', root, H, leaf, Blks(s, leaf, 0));
    LeafType(s, root, H, fs, leaf);
    assert Blks(s', leaf, 0) + multiset{} == Blks(s, leaf, 0);
    MakeHole(s, s', root, H, fs, Keys(s[leaf])[..pos] + Keys(s[leaf])[pos + 1..], multiset{});
  }

  lemma RemKeyNulls(b: Block, pos: nat)
    requires pos < b.nkeys <= ZMXKEY && NullLinks(b)
    ensures NullLinks(RemKey(b, pos))
  {
    RemKeyView(b, pos);
    var ls, ls' := Links(b), Links(RemKey(b, pos));
    assert forall j :: 0 <= j < |ls'| ==> ls'[j] == if j <= pos then ls[j] else ls[j + 1];
  }

  lemma LeafType(s: Store, root: int, H: nat, fs: seq<Frame>, leaf: int)
    requires TreeOK(s, root, H) && PathOK(s, root, H, fs) && |fs| == H && leaf == Target(s, root, fs)
    ensures leaf in s && (s[leaf].btype == ZROOT <==> H == 0)
  {
    assert ZINUSE != ZROOT;
    hide *;
    TreeFacts(s, root, H);
    PathTarget(s, root, H, fs);
    if H == 0 {
      PathNil(s, root, H, fs);
    } else {
      KidType(s, leaf, 0);
    }
  }

  /** The same for the allocator, and all of it in the context. */
  lemma TakenBooks(ix: Index, s: Store, fs: seq<Frame>, leaf: int, pos: nat, w: seq<Entry>, goal: seq<Entry>)
    requires leaf in s && pos < s[leaf].nkeys <= ZMXKEY && ix.store == s[leaf := RemKey(s[leaf], pos)]
    requires Hole(s, ix.store, ix.scroot, ix.height, fs, w, multiset{}) && leaf in Blks(s, ix.scroot, ix.height)
    requires PathOK(s, ix.scroot, ix.height, fs) && Sorted(goal)
    requires goal == Lft(s, ix.scroot, ix.height, fs) + w + Rgt(s, ix.scroot, ix.height, fs)
    requires SlackBut(s, Blks(s, ix.scroot, ix.height), ZNULL)
    requires AllocOK(s, ix.sblkmx, ix.sfreep, ix.snfree, ix.free, Blks(s, ix.scroot, ix.height) + multiset(ix.rest))
    requires Blks(s, ix.scroot, ix.height) + multiset(ix.rest) + multiset(ix.free) == multiset(s.Keys)
    requires ix.scroot in s && Worded(s, ix.store, ix.scroot)
    ensures Mending(s, ix.store, ix.scroot, ix.height, fs, w, multiset{}, goal)
    ensures Books(ix, s, ix.height, Blks(s, ix.scroot, ix.height) + multiset(ix.rest), multiset{})
  {
    hide *;
    var m := Blks(s, ix.scroot, ix.height);
    var used := m + multiset(ix.rest);
    GoalIs(s, ix.scroot, ix.height, fs, w);
    NoNull(ix, s, used);
    MakeMending(s, ix.store, ix.scroot, ix.height, fs, w, multiset{}, goal);
    AllocFrame(s, ix.store, ix.sblkmx, ix.sfreep, ix.snfree, ix.free, used);
    RestApart(s, m, ix.rest, ix.free, leaf);
    forall x | x in ix.rest
      ensures x in s
    {
      RestApart(s, m, ix.rest, ix.free, x);
    }
    KeptOne(s, ix.store, ix.scroot, ix.rest, leaf);
    OwnedOnce(m, ix.rest, ix.free, s);
    assert used + multiset{} == used;
    MakeBooks(ix, s, ix.height, used, multiset{});
  }

  lemma NoNull(ix: Index, s: Store, used: multiset<int>)
    requires AllocOK(s, ix.sblkmx, ix.sfreep, ix.snfree, ix.free, used)
    ensures ZNULL !in s
  {
  }

  lemma OwnedOnce(m: multiset<int>, rest: set<int>, free: seq<int>, s: Store)
    requires m + multiset(rest) + multiset(free) == multiset(s.Keys)
    ensures Unique(m + multiset(rest))
  {
    forall x
      ensures (m + multiset(rest))[x] <= 1
    {
      assert (m + multiset(rest) + multiset(free))[x] == multiset(s.Keys)[x];
    }
  }

  /** The middle part of bdelk1 for a leaf that is not the root: join, else
      balance, and demote keys upwards until no block is empty. */
  method RepairTree(ix: Index, ghost sb: Store, ghost fs: seq<Frame>, ghost w: seq<Entry>, ghost used: multiset<int>,
                    ghost goal: seq<Entry>)
    returns (ghost used': multiset<int>)
    requires Calm(ix)
    requires (ZMXKEY + 1) / 2 > ZTHRES
    requires AtLeaf(ix, sb, ix.height, fs, w, multiset{}, used, goal)
    modifies ix`store, ix`sblkmx, ix`snfree, ix`sfreep, ix`free, ix`stk, ix`lfblk, ix`lfpos, ix`height, ix`busy
    ensures Calm(ix)
    ensures Mended(ix, sb, ix.height, used', goal)
    ensures RoutedIf(sb, ix.scroot, old(ix.height), fs, ix.store, ix.height, ix.lfkey)
    ensures old(ix.height) - 1 <= ix.height <= old(ix.height)
    ensures |fs| > 0 && Settled(old(ix.store), ix.store, fs[|fs| - 1], old(ix.lfblk), old(ix.snfree), ix.snfree)
  {
    hide *;
    ghost var H, s, leaf, n := ix.height, ix.store, ix.lfblk, ix.snfree;
    var cblk;
    ghost var w1, freed;
    AtLeafOpen(ix, sb, H, fs, w, multiset{}, used, goal);
    cblk, w1, freed, used' := JoinLeaf(ix, sb, H, fs, w, multiset{}, used, goal);
    ghost var fs1 := if |fs| > 0 then fs[..|fs| - 1] else [];
    if cblk == ZNULL {
      BalanceLeaf(ix, sb, H, fs, w, multiset{}, used, goal);
      used' := used;
    } else {
      JoinedFilled(ix, sb, H, fs, w1, freed, used', goal, cblk);
    }
    SettledIs(s, ix.store, fs[|fs| - 1], leaf, n, ix.snfree);
    while cblk != ZNULL
      invariant Calm(ix)
      invariant JoinDue(s, fs[|fs| - 1], leaf) ==> ix.snfree > n
      invariant !JoinDue(s, fs[|fs| - 1], leaf) ==> cblk == ZNULL && Settled(s, ix.store, fs[|fs| - 1], leaf, n, ix.snfree)
      invariant cblk != ZNULL ==> ix.height == H && Climbing(ix, sb, H, fs1, w1, freed, used', goal, cblk)
      invariant cblk == ZNULL ==> Mended(ix, sb, ix.height, used', goal)
      invariant if cblk != ZNULL then FilledIf(sb, ix.scroot, H, fs, ix.store, fs1, ix.lfkey)
                else RoutedIf(sb, ix.scroot, H, fs, ix.store, ix.height, ix.lfkey)
      invariant H - 1 <= ix.height <= H
      decreases if cblk == ZNULL then 0 else |fs1| + 1
    {
      ghost var H1, s1 := *, ix.store;
      FilledIfIs(sb, ix.scroot, H, fs, s1, fs1, ix.lfkey);
      cblk, H1, w1, freed, used' := Demote(ix, cblk, sb, H, fs1, w1, freed, used', goal);
      if cblk == ZNULL {
        ix.height := H1;
      }
      fs1 := if |fs1| > 0 then fs1[..|fs1| - 1] else [];
      FilledIfIs(sb, ix.scroot, H, fs, ix.store, fs1, ix.lfkey);
      RoutedIfIs(sb, ix.scroot, H, fs, ix.store, ix.height, ix.lfkey);
    }
    SettledIs(s, ix.store, fs[|fs| - 1], leaf, n, ix.snfree);
  }

  ghost predicate FilledIf(sb: Store, root: int, H: nat, fs: seq<Frame>, s: Store, fs1: seq<Frame>, key: int) {
    Aimed(sb, root, H, fs, key) ==> Filled(sb, s, root, H, fs1, key)
  }

  lemma FilledIfIs(sb: Store, root: int, H: nat, fs: seq<Frame>, s: Store, fs1: seq<Frame>, key: int)
    ensures FilledIf(sb, root, H, fs, s, fs1, key)
       <==> (Aimed(sb, root, H, fs, key) ==> Filled(sb, s, root, H, fs1, key))
  {
  }

  /** A join fills nothing above the leaves. */
  lemma JoinedFilled(ix: Index, sb: Store, H: nat, fs: seq<Frame>, w: seq<Entry>, freed: multiset<int>,
                     used: multiset<int>, goal: seq<Entry>, cblk: int)
    requires 0 < |fs| == H && Climbing(ix, sb, H, fs[..|fs| - 1], w, freed, used, goal, cblk)
    ensures FilledIf(sb, ix.scroot, H, fs, ix.store, fs[..|fs| - 1], ix.lfkey)
  {
    hide *;
    var front := fs[..|fs| - 1];
    ClimbingOpen(ix, sb, H, front, w, freed, used, goal, cblk);
    MendingFacts(sb, ix.store, ix.scroot, H, front, w, freed, goal);
    FilledIfIs(sb, ix.scroot, H, fs, ix.store, front, ix.lfkey);
    if Aimed(sb, ix.scroot, H, fs, ix.lfkey) {
      AimedUp(sb, ix.scroot, H, fs, ix.lfkey);
      FilledLow(sb, ix.store, ix.scroot, H, front, w, freed, ix.lfkey);
    }
  }

  /** bremky on the leaf and all that follows from it. */
  method TakeFromLeaf(ix: Index, ghost fs: seq<Frame>, ghost goal: seq<Entry>)
    requires Calm(ix)
    requires (ZMXKEY + 1) / 2 > ZTHRES
    requires Removing(ix, fs, goal)
    modifies ix`store, ix`sblkmx, ix`snfree, ix`sfreep, ix`free, ix`stk, ix`lfblk, ix`lfpos, ix`height, ix`busy
    ensures Calm(ix)
    ensures ix.Valid() && ix.Entries() == goal && ix.Contents() == ToMap(goal)
    ensures RoutedIf(old(ix.store), ix.scroot, old(ix.height), fs, ix.store, ix.height, ix.lfkey)
    ensures Kept(old(ix.store), ix.store, ix.scroot, ix.rest)
    ensures old(ix.height) - 1 <= ix.height <= old(ix.height)
    ensures old(ix.lfblk in ix.store) && 0 <= old(ix.lfpos) < old(ix.store[ix.lfblk]).nkeys <= ZMXKEY
    ensures var s := old(ix.store[ix.lfblk := RemKey(ix.store[ix.lfblk], ix.lfpos)]);
            if |fs| == 0 then ix.store == s && ix.snfree == old(ix.snfree)
            else Settled(s, ix.store, fs[|fs| - 1], old(ix.lfblk), old(ix.snfree), ix.snfree)
  {
    hide *;
    ghost var s, root, H, leaf, pos := ix.store, ix.scroot, ix.height, ix.lfblk, ix.lfpos;
    RemovingFacts(ix, fs, goal);
    PathTarget(s, root, H, fs);
    NodeKids(s, leaf, 0);
    CountKeys(s[leaf]);
    ghost var w := Keys(s[leaf])[..pos] + Keys(s[leaf])[pos + 1..];
    Remove(ix, ix.lfblk, ix.lfpos);
    TreeFacts(s, root, H);
    LeafHole(s, ix.store, root, H, fs, leaf, pos);
    TakenBooks(ix, s, fs, leaf, pos, w, goal);
    ghost var used := Blks(s, root, H) + multiset(ix.rest);
    var b := Read(ix, ix.lfblk);
    if b.btype != ZROOT {
      MakeAtLeaf(ix, s, H, fs, w, multiset{}, used, goal);
      used := RepairTree(ix, s, fs, w, used, goal);
    } else {
      CloseUp(ix, s, H, fs, w, multiset{}, used, goal);
      CloseLow(ix, s, H, fs, w, multiset{}, goal, ix.lfkey);
    }
    MendedFacts(ix, s, ix.height, used, goal);
    MakeValid(ix);
  }

  lemma MendedFacts(ix: Index, sb: Store, H: nat, used: multiset<int>, goal: seq<Entry>)
    requires Mended(ix, sb, H, used, goal)
    ensures TreeOK(ix.store, ix.scroot, H) && Ents(ix.store, ix.scroot, H) == goal && Sorted(goal)
    ensures AllocOK(ix.store, ix.sblkmx, ix.sfreep, ix.snfree, ix.free, Blks(ix.store, ix.scroot, H) + multiset(ix.rest))
    ensures Kept(sb, ix.store, ix.scroot, ix.rest)
  {
  }

  // ---------------------------------------------------------------------
  // bdelk1 and bdelky
  // ---------------------------------------------------------------------

  /** A map without one key. */
  ghost function Without(m: map<int, int>, key: int): map<int, int> {
    map k | k in m && k != key :: m[k]
  }

  lemma TakenMap(es: seq<Entry>, a: seq<Entry>, d: Entry, b: seq<Entry>)
    requires es == a + [d] + b && Sorted(a + b) && AllBelow(a, d.key) && AllAbove(b, d.key)
    ensures ToMap(a + b) == Without(ToMap(es), d.key) && d.key !in ToMap(a + b)
  {
    hide *;
    ToMapGap(a, d, b);
    WithoutIs(ToMap(es), d.key);
  }

  lemma WithoutIs(m: map<int, int>, key: int)
    ensures Without(m, key) == map k | k in m && k != key :: m[k]
  {
  }

  /** bdelk1 on a root without duplicates, with the context at the key to
      delete.  A key may be named, and then has to be the one there.  A refused
      delete changes nothing, neither the file nor the context. */
  method DeleteHere(ix: Index, key: int, named: bool, ghost front: seq<Frame>)
    returns (status: int, ghost front': seq<Frame>)
    requires Calm(ix)
    requires (ZMXKEY + 1) / 2 > ZTHRES
    requires ix.Valid() && ix.smode == 0
    requires ix.lfexct ==> Exact(ix, front) && Slack(ix)
    modifies ix`store, ix`sblkmx, ix`snfree, ix`sfreep, ix`free, ix`stk, ix`lfblk, ix`lfpos, ix`lfexct, ix`lfkey,
             ix`height, ix`busy
    ensures Calm(ix)
    ensures ix.Valid() && ix.lfkey == old(ix.lfkey)
    ensures !old(ix.lfexct) ==> status == QDELEX
    ensures old(ix.lfexct) && named && key != ix.lfkey ==> status == QDELER
    ensures old(ix.lfexct) && (named ==> key == ix.lfkey) ==> status == 0
    ensures old(ix.lfexct) ==> old(ix.lfblk in ix.store) && 0 <= old(ix.lfpos) < ZMXKEY
    ensures status == 0 ==>
              && ix.Contents() == Without(old(ix.Contents()), ix.lfkey) && ix.lfkey in old(ix.Contents())
              && Landed(ix, ix.Entries(), front', ix.lfkey, QNOKEY, 0) && !ix.lfexct
    ensures status != 0 ==> unchanged(ix) && (old(Slack(ix)) ==> Slack(ix))
    ensures old(ix.lfexct) && old(ix.store[ix.lfblk].link[ix.lfpos]) == ZNULL ==> Slack(ix)
    ensures Kept(old(ix.store), ix.store, ix.scroot, ix.rest)
  {
    assert QDELEX != 0 && QDELER != 0 && QNOKEY != 0;
    hide *;
    front' := front;
    ghost var s := ix.store;
    RestThere(ix);
    KeptRefl(s, ix.scroot, ix.rest);
    if !ix.lfexct {
      return QDELEX, front';
    }
    var pos, blk := ix.lfpos, ix.lfblk;
    ExactHere(ix, front);
    var e, llink, rlink, result := Fetch(ix, blk, pos);
    if named {
      if result != 0 || e.key != key {
        return QDELER, front';
      }
    }
    front' := DeleteEntry(ix, pos, blk, llink, rlink, front);
    status := 0;
  }

  /** The part of bdelk1 that follows the checks: the entry goes, and the key is
      searched for again. */
  method DeleteEntry(ix: Index, pos: int, blk: int, llink: int, rlink: int, ghost front: seq<Frame>)
    returns (ghost front': seq<Frame>)
    requires Calm(ix)
    requires (ZMXKEY + 1) / 2 > ZTHRES
    requires ix.Valid() && Slack(ix) && ix.smode == 0 && Exact(ix, front)
    requires blk == ix.lfblk && pos == ix.lfpos && blk in ix.store && 0 <= pos < ix.store[blk].nkeys <= ZMXKEY
    requires llink == ix.store[blk].link[pos] && rlink == ix.store[blk].link[pos + 1]
    modifies ix`store, ix`sblkmx, ix`snfree, ix`sfreep, ix`free, ix`stk, ix`lfblk, ix`lfpos, ix`lfexct, ix`lfkey,
             ix`height, ix`busy
    ensures Calm(ix)
    ensures ix.Valid() && ix.lfkey == old(ix.lfkey)
    ensures ix.Contents() == Without(old(ix.Contents()), ix.lfkey)
    ensures Landed(ix, ix.Entries(), front', ix.lfkey, QNOKEY, 0) && !ix.lfexct
    ensures |front| == old(ix.height) ==> Slack(ix)
    ensures Kept(old(ix.store), ix.store, ix.scroot, ix.rest)
  {
    hide *;
    ghost var s, H := ix.store, ix.height;
    TakeOut(ix, pos, blk, llink, rlink, front);
    ghost var s2 := ix.store;
    var found, val;
    NoKeyNow(ix);
    RoutedNow(ix);
    found, val, front' := FindKey(ix, ix.lfkey);
    KeptTrans(s, s2, ix.store, ix.scroot, ix.rest);
    NoValue(ix, ix.Entries(), front', ix.lfkey, val);
    SlackIs(ix);
  }

  lemma NoKeyNow(ix: Index)
    ensures QNOKEY != 0 && forall m: map<int, int>, k :: k !in Without(m, k)
  {
  }

  lemma RoutedNow(ix: Index)
    ensures Routed(ix.store, ix.scroot, ix.height, ix.lfkey) <==> FullAhead(ix, ix.lfkey)
  {
  }

  /** The entry goes, and the tree is repaired.  When the entry was in a leaf,
      the repair filled only blocks on the route of its key. */
  method TakeOut(ix: Index, pos: int, blk: int, llink: int, rlink: int, ghost front: seq<Frame>)
    requires Calm(ix)
    requires (ZMXKEY + 1) / 2 > ZTHRES
    requires ix.Valid() && Slack(ix) && Exact(ix, front)
    requires blk == ix.lfblk && pos == ix.lfpos && blk in ix.store && 0 <= pos < ix.store[blk].nkeys <= ZMXKEY
    requires llink == ix.store[blk].link[pos] && rlink == ix.store[blk].link[pos + 1]
    modifies ix`store, ix`sblkmx, ix`snfree, ix`sfreep, ix`free, ix`stk, ix`lfblk, ix`lfpos, ix`height, ix`busy
    ensures Calm(ix)
    ensures ix.Valid()
    ensures ix.Contents() == Without(old(ix.Contents()), ix.lfkey)
    ensures |front| == old(ix.height) ==> Routed(ix.store, ix.scroot, ix.height, ix.lfkey)
    ensures Kept(old(ix.store), ix.store, ix.scroot, ix.rest)
  {
    hide *;
    ghost var s, H := ix.store, ix.height;
    ExactHere(ix, front);
    SlackIs(ix);
    ghost var fs, a, d, b := TakeEntry(ix, pos, blk, llink, rlink, front);
    ghost var s1 := ix.store;
    TakeFromLeaf(ix, fs, a + b);
    TakenMap(a + [d] + b, a, d, b);
    KeptTrans(s, s1, ix.store, ix.scroot, ix.rest);
    RoutedIfIs(s1, ix.scroot, H, fs, ix.store, ix.height, ix.lfkey);
  }

  lemma ExactHere(ix: Index, front: seq<Frame>)
    requires ix.Valid() && Exact(ix, front)
    ensures ix.lfblk in ix.store && 0 <= ix.lfpos < ix.store[ix.lfblk].nkeys <= ZMXKEY
    ensures |Keys(ix.store[ix.lfblk])| == ix.store[ix.lfblk].nkeys && Keys(ix.store[ix.lfblk])[ix.lfpos].key == ix.lfkey
    ensures |Links(ix.store[ix.lfblk])| == ix.store[ix.lfblk].nkeys + 1
    ensures Links(ix.store[ix.lfblk])[ix.lfpos] == ix.store[ix.lfblk].link[ix.lfpos]
    ensures Links(ix.store[ix.lfblk])[ix.lfpos + 1] == ix.store[ix.lfblk].link[ix.lfpos + 1]
    ensures ix.lfkey in ix.Contents()
    ensures ix.Contents() == ToMap(ix.Entries())
    ensures |front| == ix.height <==> ix.store[ix.lfblk].link[ix.lfpos] == ZNULL
  {
    hide *;
    ExactFacts(ix, front);
    ValidFacts(ix);
    FoundFacts(ix.store, ix.scroot, ix.height, ix.Entries(), front, ix.lfblk, ix.lfpos, ix.lfkey);
    FoundInMap(ix.store, ix.scroot, ix.height, ix.Entries(), front, ix.lfblk, ix.lfpos, ix.lfkey);
    PathTarget(ix.store, ix.scroot, ix.height, front);
    NodeKids(ix.store, ix.lfblk, ix.height - |front|);
    LinksAt(ix.store[ix.lfblk]);
    MakeAtPos(ix.store, ix.scroot, ix.height, front, Frame(ix.lfblk, ix.lfpos));
    AtPosFacts(ix.store, ix.scroot, ix.height, front, Frame(ix.lfblk, ix.lfpos));
  }

  lemma LandedExact(ix: Index, front: seq<Frame>, key: int, val: int)
    requires Landed(ix, ix.Entries(), front, key, 0, val) && ix.lfkey == key
    ensures Exact(ix, front)
  {
    hide FoundAt, OnPath, AllocOK;
  }

  lemma ShortPath(ix: Index, es: seq<Entry>, front: seq<Frame>, key: int, val: int)
    requires Landed(ix, es, front, key, 0, val)
    ensures |front| <= ix.height
  {
    hide Ents, Blks, Lft, Rgt, PathOK, Sorted, AllBelow, AllAbove, AllocOK, OnPath;
  }

  /** bdelky in exclusive mode on a root without duplicates.  The result upper
      tells whether the search found the key above the leaves, which EndsAbove
      knows beforehand; only then may full non-leaf blocks stay behind. */
  method DeleteKey(ix: Index, key: int) returns (status: int, upper: bool, ghost front: seq<Frame>)
    requires Calm(ix)
    requires (ZMXKEY + 1) / 2 > ZTHRES
    requires ix.Valid() && Slack(ix)
    modifies ix`store, ix`sblkmx, ix`snfree, ix`sfreep, ix`free, ix`stk, ix`lfblk, ix`lfpos, ix`lfexct, ix`lfkey,
             ix`height, ix`busy
    ensures Calm(ix)
    ensures ix.Valid()
    ensures ix.smode != 0 ==> status == QNOWRT && unchanged(ix)
    ensures ix.smode == 0 ==> status == if key in old(ix.Contents()) then 0 else QNOKEY
    ensures ix.smode == 0 ==> ix.Contents() == Without(old(ix.Contents()), key)
    ensures ix.smode == 0 ==> Landed(ix, ix.Entries(), front, key, QNOKEY, 0) && !ix.lfexct && ix.lfkey == key
    ensures !upper ==> Slack(ix)
    ensures upper <==> ix.smode == 0 && old(EndsAbove(ix.store, ix.scroot, ix.height, key))
    ensures Kept(old(ix.store), ix.store, ix.scroot, ix.rest)
  {
    hide *;
    front := [];
    upper := false;
    RestThere(ix);
    KeptRefl(ix.store, ix.scroot, ix.rest);
    if ix.smode != 0 {
      status := QNOWRT;
    } else {
      ghost var s, m := ix.store, ix.Contents();
      var val;
      status, val, front := FindKey(ix, key);
      ghost var s1 := ix.store;
      if status == 0 {
        LandedExact(ix, front, key, val);
        ExactFacts(ix, front);
        ExactHere(ix, front);
        upper := ix.store[ix.lfblk].link[ix.lfpos] != ZNULL;
        ShortPath(ix, ix.Entries(), front, key, val);
        status, front := DeleteHere(ix, key, true, front);
        KeptTrans(s, s1, ix.store, ix.scroot, ix.rest);
      } else {
        WithoutNone(m, key);
        NoValue(ix, ix.Entries(), front, key, val);
      }
    }
  }

  lemma WithoutNone(m: map<int, int>, key: int)
    requires key !in m
    ensures Without(m, key) == m
  {
  }
}
