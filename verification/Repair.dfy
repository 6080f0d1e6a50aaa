/** Repairing a tree below a path: the state of a delete between the moment a
    key leaves a leaf and the moment every block has keys again.

    The base store sb is a whole tree.  In the current store s only blocks below
    the target of the path have changed; the target is a node that may have lost
    all its keys, holds w, and gave up the blocks in freed. */
module Repair {
  import opened Constants
  import opened Blocks
  import opened Seqs
  import opened Trees
  import opened Paths
  import opened Orders
  import opened Split
  import opened Find

  ghost predicate Hole(sb: Store, s: Store, root: int, H: nat, fs: seq<Frame>, w: seq<Entry>, freed: multiset<int>) {
    && TreeOK(sb, root, H) && PathOK(sb, root, H, fs) && |fs| <= H
    && var g, h := Target(sb, root, fs), H - |fs|;
       && Off(sb, s, Blks(sb, root, H), Blks(sb, g, h))
       && NodeOK(s, g, h) && g in sb && s[g].btype == sb[g].btype
       && Ents(s, g, h) == w
       && Blks(s, g, h) + freed == Blks(sb, g, h)
       && (h == 0 ==> NullLinks(s[g]))
  }

  /** What the repaired tree has to hold. */
  ghost function Goal(sb: Store, root: int, H: nat, fs: seq<Frame>, w: seq<Entry>): seq<Entry>
    requires PathOK(sb, root, H, fs)
  {
    Lft(sb, root, H, fs) + w + Rgt(sb, root, H, fs)
  }

  /** A target with keys, or a root leaf, closes the hole. */
  lemma Close(sb: Store, s: Store, root: int, H: nat, fs: seq<Frame>, w: seq<Entry>, freed: multiset<int>)
    requires Hole(sb, s, root, H, fs, w, freed)
    requires var g := Target(sb, root, fs); g in s && (s[g].nkeys >= 1 || H == 0)
    ensures TreeOK(s, root, H) && Ents(s, root, H) == Goal(sb, root, H, fs, w)
    ensures Blks(s, root, H) + freed == Blks(sb, root, H)
  {
    hide Ents, Blks, Lft, Rgt, Unique, NodeOK, KidOK, PathOK, Off;
    var g, h := Target(sb, root, fs), H - |fs|;
    PathTarget(sb, root, H, fs);
    if |fs| == 0 {
      PathNil(sb, root, H, fs);
      Unit(w);
      assert Goal(sb, root, H, fs, w) == w;
      UniqueLess(Blks(s, root, H), freed, Blks(sb, root, H));
    } else {
      Plug(sb, s, root, H, fs);
      KidType(sb, g, h);
      MakeKid(s, g, h);
      PathTarget(s, root, H, fs);
      FreedChain(Blks(sb, root, H), Blks(s, root, H), Blks(sb, g, h), Blks(s, g, h), freed);
      UniqueLess(Blks(s, root, H), freed, Blks(sb, root, H));
      RootStays(sb, s, root, H, fs);
    }
  }

  lemma UniqueLess(a: multiset<int>, b: multiset<int>, c: multiset<int>)
    requires a + b == c && Unique(c)
    ensures Unique(a)
  {
    forall x
      ensures a[x] <= 1
    {
      assert (a + b)[x] == c[x];
    }
  }

  lemma FreedChain(a: multiset<int>, a': multiset<int>, b: multiset<int>, b': multiset<int>, freed: multiset<int>)
    requires a' + b == a + b' && b' + freed == b
    ensures a' + freed == a
  {
    assert a' + freed + b == a' + b + freed == a + (b' + freed);
    Cancel(a' + freed, a, b);
  }

  lemma RootStays(sb: Store, s: Store, root: int, H: nat, fs: seq<Frame>)
    requires TreeOK(sb, root, H) && root in s && s[root] == sb[root]
    ensures s[root].btype == ZROOT && (H > 0 ==> s[root].nkeys >= 1)
  {
    hide Blks, Unique, NodeOK;
  }

  /** The parent of the hole: a node all of whose children but one are in order. */
  ghost predicate LooseNode(s: Store, f: Frame, hp: nat) {
    && hp > 0 && f.blk in s && 0 <= f.blk && 0 <= f.pos <= s[f.blk].nkeys <= ZMXKEY && s[f.blk].nkeys >= 1
    && KidsOK(s, Links(s[f.blk])[..f.pos], hp - 1) && KidsOK(s, Links(s[f.blk])[f.pos + 1..], hp - 1)
    && NodeOK(s, Child(s, f), hp - 1) && s[Child(s, f)].btype == ZINUSE && (hp == 1 ==> NullLinks(s[Child(s, f)]))
    && Unique(Blks(s, f.blk, hp))
  }

  /** Looking at the hole from its parent. */
  lemma Lift(sb: Store, s: Store, root: int, H: nat, fs: seq<Frame>, w: seq<Entry>, freed: multiset<int>)
    requires Hole(sb, s, root, H, fs, w, freed) && |fs| > 0
    ensures var f, hp := fs[|fs| - 1], H - |fs| + 1;
            && LooseNode(s, f, hp) && Child(s, f) == Target(sb, root, fs)
            && f.blk in sb && s[f.blk] == sb[f.blk] && 0 <= f.pos <= Count(sb[f.blk])
            && Ents(s, f.blk, hp) == PreAt(sb, f, hp) + w + SufAt(sb, f, hp)
            && Blks(s, f.blk, hp) + freed == Blks(sb, f.blk, hp)
            && Off(sb, s, Blks(sb, root, H), Blks(sb, f.blk, hp))
            && Off(sb, s, Blks(sb, f.blk, hp), Blks(sb, Child(s, f), hp - 1))
            && (|fs| > 1 ==> s[f.blk].btype == ZINUSE)
  {
    hide *;
    HoleFacts(sb, s, root, H, fs, w, freed);
    var front, f, hp := fs[..|fs| - 1], fs[|fs| - 1], H - |fs| + 1;
    var g := Target(sb, root, fs);
    PathStep(sb, root, H, fs);
    PathTarget(sb, root, H, front);
    NodeKids(sb, f.blk, hp);
    NodeChildOK(sb, f, hp);
    KidType(sb, g, hp - 1);
    NodeParts(sb, f, hp);
    OffUp(sb, s, Blks(sb, root, H), Blks(sb, f.blk, hp), Blks(sb, g, hp - 1));
    PlugNode(sb, s, f, hp);
    NodeParts(s, f, hp);
    BlksLift(Blks(s, f.blk, hp), Blks(sb, f.blk, hp), Blks(s, g, hp - 1), Blks(sb, g, hp - 1), freed);
    UniqueLess(Blks(s, f.blk, hp), freed, Blks(sb, f.blk, hp));
    LiftKids(sb, s, f, hp);
    if |front| > 0 {
      KidType(sb, f.blk, hp);
    } else {
      PathNil(sb, root, H, front);
    }
    MakeLoose(s, f, hp);
  }

  lemma HoleFacts(sb: Store, s: Store, root: int, H: nat, fs: seq<Frame>, w: seq<Entry>, freed: multiset<int>)
    requires Hole(sb, s, root, H, fs, w, freed)
    ensures NodeOK(sb, root, H) && Unique(Blks(sb, root, H)) && PathOK(sb, root, H, fs) && |fs| <= H
    ensures root in sb && (H > 0 ==> sb[root].nkeys >= 1) && sb[root].btype == ZROOT
    ensures var g, h := Target(sb, root, fs), H - |fs|;
       && Off(sb, s, Blks(sb, root, H), Blks(sb, g, h))
       && NodeOK(s, g, h) && g in sb && g in s && s[g].btype == sb[g].btype
       && Ents(s, g, h) == w
       && Blks(s, g, h) + freed == Blks(sb, g, h)
       && (h == 0 ==> NullLinks(s[g]))
  {
    hide Ents, Blks, Unique, PathOK, Off, NullLinks;
  }

  /** The part of it that concerns single blocks. */
  lemma HoleBase(sb: Store, s: Store, root: int, H: nat, fs: seq<Frame>, w: seq<Entry>, freed: multiset<int>)
    requires Hole(sb, s, root, H, fs, w, freed)
    ensures NodeOK(sb, root, H) && PathOK(sb, root, H, fs) && |fs| <= H && root in sb && sb[root].btype == ZROOT
    ensures var g := Target(sb, root, fs); NodeOK(s, g, H - |fs|) && g in sb && g in s && s[g].btype == sb[g].btype
  {
    hide Ents, Blks, Unique, PathOK, Off, NullLinks;
  }

  lemma BlksLift(a: multiset<int>, a0: multiset<int>, b: multiset<int>, b0: multiset<int>, freed: multiset<int>)
    requires a + b0 == a0 + b && b + freed == b0
    ensures a + freed == a0
  {
    assert a + freed + b == a0 + b;
    Cancel(a + freed, a0, b);
  }

  lemma LiftKids(sb: Store, s: Store, f: Frame, h: nat)
    requires h > 0 && NodeOK(sb, f.blk, h) && 0 <= f.pos <= sb[f.blk].nkeys
    requires Unique(Blks(sb, f.blk, h))
    requires Off(sb, s, Blks(sb, f.blk, h), Blks(sb, Child(sb, f), h - 1))
    ensures KidsOK(s, Links(sb[f.blk])[..f.pos], h - 1) && KidsOK(s, Links(sb[f.blk])[f.pos + 1..], h - 1)
  {
    hide *;
    NodeKids(sb, f.blk, h);
    CountKeys(sb[f.blk]);
    var ls, pos := Links(sb[f.blk]), f.pos;
    var c := Child(sb, f);
    var la, lb := ls[..pos], ls[pos + 1..];
    NodeParts(sb, f, h);
    OffSame(sb, s, Blks(sb, f.blk, h), Blks(sb, c, h - 1), BlksOf(sb, la, h - 1));
    OffSame(sb, s, Blks(sb, f.blk, h), Blks(sb, c, h - 1), BlksOf(sb, lb, h - 1));
    assert ls == la + [ls[pos]] + lb;
    KidsParts(sb, la, [ls[pos]], lb, h - 1);
    KidsFrame(sb, s, la, h - 1);
    KidsFrame(sb, s, lb, h - 1);
  }

  lemma MakeLoose(s: Store, f: Frame, hp: nat)
    requires hp > 0 && f.blk in s && 0 <= f.blk && 0 <= f.pos <= s[f.blk].nkeys <= ZMXKEY && s[f.blk].nkeys >= 1
    requires KidsOK(s, Links(s[f.blk])[..f.pos], hp - 1) && KidsOK(s, Links(s[f.blk])[f.pos + 1..], hp - 1)
    requires NodeOK(s, Child(s, f), hp - 1) && Child(s, f) in s && s[Child(s, f)].btype == ZINUSE
    requires hp == 1 ==> NullLinks(s[Child(s, f)])
    requires Unique(Blks(s, f.blk, hp))
    ensures LooseNode(s, f, hp)
  {
  }

  /** A parent in order again is the new hole, one frame up. */
  lemma Settle(sb: Store, s: Store, s': Store, root: int, H: nat, fs: seq<Frame>, w: seq<Entry>,
               freed: multiset<int>, extra: multiset<int>)
    requires Hole(sb, s, root, H, fs, w, freed) && |fs| > 0
    requires var f, hp := fs[|fs| - 1], H - |fs| + 1;
             && f.blk in s && f.blk in s' && s'[f.blk].btype == s[f.blk].btype
             && NodeOK(s', f.blk, hp) && Ents(s', f.blk, hp) == Ents(s, f.blk, hp)
             && Blks(s', f.blk, hp) + extra == Blks(s, f.blk, hp)
             && (forall x :: x in s && x !in Blks(s, f.blk, hp) ==> x in s' && s'[x] == s[x])
    ensures var f, hp, front := fs[|fs| - 1], H - |fs| + 1, fs[..|fs| - 1];
            && PathOK(sb, root, H, fs) && PathOK(sb, root, H, front)
            && f.blk in sb && 0 <= f.pos <= Count(sb[f.blk])
            && var w' := PreAt(sb, f, hp) + w + SufAt(sb, f, hp);
               && Hole(sb, s', root, H, front, w', freed + extra)
               && Goal(sb, root, H, front, w') == Goal(sb, root, H, fs, w)
  {
    hide *;
    HoleFacts(sb, s, root, H, fs, w, freed);
    Lift(sb, s, root, H, fs, w, freed);
    PathStep(sb, root, H, fs);
    var front, f, hp := fs[..|fs| - 1], fs[|fs| - 1], H - |fs| + 1;
    var w' := PreAt(sb, f, hp) + w + SufAt(sb, f, hp);
    OffAfter(sb, s, s', Blks(sb, root, H), Blks(sb, f.blk, hp), Blks(s, f.blk, hp), freed);
    BlksAfter(Blks(s', f.blk, hp), extra, Blks(s, f.blk, hp), freed, Blks(sb, f.blk, hp));
    MakeHole(sb, s', root, H, front, w', freed + extra);
    GoalUp(sb, root, H, fs, w);
  }

  lemma OffAfter(sb: Store, s: Store, s': Store, all: multiset<int>, mb: multiset<int>, m: multiset<int>,
                 freed: multiset<int>)
    requires Off(sb, s, all, mb) && m + freed == mb
    requires forall x :: x in s && x !in m ==> x in s' && s'[x] == s[x]
    ensures Off(sb, s', all, mb)
  {
    forall x | x in all && x !in mb
      ensures x in s' && x in sb && s'[x] == sb[x]
    {
      assert (m + freed)[x] == mb[x];
    }
  }

  lemma BlksAfter(a: multiset<int>, extra: multiset<int>, m: multiset<int>, freed: multiset<int>, mb: multiset<int>)
    requires a + extra == m && m + freed == mb
    ensures a + (freed + extra) == mb
  {
  }

  lemma MakeHole(sb: Store, s: Store, root: int, H: nat, fs: seq<Frame>, w: seq<Entry>, freed: multiset<int>)
    requires NodeOK(sb, root, H) && Unique(Blks(sb, root, H)) && PathOK(sb, root, H, fs) && |fs| <= H
    requires root in sb && (H > 0 ==> sb[root].nkeys >= 1) && sb[root].btype == ZROOT
    requires var g, h := Target(sb, root, fs), H - |fs|;
       && Off(sb, s, Blks(sb, root, H), Blks(sb, g, h))
       && NodeOK(s, g, h) && g in sb && g in s && s[g].btype == sb[g].btype
       && Ents(s, g, h) == w
       && Blks(s, g, h) + freed == Blks(sb, g, h)
       && (h == 0 ==> NullLinks(s[g]))
    ensures Hole(sb, s, root, H, fs, w, freed)
  {
    hide Ents, Blks, Unique, PathOK, Off, NodeOK, NullLinks;
  }

  lemma GoalUp(sb: Store, root: int, H: nat, fs: seq<Frame>, w: seq<Entry>)
    requires PathOK(sb, root, H, fs) && |fs| > 0
    ensures var f, hp, front := fs[|fs| - 1], H - |fs| + 1, fs[..|fs| - 1];
            && |fs| <= H && PathOK(sb, root, H, front) && f.blk in sb && 0 <= f.pos <= Count(sb[f.blk])
            && Goal(sb, root, H, front, PreAt(sb, f, hp) + w + SufAt(sb, f, hp)) == Goal(sb, root, H, fs, w)
  {
    hide PathOK, Lft, Rgt, PreAt, SufAt;
    PathStep(sb, root, H, fs);
    var f, hp, front := fs[|fs| - 1], H - |fs| + 1, fs[..|fs| - 1];
    PathArith(Lft(sb, root, H, front), PreAt(sb, f, hp), w, SufAt(sb, f, hp), Rgt(sb, root, H, front));
  }

  // ---------------------------------------------------------------------
  // Two children become one
  // ---------------------------------------------------------------------

  /** Children i and i + 1 of block p, and the key between them. */
  ghost predicate Neighbours(s: Store, p: int, i: nat, l: int, r: int, k: Entry) {
    p in s && 0 <= s[p].nkeys <= ZMXKEY && i < s[p].nkeys && Links(s[p])[i] == l && Links(s[p])[i + 1] == r
    && Keys(s[p])[i] == k
  }

  /** Everything about p and its children but two neighbours l and r is in
      order, and the two are nodes. */
  ghost predicate LoosePair(s: Store, p: int, hp: nat, i: nat, l: int, r: int, k: Entry) {
    && hp > 0 && 0 <= p && Neighbours(s, p, i, l, r, k)
    && KidsOK(s, Links(s[p])[..i], hp - 1) && KidsOK(s, Links(s[p])[i + 2..], hp - 1)
    && NodeOK(s, l, hp - 1) && NodeOK(s, r, hp - 1)
    && s[l].btype == ZINUSE && s[r].btype == ZINUSE
    && (hp == 1 ==> NullLinks(s[l]) && NullLinks(s[r]))
    && Unique(Blks(s, p, hp))
  }

  lemma PairSlices(s: Store, p: int, i: nat, l: int, r: int, k: Entry)
    requires Neighbours(s, p, i, l, r, k)
    ensures p in s && i < |Keys(s[p])| && |Links(s[p])| == |Keys(s[p])| + 1
    ensures Keys(s[p]) == Keys(s[p])[..i] + [k] + Keys(s[p])[i + 1..]
    ensures Links(s[p]) == Links(s[p])[..i] + [l, r] + Links(s[p])[i + 2..]
  {
  }

  /** A node seen around two neighbouring children. */
  lemma PairParts(s: Store, p: int, hp: nat, i: nat, l: int, r: int, k: Entry)
    requires hp > 0 && Neighbours(s, p, i, l, r, k)
    ensures var ks, ls := Keys(s[p]), Links(s[p]);
            && Ents(s, p, hp) == PreOf(s, ks[..i], ls[..i], hp) + (Ents(s, l, hp - 1) + [k] + Ents(s, r, hp - 1))
                                 + SufOf(s, ks[i + 1..], ls[i + 2..], hp)
            && Blks(s, p, hp) == multiset{p} + BlksOf(s, ls[..i], hp - 1)
                                 + (Blks(s, l, hp - 1) + Blks(s, r, hp - 1)) + BlksOf(s, ls[i + 2..], hp - 1)
            && ks == ks[..i] + [k] + ks[i + 1..] && ls == ls[..i] + [l, r] + ls[i + 2..]
  {
    hide *;
    PairSlices(s, p, i, l, r, k);
    var ks, ls := Keys(s[p]), Links(s[p]);
    EntsNode(s, p, hp);
    BlksNode(s, p, hp);
    Parts(s, ks[..i], ls[..i], [k], [l, r], ks[i + 1..], ls[i + 2..], hp);
    KidsTwo(s, k, l, r, hp - 1);
    BlksParts(s, ls[..i], [l, r], ls[i + 2..], hp - 1);
  }

  /** l took over what k and r held, r is gone, and p lost key i. */
  ghost predicate Merged(s: Store, s': Store, p: int, i: nat, l: int, r: int, k: Entry, hc: nat) {
    && p in s && p in s' && i < s[p].nkeys <= ZMXKEY && s'[p] == RemKey(s[p], i)
    && l != p && l != r && r != p
    && KidOK(s', l, hc)
    && Ents(s', l, hc) == Ents(s, l, hc) + [k] + Ents(s, r, hc)
    && Blks(s', l, hc) + multiset{r} == Blks(s, l, hc) + Blks(s, r, hc)
    && forall x :: x in s && x != p && x != l && x != r ==> x in s' && s'[x] == s[x]
  }

  lemma MergeStep(s: Store, s': Store, p: int, hp: nat, i: nat, l: int, r: int, k: Entry)
    requires LoosePair(s, p, hp, i, l, r, k) && Merged(s, s', p, i, l, r, k, hp - 1)
    ensures NodeOK(s', p, hp) && Ents(s', p, hp) == Ents(s, p, hp)
    ensures Blks(s', p, hp) + multiset{r} == Blks(s, p, hp)
    ensures p in s && p in s' && s'[p].btype == s[p].btype && s'[p].nkeys == s[p].nkeys - 1
    ensures s'[p].nkeys == 0 ==> Links(s'[p]) == [l]
  {
    hide *;
    PairFacts(s, p, hp, i, l, r, k);
    MergedFacts(s, s', p, i, l, r, k, hp - 1);
    var ks, ls := Keys(s[p]), Links(s[p]);
    var ka, la, kb, lb := ks[..i], ls[..i], ks[i + 1..], ls[i + 2..];
    PairParts(s, p, hp, i, l, r, k);
    PairSame(s, s', p, l, r, hp, la, lb, Blks(s, l, hp - 1), Blks(s, r, hp - 1));
    MergedLinks(s[p], i, l);
    Window(s, s', ka, la, [l, r], [], [l], kb, lb, hp);
    BetweenOne(s', l, hp);
    BlksOne(s', l, hp - 1);
    KidsTwo(s, k, l, r, hp - 1);
    EntsNode(s', p, hp);
    BlksNode(s, p, hp);
    BlksNode(s', p, hp);
    MergedKids(s, s', la, l, lb, hp - 1);
    MakeNode(s', p, hp);
    MergedBlks(BlksOf(s', la + [l] + lb, hp - 1), BlksOf(s, [l, r], hp - 1), BlksOf(s, ls, hp - 1),
               Blks(s', l, hp - 1), multiset{r});
  }

  lemma PairFacts(s: Store, p: int, hp: nat, i: nat, l: int, r: int, k: Entry)
    requires LoosePair(s, p, hp, i, l, r, k)
    ensures hp > 0 && p in s && 0 <= p && Neighbours(s, p, i, l, r, k)
    ensures i < s[p].nkeys <= ZMXKEY && |Keys(s[p])| == s[p].nkeys && |Links(s[p])| == s[p].nkeys + 1
    ensures KidsOK(s, Links(s[p])[..i], hp - 1) && KidsOK(s, Links(s[p])[i + 2..], hp - 1)
    ensures NodeOK(s, l, hp - 1) && NodeOK(s, r, hp - 1) && l in s && r in s && 0 <= l && 0 <= r
    ensures 0 <= s[l].nkeys <= ZMXKEY && 0 <= s[r].nkeys <= ZMXKEY
    ensures s[l].btype == ZINUSE && s[r].btype == ZINUSE
    ensures hp == 1 ==> NullLinks(s[l]) && NullLinks(s[r])
    ensures Unique(Blks(s, p, hp))
    ensures l in Blks(s, l, hp - 1) && r in Blks(s, r, hp - 1)
  {
    hide Blks, Unique;
    NodeKids(s, l, hp - 1);
    NodeKids(s, r, hp - 1);
    BlksNode(s, l, hp - 1);
    BlksNode(s, r, hp - 1);
  }

  lemma MergedFacts(s: Store, s': Store, p: int, i: nat, l: int, r: int, k: Entry, hc: nat)
    requires Merged(s, s', p, i, l, r, k, hc)
    ensures p in s && p in s' && i < s[p].nkeys <= ZMXKEY && s'[p] == RemKey(s[p], i)
    ensures s'[p].nkeys == s[p].nkeys - 1 && s'[p].btype == s[p].btype
    ensures KidOK(s', l, hc) && Ents(s', l, hc) == Ents(s, l, hc) + [k] + Ents(s, r, hc)
    ensures Blks(s', l, hc) + multiset{r} == Blks(s, l, hc) + Blks(s, r, hc)
    ensures forall x :: x in s && x != p && x != l && x != r ==> x in s' && s'[x] == s[x]
    ensures l != p && l != r && r != p
  {
    hide Ents, Blks, KidOK;
  }

  /** What is beside the pair does not change with it. */
  lemma PairSame(s: Store, s': Store, p: int, l: int, r: int, hp: nat, la: seq<int>, lb: seq<int>,
                 bl: multiset<int>, br: multiset<int>)
    requires hp > 0 && KidsOK(s, la, hp - 1) && KidsOK(s, lb, hp - 1)
    requires Unique(multiset{p} + BlksOf(s, la, hp - 1) + (bl + br) + BlksOf(s, lb, hp - 1))
    requires l in bl && r in br
    requires forall x :: x in s && x != p && x != l && x != r ==> x in s' && s'[x] == s[x]
    ensures Same(s, s', BlksOf(s, la, hp - 1)) && Same(s, s', BlksOf(s, lb, hp - 1))
  {
    hide BlksOf, KidsOK;
    var ma, mb := BlksOf(s, la, hp - 1), BlksOf(s, lb, hp - 1);
    forall x | x in ma || x in mb
      ensures x in s && x != p && x != l && x != r
    {
      assert (multiset{p} + ma + (bl + br) + mb)[x] <= 1;
      if x in ma {
        BlksOfAllocated(s, la, hp - 1, x);
      } else {
        BlksOfAllocated(s, lb, hp - 1, x);
      }
    }
  }

  lemma MergedLinks(b: Block, i: nat, l: int)
    requires i < b.nkeys <= ZMXKEY && Links(b)[i] == l
    ensures Keys(RemKey(b, i)) == Keys(b)[..i] + [] + Keys(b)[i + 1..]
    ensures Links(RemKey(b, i)) == Links(b)[..i] + [l] + Links(b)[i + 2..]
    ensures 0 <= RemKey(b, i).nkeys <= ZMXKEY
    ensures b.nkeys == 1 ==> Links(RemKey(b, i)) == [l]
  {
    hide RemKey;
    RemKeyView(b, i);
    assert Links(b)[..i + 1] == Links(b)[..i] + [l];
    RemKeyCount(b, i);
  }

  lemma RemKeyCount(b: Block, i: nat)
    requires i < b.nkeys <= ZMXKEY
    ensures RemKey(b, i).nkeys == b.nkeys - 1 && RemKey(b, i).btype == b.btype
  {
  }

  lemma MergedKids(s: Store, s': Store, la: seq<int>, l: int, lb: seq<int>, h: nat)
    requires KidsOK(s, la, h) && KidsOK(s, lb, h) && KidOK(s', l, h)
    requires Same(s, s', BlksOf(s, la, h)) && Same(s, s', BlksOf(s, lb, h))
    ensures KidsOK(s', la + [l] + lb, h)
  {
    hide *;
    KidsFrame(s, s', la, h);
    KidsFrame(s, s', lb, h);
    KidsSingle(s', l, h);
    KidsParts(s', la, [l], lb, h);
  }

  lemma MergedBlks(x: multiset<int>, lr: multiset<int>, y: multiset<int>, l': multiset<int>, r: multiset<int>)
    requires x + lr == y + l' && l' + r == lr
    ensures x + r == y
  {
    assert x + r + l' == x + (l' + r) == y + l';
    Cancel(x + r, y, l');
  }

  /** The hole and a sister beside it. */
  lemma PairOfLoose(s: Store, f: Frame, hp: nat, i: nat)
    requires LooseNode(s, f, hp) && i < s[f.blk].nkeys && (f.pos == i || f.pos == i + 1)
    ensures var l, r := Links(s[f.blk])[i], Links(s[f.blk])[i + 1];
            && LoosePair(s, f.blk, hp, i, l, r, Keys(s[f.blk])[i])
            && (f.pos == i ==> l == Child(s, f) && KidOK(s, r, hp - 1))
            && (f.pos == i + 1 ==> r == Child(s, f) && KidOK(s, l, hp - 1))
  {
    hide NodeOK, KidOK, Blks, Unique, NullLinks;
    var ls := Links(s[f.blk]);
    if f.pos == i {
      assert KidOK(s, ls[i + 1..][0], hp - 1);
      KidType(s, ls[i + 1], hp - 1);
      KidNulls(s, ls[i + 1], hp - 1);
      assert ls[i + 1..][1..] == ls[i + 2..];
      KidsCutFirst(s, ls[i + 1..], hp - 1);
    } else {
      assert KidOK(s, ls[..i + 1][i], hp - 1);
      KidType(s, ls[i], hp - 1);
      KidNulls(s, ls[i], hp - 1);
      assert ls[..i + 1][..i] == ls[..i];
      KidsCutLast(s, ls[..i + 1], hp - 1);
    }
  }

  lemma KidNulls(s: Store, b: int, h: nat)
    requires KidOK(s, b, h)
    ensures b in s && (h == 0 ==> NullLinks(s[b]))
  {
    hide NullLinks;
  }

  lemma KidsCutFirst(s: Store, ls: seq<int>, h: nat)
    requires KidsOK(s, ls, h) && |ls| > 0
    ensures KidsOK(s, ls[1..], h)
  {
    hide KidOK;
    assert forall i :: 0 <= i < |ls| - 1 ==> ls[1..][i] == ls[i + 1];
  }

  lemma KidsCutLast(s: Store, ls: seq<int>, h: nat)
    requires KidsOK(s, ls, h) && |ls| > 0
    ensures KidsOK(s, ls[..|ls| - 1], h)
  {
    hide KidOK;
    assert forall i :: 0 <= i < |ls| - 1 ==> ls[..|ls| - 1][i] == ls[i];
  }

  /** The two children of a pair are apart from each other and from p, and the
      key between them is between their keys. */
  lemma PairApart(s: Store, p: int, hp: nat, i: nat, l: int, r: int, k: Entry)
    requires LoosePair(s, p, hp, i, l, r, k)
    ensures l != p && r != p && l != r
    ensures Unique(multiset{p} + (Blks(s, l, hp - 1) + Blks(s, r, hp - 1)))
    ensures Sorted(Ents(s, p, hp)) ==>
              AllBelow(Ents(s, l, hp - 1), k.key) && AllAbove(Ents(s, r, hp - 1), k.key)
              && AllBelow(Keys(s[l]), k.key) && AllAbove(Keys(s[r]), k.key)
  {
    hide *;
    PairFacts(s, p, hp, i, l, r, k);
    PairParts(s, p, hp, i, l, r, k);
    var ks, ls := Keys(s[p]), Links(s[p]);
    var bl, br := Blks(s, l, hp - 1), Blks(s, r, hp - 1);
    UniqueParts(p, BlksOf(s, ls[..i], hp - 1), bl, br, BlksOf(s, ls[i + 2..], hp - 1), l, r);
    if Sorted(Ents(s, p, hp)) {
      var a, b := PreOf(s, ks[..i], ls[..i], hp), SufOf(s, ks[i + 1..], ls[i + 2..], hp);
      SortedThree(a, Ents(s, l, hp - 1) + [k] + Ents(s, r, hp - 1), b);
      assert k in [k];
      InMiddle(Ents(s, l, hp - 1), [k], Ents(s, r, hp - 1), k);
      EntsNode(s, l, hp - 1);
      EntsNode(s, r, hp - 1);
      BetweenBounds(s, Keys(s[l]), Links(s[l]), hp - 1, k.key);
      BetweenBounds(s, Keys(s[r]), Links(s[r]), hp - 1, k.key);
      CountKeys(s[l]);
      CountKeys(s[r]);
    }
  }

  lemma BetweenBounds(s: Store, ks: seq<Entry>, ls: seq<int>, h: nat, k: int)
    requires |ls| == |ks| + 1
    ensures AllBelow(Between(s, ks, ls, h), k) ==> AllBelow(ks, k)
    ensures AllAbove(Between(s, ks, ls, h), k) ==> AllAbove(ks, k)
  {
    hide Between;
    forall j | 0 <= j < |ks|
      ensures ks[j] in Between(s, ks, ls, h)
    {
      KeysWithin(s, ks, ls, h, j);
    }
  }

  lemma UniqueParts(p: int, ma: multiset<int>, bl: multiset<int>, br: multiset<int>, mb: multiset<int>, l: int, r: int)
    requires Unique(multiset{p} + ma + (bl + br) + mb) && l in bl && r in br
    ensures l != p && r != p && l != r
    ensures Unique(multiset{p} + (bl + br))
  {
    forall x
      ensures (multiset{p} + (bl + br))[x] <= 1
    {
      assert (multiset{p} + ma + (bl + br) + mb)[x] <= 1;
    }
    assert (multiset{p} + (bl + br))[l] <= 1 && (multiset{p} + (bl + br))[r] <= 1;
  }

  // ---------------------------------------------------------------------
  // bjoin: two leaves
  // ---------------------------------------------------------------------

  function JoinedLeaf(lb: Block, rb: Block, k: Entry): Block
    requires 0 <= lb.nkeys && 0 <= rb.nkeys && lb.nkeys + 1 + rb.nkeys <= ZMXKEY
  {
    var l1 := PutKey(lb, k, ZNULL, ZNULL);
    CopyKeys(l1, rb, lb.nkeys + 1, 0, rb.nkeys).(nkeys := lb.nkeys + 1 + rb.nkeys)
  }

  lemma JoinedView(lb: Block, rb: Block, k: Entry)
    requires 0 <= lb.nkeys && 0 <= rb.nkeys && lb.nkeys + 1 + rb.nkeys <= ZMXKEY
    requires AllBelow(Keys(lb), k.key)
    requires forall j :: 0 <= j < |Links(lb)| ==> Links(lb)[j] == ZNULL
    requires forall j :: 0 <= j < |Links(rb)| ==> Links(rb)[j] == ZNULL
    ensures var c := JoinedLeaf(lb, rb, k);
            && Keys(c) == Keys(lb) + [k] + Keys(rb) && c.btype == lb.btype && c.nkeys == lb.nkeys + 1 + rb.nkeys
            && forall j :: 0 <= j < |Links(c)| ==> Links(c)[j] == ZNULL
  {
    hide PutKey, CopyKeys, AllBelow;
    var n := lb.nkeys;
    var l1 := PutKey(lb, k, ZNULL, ZNULL);
    NoneAbove(lb, k.key);
    PutLeafAt(lb, k, n);
    assert Keys(lb)[..n] == Keys(lb) && Keys(lb)[n..] == [];
    Unit(Keys(lb) + [k]);
    LinksNull(l1);
    LinksNull(rb);
    CopyAppendLeafView(l1, rb);
    CopyType(l1, rb, n + 1, 0, rb.nkeys);
  }

  lemma NoneAbove(b: Block, k: int)
    requires 0 <= b.nkeys <= ZMXKEY && AllBelow(Keys(b), k)
    ensures AllBelow(Keys(b)[..b.nkeys], k) && AllAbove(Keys(b)[b.nkeys..], k)
  {
  }

  lemma PutLeafAt(b: Block, e: Entry, q: nat)
    requires 0 <= b.nkeys < ZMXKEY && q <= b.nkeys
    requires AllBelow(Keys(b)[..q], e.key) && AllAbove(Keys(b)[q..], e.key)
    requires forall i :: 0 <= i < |Links(b)| ==> Links(b)[i] == ZNULL
    ensures var c := PutKey(b, e, ZNULL, ZNULL);
            && Keys(c) == Keys(b)[..q] + [e] + Keys(b)[q..] && c.nkeys == b.nkeys + 1 && c.btype == b.btype
            && forall i :: 0 <= i < |Links(c)| ==> Links(c)[i] == ZNULL
  {
    hide AllBelow, AllAbove;
    PutLeaf(b, e, q);
    PutCount(b, e, ZNULL, ZNULL);
  }

  lemma PutCount(b: Block, e: Entry, link1: int, link2: int)
    requires 0 <= b.nkeys < ZMXKEY
    ensures PutKey(b, e, link1, link2).nkeys == b.nkeys + 1 && PutKey(b, e, link1, link2).btype == b.btype
  {
  }

  lemma CopyType(t: Block, f: Block, ts: nat, fs: nat, n: nat)
    requires ts + n <= ZMXKEY && fs + n <= ZMXKEY
    ensures CopyKeys(t, f, ts, fs, n).btype == t.btype && CopyKeys(t, f, ts, fs, n).nkeys == t.nkeys
  {
  }

  lemma LinksNull(b: Block)
    requires 0 <= b.nkeys <= ZMXKEY && forall j :: 0 <= j < |Links(b)| ==> Links(b)[j] == ZNULL
    ensures forall j :: 0 <= j <= b.nkeys ==> b.link[j] == ZNULL
  {
    assert forall j :: 0 <= j <= b.nkeys ==> Links(b)[j] == b.link[j];
  }

  /** What a join of two leaves does to the store: the key leaves the parent, and
      everything is in the left leaf; what becomes of the right one is left open. */
  ghost predicate JoinedStore(s: Store, s': Store, p: int, i: nat, l: int, r: int, k: Entry) {
    && p in s && l in s && r in s && p in s' && l in s'
    && i < s[p].nkeys <= ZMXKEY && 0 <= s[l].nkeys && 0 <= s[r].nkeys && s[l].nkeys + 1 + s[r].nkeys <= ZMXKEY
    && s'[p] == RemKey(s[p], i) && s'[l] == JoinedLeaf(s[l], s[r], k)
    && (forall x :: x in s' <==> x in s)
    && (forall x :: x in s && x != p && x != l && x != r ==> s'[x] == s[x])
  }

  lemma JoinMerges(s: Store, s': Store, p: int, i: nat, l: int, r: int, k: Entry)
    requires LoosePair(s, p, 1, i, l, r, k) && Sorted(Ents(s, p, 1))
    requires JoinedStore(s, s', p, i, l, r, k)
    ensures Merged(s, s', p, i, l, r, k, 0)
  {
    hide Ents, Blks, NodeOK, KidOK, Sorted, JoinedLeaf, RemKey, AllBelow, AllAbove, Unique, Keys, Links;
    PairFacts(s, p, 1, i, l, r, k);
    PairApart(s, p, 1, i, l, r, k);
    hide NullLinks;
    NullAll(s[l]);
    NullAll(s[r]);
    NodeKids(s, l, 0);
    NodeKids(s, r, 0);
    JoinedView(s[l], s[r], k);
    EntsNode(s, l, 0);
    EntsNode(s, r, 0);
    EntsNode(s', l, 0);
    BlksNode(s, l, 0);
    BlksNode(s, r, 0);
    BlksNode(s', l, 0);
    MakeNode(s', l, 0);
    MakeKid(s', l, 0);
  }

  // ---------------------------------------------------------------------
  // bdemte: a non-leaf block without keys and its sister
  // ---------------------------------------------------------------------

  /** A block without keys is just a link to its only child. */
  lemma EmptyNode(s: Store, e: int, h: nat, orphan: int)
    requires h > 0 && NodeOK(s, e, h) && e in s && s[e].nkeys == 0 && Links(s[e]) == [orphan]
    ensures Ents(s, e, h) == Ents(s, orphan, h - 1)
    ensures Blks(s, e, h) == multiset{e} + Blks(s, orphan, h - 1)
    ensures KidOK(s, orphan, h - 1) && 0 <= orphan && orphan in s
  {
    hide *;
    EntsNode(s, e, h);
    BlksNode(s, e, h);
    NodeKids(s, e, h);
    NoKeys(s[e]);
    BetweenOne(s, orphan, h);
    BlksOne(s, orphan, h - 1);
    KidsOne(s, orphan, h - 1);
    KidNode(s, orphan, h - 1);
    NodeKids(s, orphan, h - 1);
  }

  lemma NoKeys(b: Block)
    requires b.nkeys == 0
    ensures Keys(b) == [] && |Links(b)| == 1
  {
  }

  lemma KidsOne(s: Store, b: int, h: nat)
    requires KidsOK(s, [b], h)
    ensures KidOK(s, b, h)
  {
    assert [b][0] == b;
  }

  /** Blocks below a pair (and below it only) are the same in s'. */
  lemma BelowPair(s: Store, s': Store, p: int, l: int, r: int, m: multiset<int>, b: int, h: nat, inner: multiset<int>)
    requires Unique(multiset{p} + m) && inner + multiset{l} + multiset{r} <= m
    requires NodeOK(s, b, h) && inner <= Blks(s, b, h)
    requires forall x :: x in s && x != p && x != l && x != r ==> x in s' && s'[x] == s[x]
    ensures Same(s, s', inner)
  {
    hide Blks, NodeOK;
    forall x | x in inner
      ensures x in s && x != p && x != l && x != r
    {
      assert (inner + multiset{l} + multiset{r})[x] <= m[x];
      assert (multiset{p} + m)[x] <= 1;
      assert inner[x] <= Blks(s, b, h)[x];
      BlksAllocated(s, b, h, x);
    }
  }

  /** The right block is empty: its only child goes to the end of the left one. */
  lemma DemoteRight(s: Store, s': Store, p: int, hp: nat, i: nat, l: int, r: int, k: Entry, orphan: int)
    requires LoosePair(s, p, hp, i, l, r, k) && hp > 1
    requires 0 < s[l].nkeys < ZMXKEY
    requires s[r].nkeys == 0 && Links(s[r]) == [orphan]
    requires p in s' && l in s' && s'[p] == RemKey(s[p], i) && s'[l] == PutKey(s[l], k, ZNULL, orphan)
    requires forall x :: x in s && x != p && x != l && x != r ==> x in s' && s'[x] == s[x]
    ensures Merged(s, s', p, i, l, r, k, hp - 1)
  {
    hide *;
    var hc := hp - 1;
    PairFacts(s, p, hp, i, l, r, k);
    PairApart(s, p, hp, i, l, r, k);
    EmptyNode(s, r, hc, orphan);
    NodeKids(s, l, hc);
    PutDemotedRight(s[l], k, orphan);
    PutCount(s[l], k, ZNULL, orphan);
    var ks, ls := Keys(s[l]), Links(s[l]);
    EntsNode(s, l, hc);
    BlksNode(s, l, hc);
    var ml, mo := BlksOf(s, ls, hc - 1), Blks(s, orphan, hc - 1);
    DemoteInner(l, r, ml, mo);
    BelowPair(s, s', p, l, r, Blks(s, l, hc) + Blks(s, r, hc), l, hc, ml);
    BelowPair(s, s', p, l, r, Blks(s, l, hc) + Blks(s, r, hc), r, hc, mo);
    FrameOf(s, s', ks, ls, hc);
    KidNode(s, orphan, hc - 1);
    FrameNode(s, s', orphan, hc - 1);
    GrowRight(s', ks, ls, k, orphan, hc);
    KidFrame(s, s', orphan, hc - 1);
    KidsGrow(s', ls, [orphan], hc - 1);
    EntsNode(s', l, hc);
    BlksNode(s', l, hc);
    MakeNode(s', l, hc);
    MakeKid(s', l, hc);
    MakeMerged(s, s', p, i, l, r, k, hc);
  }

  lemma DemoteInner(l: int, r: int, ml: multiset<int>, mo: multiset<int>)
    ensures ml + multiset{l} + multiset{r} <= (multiset{l} + ml) + (multiset{r} + mo)
    ensures mo + multiset{l} + multiset{r} <= (multiset{l} + ml) + (multiset{r} + mo)
    ensures ml <= multiset{l} + ml && mo <= multiset{r} + mo && mo <= multiset{l} + mo && ml <= multiset{r} + ml
    ensures mo + multiset{l} + multiset{r} <= (multiset{l} + mo) + (multiset{r} + ml)
    ensures ml + multiset{l} + multiset{r} <= (multiset{l} + mo) + (multiset{r} + ml)
  {
  }

  lemma KidFrame(s: Store, s': Store, b: int, h: nat)
    requires KidOK(s, b, h) && Same(s, s', Blks(s, b, h))
    ensures KidOK(s', b, h)
  {
    FrameNode(s, s', b, h);
    assert b in Blks(s, b, h);
  }

  lemma GrowRight(s: Store, ks: seq<Entry>, ls: seq<int>, k: Entry, orphan: int, h: nat)
    requires h > 0 && |ls| == |ks| + 1
    ensures Between(s, ks + [k], ls + [orphan], h) == Between(s, ks, ls, h) + [k] + Ents(s, orphan, h - 1)
    ensures BlksOf(s, ls + [orphan], h - 1) == BlksOf(s, ls, h - 1) + Blks(s, orphan, h - 1)
  {
    hide *;
    BetweenConcat(s, ks, ls, k, [], [orphan], h);
    Unit(ks + [k]);
    BetweenOne(s, orphan, h);
    BlksConcat(s, ls, [orphan], h - 1);
    BlksOne(s, orphan, h - 1);
  }

  lemma GrowLeft(s: Store, ks: seq<Entry>, ls: seq<int>, k: Entry, orphan: int, h: nat)
    requires h > 0 && |ls| == |ks| + 1
    ensures Between(s, [k] + ks, [orphan] + ls, h) == Ents(s, orphan, h - 1) + [k] + Between(s, ks, ls, h)
    ensures BlksOf(s, [orphan] + ls, h - 1) == Blks(s, orphan, h - 1) + BlksOf(s, ls, h - 1)
  {
    hide *;
    BetweenConcat(s, [], [orphan], k, ks, ls, h);
    Unit([k]);
    BetweenOne(s, orphan, h);
    BlksConcat(s, [orphan], ls, h - 1);
    BlksOne(s, orphan, h - 1);
  }

  lemma KidsGrow(s: Store, la: seq<int>, lb: seq<int>, h: nat)
    requires KidsOK(s, la, h) && (forall i :: 0 <= i < |lb| ==> KidOK(s, lb[i], h))
    ensures KidsOK(s, la + lb, h)
  {
    hide KidOK;
  }

  lemma MakeMerged(s: Store, s': Store, p: int, i: nat, l: int, r: int, k: Entry, hc: nat)
    requires p in s && p in s' && i < s[p].nkeys <= ZMXKEY && s'[p] == RemKey(s[p], i)
    requires l != p && l != r && r != p && KidOK(s', l, hc)
    requires Ents(s', l, hc) == Ents(s, l, hc) + [k] + Ents(s, r, hc)
    requires Blks(s', l, hc) + multiset{r} == Blks(s, l, hc) + Blks(s, r, hc)
    requires forall x :: x in s && x != p && x != l && x != r ==> x in s' && s'[x] == s[x]
    ensures Merged(s, s', p, i, l, r, k, hc)
  {
  }

  /** The left block is empty: it takes over its right sister's contents, with
      the demoted key and its own child in front. */
  lemma DemoteLeft(s: Store, s': Store, p: int, hp: nat, i: nat, l: int, r: int, k: Entry, orphan: int)
    requires LoosePair(s, p, hp, i, l, r, k) && hp > 1 && Sorted(Ents(s, p, hp))
    requires 0 < s[r].nkeys < ZMXKEY
    requires s[l].nkeys == 0 && Links(s[l]) == [orphan]
    requires p in s' && l in s' && s'[p] == RemKey(s[p], i)
    requires var taken: Block := CopyKeys(s[l], s[r], 0, 0, s[r].nkeys).(nkeys := s[r].nkeys);
             s'[l] == PutKey(taken, k, orphan, ZNULL)
    requires forall x :: x in s && x != p && x != l && x != r ==> x in s' && s'[x] == s[x]
    ensures Merged(s, s', p, i, l, r, k, hp - 1)
  {
    hide *;
    var hc := hp - 1;
    PairFacts(s, p, hp, i, l, r, k);
    var n := s[r].nkeys;
    PairApart(s, p, hp, i, l, r, k);
    EmptyNode(s, l, hc, orphan);
    NodeKids(s, r, hc);
    var taken: Block := CopyKeys(s[l], s[r], 0, 0, n).(nkeys := n);
    WholeCopyView(s[l], s[r]);
    PutDemotedLeft(taken, k, orphan);
    PutCount(taken, k, orphan, ZNULL);
    var ks, ls := Keys(s[r]), Links(s[r]);
    EntsNode(s, r, hc);
    BlksNode(s, r, hc);
    var mr, mo := BlksOf(s, ls, hc - 1), Blks(s, orphan, hc - 1);
    DemoteInner(l, r, mr, mo);
    BelowPair(s, s', p, l, r, Blks(s, l, hc) + Blks(s, r, hc), r, hc, mr);
    BelowPair(s, s', p, l, r, Blks(s, l, hc) + Blks(s, r, hc), l, hc, mo);
    FrameOf(s, s', ks, ls, hc);
    KidNode(s, orphan, hc - 1);
    FrameNode(s, s', orphan, hc - 1);
    GrowLeft(s', ks, ls, k, orphan, hc);
    KidFrame(s, s', orphan, hc - 1);
    KidsSingle(s', orphan, hc - 1);
    KidsGrow2(s', [orphan], ls, hc - 1);
    EntsNode(s', l, hc);
    BlksNode(s', l, hc);
    MakeNode(s', l, hc);
    MakeKid(s', l, hc);
    MakeMerged(s, s', p, i, l, r, k, hc);
  }

  lemma KidsGrow2(s: Store, la: seq<int>, lb: seq<int>, h: nat)
    requires KidsOK(s, la, h) && KidsOK(s, lb, h)
    ensures KidsOK(s, la + lb, h)
  {
    hide KidOK;
  }

  lemma WholeCopyView(t: Block, f: Block)
    requires 0 <= f.nkeys <= ZMXKEY
    ensures var c: Block := CopyKeys(t, f, 0, 0, f.nkeys).(nkeys := f.nkeys);
            Keys(c) == Keys(f) && Links(c) == Links(f) && c.nkeys == f.nkeys && c.btype == t.btype
  {
    CopyFromStartView(t, f, 0, f.nkeys);
  }

  /** The root is empty: it takes over its only child. */
  lemma Collapse(s: Store, s': Store, root: int, H: nat, child: int)
    requires H > 0 && NodeOK(s, root, H) && Unique(Blks(s, root, H)) && s[root].btype == ZROOT
    requires s[root].nkeys == 0 && Links(s[root]) == [child]
    requires child in s && root in s'
    requires 0 <= s[child].nkeys <= ZMXKEY
    requires var taken: Block := CopyKeys(s[root], s[child], 0, 0, s[child].nkeys).(nkeys := s[child].nkeys);
             s'[root] == taken
    requires forall x :: x in s && x != root && x != child ==> x in s' && s'[x] == s[x]
    ensures TreeOK(s', root, H - 1) && Ents(s', root, H - 1) == Ents(s, root, H)
    ensures Blks(s', root, H - 1) + multiset{child} == Blks(s, root, H)
  {
    hide *;
    NodeKids(s, root, H);
    EmptyNode(s, root, H, child);
    KidNode(s, child, H - 1);
    KidType(s, child, H - 1);
    NodeKids(s, child, H - 1);
    NodeKids(s, root, H);
    WholeCopyView(s[root], s[child]);
    EntsNode(s, child, H - 1);
    BlksNode(s, child, H - 1);
    EntsNode(s', root, H - 1);
    BlksNode(s', root, H - 1);
    if H > 1 {
      var inner := BlksOf(s, Links(s[child]), H - 2);
      CollapseSame(s, s', root, child, H, inner);
      FrameOf(s, s', Keys(s[child]), Links(s[child]), H - 1);
    } else {
      BetweenZero(s, Keys(s[child]), Links(s[child]));
      BetweenZero(s', Keys(s[child]), Links(s[child]));
    }
    CollapseSum(root, child, if H > 1 then BlksOf(s, Links(s[child]), H - 2) else multiset{});
    MakeNode(s', root, H - 1);
    UniqueLess(Blks(s', root, H - 1), multiset{child}, Blks(s, root, H));
    MakeTree(s', root, H - 1);
  }

  lemma CollapseSum(root: int, child: int, inner: multiset<int>)
    ensures (multiset{root} + inner) + multiset{child} == multiset{root} + (multiset{child} + inner)
    ensures inner == multiset{} ==> multiset{child} + inner == multiset{child}
  {
  }

  lemma CollapseSame(s: Store, s': Store, root: int, child: int, H: nat, inner: multiset<int>)
    requires NodeOK(s, root, H) && Unique(Blks(s, root, H))
    requires Blks(s, root, H) == multiset{root} + (multiset{child} + inner)
    requires forall x :: x in s && x != root && x != child ==> x in s' && s'[x] == s[x]
    ensures Same(s, s', inner)
  {
    hide Blks, NodeOK;
    forall x | x in inner
      ensures x in s && x != root && x != child
    {
      assert Blks(s, root, H)[x] <= 1;
      BlksAllocated(s, root, H, x);
    }
  }

  lemma MakeTree(s: Store, root: int, H: nat)
    requires NodeOK(s, root, H) && root in s && s[root].btype == ZROOT && (H > 0 ==> s[root].nkeys >= 1)
    requires Unique(Blks(s, root, H))
    ensures TreeOK(s, root, H)
  {
  }

  // ---------------------------------------------------------------------
  // balbk1: keys move between two leaves through the parent
  // ---------------------------------------------------------------------

  ghost predicate Balanced(s: Store, s': Store, p: int, i: nat, l: int, r: int, k: Entry, k': Entry) {
    && p in s && l in s && r in s && p in s' && l in s' && r in s'
    && i < s[p].nkeys <= ZMXKEY && s'[p] == RepKey(s[p], i, k', l, r)
    && 1 <= s'[l].nkeys <= ZMXKEY && 1 <= s'[r].nkeys <= ZMXKEY
    && s'[l].btype == s[l].btype && s'[r].btype == s[r].btype
    && (forall j :: 0 <= j < |Links(s'[l])| ==> Links(s'[l])[j] == ZNULL)
    && (forall j :: 0 <= j < |Links(s'[r])| ==> Links(s'[r])[j] == ZNULL)
    && Keys(s'[l]) + [k'] + Keys(s'[r]) == Keys(s[l]) + [k] + Keys(s[r])
    && forall x :: x in s && x != p && x != l && x != r ==> x in s' && s'[x] == s[x]
  }

  lemma BalanceStep(s: Store, s': Store, p: int, i: nat, l: int, r: int, k: Entry, k': Entry)
    requires LoosePair(s, p, 1, i, l, r, k) && Balanced(s, s', p, i, l, r, k, k')
    ensures NodeOK(s', p, 1) && Ents(s', p, 1) == Ents(s, p, 1) && Blks(s', p, 1) == Blks(s, p, 1)
    ensures p in s && p in s' && s'[p].btype == s[p].btype && s'[p].nkeys == s[p].nkeys
  {
    hide *;
    PairFacts(s, p, 1, i, l, r, k);
    BalancedFacts(s, s', p, i, l, r, k, k');
    var ks, ls := Keys(s[p]), Links(s[p]);
    var ka, la, kb, lb := ks[..i], ls[..i], ks[i + 1..], ls[i + 2..];
    PairParts(s, p, 1, i, l, r, k);
    PairSame(s, s', p, l, r, 1, la, lb, Blks(s, l, 0), Blks(s, r, 0));
    BalancedLinks(s[p], i, k', l, r);
    Window(s, s', ka, la, [l, r], [k'], [l, r], kb, lb, 1);
    KidsTwo(s, k, l, r, 0);
    KidsTwo(s', k', l, r, 0);
    EntsNode(s, l, 0);
    EntsNode(s, r, 0);
    EntsNode(s', l, 0);
    EntsNode(s', r, 0);
    BlksNode(s, l, 0);
    BlksNode(s, r, 0);
    BlksNode(s', l, 0);
    BlksNode(s', r, 0);
    EntsNode(s', p, 1);
    BlksNode(s, p, 1);
    BlksNode(s', p, 1);
    Cancel(BlksOf(s', Links(s'[p]), 0), BlksOf(s, ls, 0), multiset{l} + multiset{r});
    MakeNode(s', l, 0);
    MakeNode(s', r, 0);
    MakeKid(s', l, 0);
    MakeKid(s', r, 0);
    KidsFrame(s, s', la, 0);
    KidsFrame(s, s', lb, 0);
    KidsGrow2(s', la, [l, r], 0);
    KidsGrow2(s', la + [l, r], lb, 0);
    MakeNode(s', p, 1);
  }

  lemma BalancedFacts(s: Store, s': Store, p: int, i: nat, l: int, r: int, k: Entry, k': Entry)
    requires Balanced(s, s', p, i, l, r, k, k')
    ensures p in s' && l in s' && r in s' && l in s && r in s && p in s
    ensures i < s[p].nkeys <= ZMXKEY && s'[p] == RepKey(s[p], i, k', l, r)
    ensures s'[p].nkeys == s[p].nkeys && s'[p].btype == s[p].btype
    ensures 1 <= s'[l].nkeys <= ZMXKEY && 1 <= s'[r].nkeys <= ZMXKEY
    ensures s'[l].btype == s[l].btype && s'[r].btype == s[r].btype
    ensures forall j :: 0 <= j < |Links(s'[l])| ==> Links(s'[l])[j] == ZNULL
    ensures forall j :: 0 <= j < |Links(s'[r])| ==> Links(s'[r])[j] == ZNULL
    ensures Keys(s'[l]) + [k'] + Keys(s'[r]) == Keys(s[l]) + [k] + Keys(s[r])
    ensures forall x :: x in s && x != p && x != l && x != r ==> x in s' && s'[x] == s[x]
  {
    hide Keys, Links;
  }

  lemma BalancedLinks(b: Block, i: nat, k: Entry, l: int, r: int)
    requires i < b.nkeys <= ZMXKEY && Links(b)[i] == l && Links(b)[i + 1] == r
    ensures Keys(RepKey(b, i, k, l, r)) == Keys(b)[..i] + [k] + Keys(b)[i + 1..]
    ensures Links(RepKey(b, i, k, l, r)) == Links(b)[..i] + [l, r] + Links(b)[i + 2..]
  {
    hide RepKey;
    RepKeyView(b, i, k, l, r);
  }

  // ---------------------------------------------------------------------
  // One step up
  // ---------------------------------------------------------------------

  /** Merging the target with a sister moves the hole to the parent. */
  lemma MergeUp(sb: Store, s: Store, s': Store, root: int, H: nat, fs: seq<Frame>, w: seq<Entry>, freed: multiset<int>,
                i: nat, l: int, r: int, k: Entry)
    requires Hole(sb, s, root, H, fs, w, freed) && |fs| > 0
    requires var f, hp := fs[|fs| - 1], H - |fs| + 1;
             && LoosePair(s, f.blk, hp, i, l, r, k) && Merged(s, s', f.blk, i, l, r, k, hp - 1)
    ensures var f, hp, front := fs[|fs| - 1], H - |fs| + 1, fs[..|fs| - 1];
            && PathOK(sb, root, H, fs) && PathOK(sb, root, H, front)
            && f.blk in sb && 0 <= f.pos <= Count(sb[f.blk])
            && var w' := PreAt(sb, f, hp) + w + SufAt(sb, f, hp);
               && Hole(sb, s', root, H, front, w', freed + multiset{r})
               && Goal(sb, root, H, front, w') == Goal(sb, root, H, fs, w)
               && f.blk == Target(sb, root, front) && f.blk in s' && f.blk in s
               && s'[f.blk].nkeys == s[f.blk].nkeys - 1
               && (s'[f.blk].nkeys == 0 ==> Links(s'[f.blk]) == [l])
  {
    hide *;
    HoleFacts(sb, s, root, H, fs, w, freed);
    var f, hp := fs[|fs| - 1], H - |fs| + 1;
    PairFacts(s, f.blk, hp, i, l, r, k);
    MergedFacts(s, s', f.blk, i, l, r, k, hp - 1);
    MergeStep(s, s', f.blk, hp, i, l, r, k);
    PairWithin(s, f.blk, hp, i, l, r, k);
    HoleFacts(sb, s, root, H, fs, w, freed);
    PathStep(sb, root, H, fs);
    Settle(sb, s, s', root, H, fs, w, freed, multiset{r});
  }

  lemma PairWithin(s: Store, p: int, hp: nat, i: nat, l: int, r: int, k: Entry)
    requires LoosePair(s, p, hp, i, l, r, k)
    ensures p in Blks(s, p, hp) && l in Blks(s, p, hp) && r in Blks(s, p, hp)
  {
    hide *;
    PairFacts(s, p, hp, i, l, r, k);
    PairParts(s, p, hp, i, l, r, k);
  }

  /** Balancing the target with a sister moves the hole to the parent, too. */
  lemma BalanceUp(sb: Store, s: Store, s': Store, root: int, H: nat, fs: seq<Frame>, w: seq<Entry>,
                  freed: multiset<int>,
                  i: nat, l: int, r: int, k: Entry, k': Entry)
    requires Hole(sb, s, root, H, fs, w, freed) && |fs| > 0 && |fs| == H
    requires var f := fs[|fs| - 1]; LoosePair(s, f.blk, 1, i, l, r, k) && Balanced(s, s', f.blk, i, l, r, k, k')
    ensures var f, front := fs[|fs| - 1], fs[..|fs| - 1];
            && PathOK(sb, root, H, fs) && PathOK(sb, root, H, front)
            && f.blk in sb && 0 <= f.pos <= Count(sb[f.blk])
            && var w' := PreAt(sb, f, 1) + w + SufAt(sb, f, 1);
               && Hole(sb, s', root, H, front, w', freed)
               && Goal(sb, root, H, front, w') == Goal(sb, root, H, fs, w)
               && f.blk == Target(sb, root, front) && f.blk in s' && s'[f.blk].nkeys >= 1
  {
    hide *;
    var f := fs[|fs| - 1];
    PairFacts(s, f.blk, 1, i, l, r, k);
    BalancedFacts(s, s', f.blk, i, l, r, k, k');
    BalanceStep(s, s', f.blk, i, l, r, k, k');
    PairWithin(s, f.blk, 1, i, l, r, k);
    HoleFacts(sb, s, root, H, fs, w, freed);
    PathStep(sb, root, H, fs);
    Unit(Keys(s[f.blk]));
    Settle(sb, s, s', root, H, fs, w, freed, multiset{});
    assert freed + multiset{} == freed;
  }

  /** The target and a sister, ready for a repair: the sister is as in the base
      store, and the parent's entries are in order. */
  lemma Sister(sb: Store, s: Store, root: int, H: nat, fs: seq<Frame>, w: seq<Entry>, freed: multiset<int>, i: nat)
    requires Hole(sb, s, root, H, fs, w, freed) && |fs| > 0 && Sorted(Goal(sb, root, H, fs, w))
    requires var f := fs[|fs| - 1]; f.blk in s && i < s[f.blk].nkeys && (f.pos == i || f.pos == i + 1)
    ensures var f, hp := fs[|fs| - 1], H - |fs| + 1;
            && |Links(s[f.blk])| == |Keys(s[f.blk])| + 1 && i < |Keys(s[f.blk])|
            && var l, r := Links(s[f.blk])[i], Links(s[f.blk])[i + 1];
            && LoosePair(s, f.blk, hp, i, l, r, Keys(s[f.blk])[i])
            && (if f.pos == i then l else r) == Target(sb, root, fs)
            && Sorted(Ents(s, f.blk, hp))
            && var sister := if f.pos == i then r else l;
               && KidOK(s, sister, hp - 1)
               && sister in sb && sister in s && s[sister] == sb[sister] && sister in Blks(sb, root, H)
               && (hp > 1 ==> sb[sister].link[0] != ZNULL)
  {
    hide *;
    var f, hp := fs[|fs| - 1], H - |fs| + 1;
    HoleFacts(sb, s, root, H, fs, w, freed);
    Lift(sb, s, root, H, fs, w, freed);
    LooseCounts(s, f, hp);
    PathStep(sb, root, H, fs);
    CountKeys(sb[f.blk]);
    PairOfLoose(s, f, hp, i);
    GoalUp(sb, root, H, fs, w);
    var front := fs[..|fs| - 1];
    SortedThree(Lft(sb, root, H, front), PreAt(sb, f, hp) + w + SufAt(sb, f, hp), Rgt(sb, root, H, front));
    GoalIs(sb, root, H, front, PreAt(sb, f, hp) + w + SufAt(sb, f, hp));
    SisterBase(sb, s, root, H, fs, if f.pos == i then i + 1 else i);
  }

  /** Child j beside the path, in the base store. */
  lemma SisterBase(sb: Store, s: Store, root: int, H: nat, fs: seq<Frame>, j: nat)
    requires NodeOK(sb, root, H) && Unique(Blks(sb, root, H)) && PathOK(sb, root, H, fs) && 0 < |fs| <= H
    requires var f, hp := fs[|fs| - 1], H - |fs| + 1;
             && f.blk in sb && j <= Count(sb[f.blk]) && j != f.pos && 0 <= f.pos <= Count(sb[f.blk])
             && Off(sb, s, Blks(sb, f.blk, hp), Blks(sb, Child(sb, f), hp - 1))
    ensures var f, hp := fs[|fs| - 1], H - |fs| + 1;
            && |Links(sb[f.blk])| == Count(sb[f.blk]) + 1
            && var x := Links(sb[f.blk])[j];
            && x in sb && x in s && s[x] == sb[x] && x in Blks(sb, root, H)
            && (hp > 1 ==> sb[x].link[0] != ZNULL)
  {
    hide *;
    var front, f, hp := fs[..|fs| - 1], fs[|fs| - 1], H - |fs| + 1;
    PathFrame(sb, root, H, fs);
    PathNode(sb, root, H, front);
    PathBlks(sb, root, H, front);
    BesideBlks(sb, f, hp, j, Blks(sb, root, H));
    OffAt(sb, s, Blks(sb, f.blk, hp), Blks(sb, Child(sb, f), hp - 1), Links(sb[f.blk])[j]);
    BesideLink(sb, f, hp, j);
  }

  lemma PathFrame(s: Store, root: int, H: nat, fs: seq<Frame>)
    requires |fs| > 0 && PathOK(s, root, H, fs)
    ensures var front, f := fs[..|fs| - 1], fs[|fs| - 1];
            PathOK(s, root, H, front) && |front| < H && f.blk == Target(s, root, front)
  {
    hide *;
    PathStep(s, root, H, fs);
  }

  /** Another child of a block is not below the child at the position. */
  lemma BesideBlks(s: Store, f: Frame, h: nat, j: nat, whole: multiset<int>)
    requires h > 0 && NodeOK(s, f.blk, h) && f.blk in s && j <= Count(s[f.blk])
    requires j != f.pos && 0 <= f.pos <= Count(s[f.blk])
    requires Unique(whole) && Blks(s, f.blk, h) <= whole
    ensures |Links(s[f.blk])| == Count(s[f.blk]) + 1
    ensures var x := Links(s[f.blk])[j]; x in Blks(s, f.blk, h) && x in whole && x !in Blks(s, Child(s, f), h - 1)
  {
    hide *;
    NodeKids(s, f.blk, h);
    CountKeys(s[f.blk]);
    var ls, pos := Links(s[f.blk]), f.pos;
    var x := ls[j];
    NodeParts(s, f, h);
    KidAt(s, ls, h - 1, j);
    KidNode(s, x, h - 1);
    BlksNode(s, x, h - 1);
    if j < pos {
      BlksIn(s, ls[..pos], h - 1, j);
    } else {
      BlksIn(s, ls[pos + 1..], h - 1, j - pos - 1);
    }
    Beside(x, f.blk, BlksOf(s, ls[..pos], h - 1), Blks(s, Child(s, f), h - 1), BlksOf(s, ls[pos + 1..], h - 1),
           Blks(s, x, h - 1), Blks(s, f.blk, h), whole);
  }

  lemma BesideLink(s: Store, f: Frame, h: nat, j: nat)
    requires h > 0 && NodeOK(s, f.blk, h) && f.blk in s && j <= Count(s[f.blk])
    ensures |Links(s[f.blk])| == Count(s[f.blk]) + 1
    ensures h > 1 ==> var x := Links(s[f.blk])[j]; x in s && s[x].link[0] != ZNULL
  {
    hide *;
    NodeKids(s, f.blk, h);
    CountKeys(s[f.blk]);
    if h > 1 {
      KidAt(s, Links(s[f.blk]), h - 1, j);
      KidNode(s, Links(s[f.blk])[j], h - 1);
      FirstLink(s, Links(s[f.blk])[j], h - 1);
    }
  }

  lemma KidAt(s: Store, ls: seq<int>, h: nat, j: nat)
    requires KidsOK(s, ls, h) && j < |ls|
    ensures KidOK(s, ls[j], h)
  {
  }

  lemma OffAt(s: Store, s': Store, all: multiset<int>, sub: multiset<int>, x: int)
    requires Off(s, s', all, sub) && x in all && x !in sub
    ensures x in s' && x in s && s'[x] == s[x]
  {
  }

  lemma Beside(x: int, p: int, ma: multiset<int>, mc: multiset<int>, mb: multiset<int>, mx: multiset<int>,
               all: multiset<int>, whole: multiset<int>)
    requires Unique(whole) && all <= whole && all == multiset{p} + ma + mc + mb
    requires x in mx && (mx <= ma || mx <= mb)
    ensures x in all && x in whole && x !in mc
  {
    assert mx[x] <= ma[x] || mx[x] <= mb[x];
    assert all[x] <= whole[x] <= 1;
  }

  /** A non-leaf block has a first child. */
  lemma FirstLink(s: Store, b: int, h: nat)
    requires h > 0 && NodeOK(s, b, h)
    ensures b in s && s[b].link[0] != ZNULL
  {
    assert KidOK(s, Links(s[b])[0], h - 1);
    KidNode(s, Links(s[b])[0], h - 1);
    assert Links(s[b])[0] == s[b].link[0];
  }

  lemma GoalIs(sb: Store, root: int, H: nat, fs: seq<Frame>, w: seq<Entry>)
    requires PathOK(sb, root, H, fs)
    ensures Goal(sb, root, H, fs, w) == Lft(sb, root, H, fs) + w + Rgt(sb, root, H, fs)
  {
  }

  lemma LooseCounts(s: Store, f: Frame, hp: nat)
    requires LooseNode(s, f, hp)
    ensures hp > 0 && f.blk in s && 0 <= f.pos <= s[f.blk].nkeys <= ZMXKEY && s[f.blk].nkeys >= 1
    ensures |Keys(s[f.blk])| == s[f.blk].nkeys && |Links(s[f.blk])| == s[f.blk].nkeys + 1
  {
    hide NodeOK, KidsOK, Blks, Unique;
  }
}
