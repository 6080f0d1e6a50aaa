/** Root-to-block paths, and what changing the store below a path does.

    A frame is a block and the position of the child (or key) taken there; the
    routines keep all frames but the last one on the stack and the last one in
    the "last found" context. */
module Paths {
  import opened Constants
  import opened Blocks
  import opened Seqs
  import opened Trees

  datatype Frame = Frame(blk: int, pos: int)

  /** The child a frame points at; null when the position is out of range. */
  ghost function Child(s: Store, f: Frame): int {
    if f.blk in s && 0 <= f.pos <= Count(s[f.blk]) then Links(s[f.blk])[f.pos] else ZNULL
  }

  /** The block a path leads to. */
  ghost function Target(s: Store, root: int, fs: seq<Frame>): int {
    if |fs| == 0 then root else Child(s, fs[|fs| - 1])
  }

  /** A path of child links from the root through at most H non-leaf blocks. */
  ghost predicate PathOK(s: Store, root: int, H: nat, fs: seq<Frame>)
    decreases |fs|
  {
    if |fs| == 0 then true
    else
      var front, f := fs[..|fs| - 1], fs[|fs| - 1];
      && PathOK(s, root, H, front)
      && |fs| <= H
      && f.blk == Target(s, root, front)
      && f.blk in s && 0 <= f.pos <= Count(s[f.blk])
  }

  /** Parts of one node left and right of child pos. */
  ghost function PreAt(s: Store, f: Frame, h: nat): seq<Entry>
    requires f.blk in s && 0 <= f.pos <= Count(s[f.blk])
  {
    PreOf(s, Keys(s[f.blk])[..f.pos], Links(s[f.blk])[..f.pos], h)
  }

  ghost function SufAt(s: Store, f: Frame, h: nat): seq<Entry>
    requires f.blk in s && 0 <= f.pos <= Count(s[f.blk])
  {
    SufOf(s, Keys(s[f.blk])[f.pos..], Links(s[f.blk])[f.pos + 1..], h)
  }

  /** Entries left and right of the whole path. */
  ghost function Lft(s: Store, root: int, H: nat, fs: seq<Frame>): seq<Entry>
    requires PathOK(s, root, H, fs)
    decreases |fs|
  {
    if |fs| == 0 then []
    else Lft(s, root, H, fs[..|fs| - 1]) + PreAt(s, fs[|fs| - 1], H - |fs| + 1)
  }

  ghost function Rgt(s: Store, root: int, H: nat, fs: seq<Frame>): seq<Entry>
    requires PathOK(s, root, H, fs)
    decreases |fs|
  {
    if |fs| == 0 then []
    else SufAt(s, fs[|fs| - 1], H - |fs| + 1) + Rgt(s, root, H, fs[..|fs| - 1])
  }

  /** One node around its child at pos. */
  lemma NodeParts(s: Store, f: Frame, h: nat)
    requires f.blk in s && 0 <= f.pos <= Count(s[f.blk]) && h > 0
    ensures Ents(s, f.blk, h) == PreAt(s, f, h) + Ents(s, Child(s, f), h - 1) + SufAt(s, f, h)
    ensures var ls := Links(s[f.blk]);
            Blks(s, f.blk, h) == multiset{f.blk} + BlksOf(s, ls[..f.pos], h - 1)
                                 + Blks(s, Child(s, f), h - 1) + BlksOf(s, ls[f.pos + 1..], h - 1)
  {
    var ks, ls, pos := Keys(s[f.blk]), Links(s[f.blk]), f.pos;
    var c := ls[pos];
    assert ks == ks[..pos] + [] + ks[pos..];
    assert ls == ls[..pos] + [c] + ls[pos + 1..];
    assert Between(s, [], [c], h) == Ents(s, c, h - 1);
    Parts(s, ks[..pos], ls[..pos], [], [c], ks[pos..], ls[pos + 1..], h);
    BlksParts(s, ls[..pos], [c], ls[pos + 1..], h - 1);
    BlksOne(s, c, h - 1);
  }

  lemma NodeChildOK(s: Store, f: Frame, h: nat)
    requires h > 0 && NodeOK(s, f.blk, h) && 0 <= f.pos <= s[f.blk].nkeys
    ensures KidOK(s, Child(s, f), h - 1)
  {
    assert KidsOK(s, Links(s[f.blk]), h - 1);
  }

  lemma PathNil(s: Store, root: int, H: nat, fs: seq<Frame>)
    requires |fs| == 0
    ensures PathOK(s, root, H, fs) && Target(s, root, fs) == root
    ensures Lft(s, root, H, fs) == [] && Rgt(s, root, H, fs) == []
  {
  }

  /** One unfolding of the path functions. */
  lemma PathStep(s: Store, root: int, H: nat, fs: seq<Frame>)
    requires |fs| > 0 && PathOK(s, root, H, fs)
    ensures var front, f := fs[..|fs| - 1], fs[|fs| - 1];
            && PathOK(s, root, H, front) && |fs| <= H
            && f.blk == Target(s, root, front) && f.blk in s && 0 <= f.pos <= Count(s[f.blk])
            && Target(s, root, fs) == Child(s, f)
            && Lft(s, root, H, fs) == Lft(s, root, H, front) + PreAt(s, f, H - |fs| + 1)
            && Rgt(s, root, H, fs) == SufAt(s, f, H - |fs| + 1) + Rgt(s, root, H, front)
  {
  }

  lemma NodeCount(s: Store, b: int, h: nat)
    requires NodeOK(s, b, h)
    ensures b in s && 0 <= b && 0 <= s[b].nkeys <= ZMXKEY && Count(s[b]) == s[b].nkeys
  {
  }

  /** What a path tells about the block it leads to. */
  lemma {:induction false} PathTarget(s: Store, root: int, H: nat, fs: seq<Frame>)
    requires NodeOK(s, root, H) && PathOK(s, root, H, fs)
    ensures |fs| <= H
    ensures var c, h := Target(s, root, fs), H - |fs|;
            && NodeOK(s, c, h)
            && (|fs| > 0 ==> KidOK(s, c, h))
            && Blks(s, c, h) <= Blks(s, root, H)
            && Ents(s, root, H) == Lft(s, root, H, fs) + Ents(s, c, h) + Rgt(s, root, H, fs)
    decreases |fs|
  {
    hide *;
    if |fs| == 0 {
      PathNil(s, root, H, fs);
      Unit(Ents(s, root, H));
    } else {
      PathStep(s, root, H, fs);
      var front, f := fs[..|fs| - 1], fs[|fs| - 1];
      PathTarget(s, root, H, front);
      var h := H - |fs| + 1;
      NodeCount(s, f.blk, h);
      NodeChildOK(s, f, h);
      NodeParts(s, f, h);
      KidNode(s, Child(s, f), h - 1);
      PathArith(Lft(s, root, H, front), PreAt(s, f, h), Ents(s, Child(s, f), h - 1),
                SufAt(s, f, h), Rgt(s, root, H, front));
    }
  }

  /** The part of it that concerns the block alone. */
  lemma PathNode(s: Store, root: int, H: nat, fs: seq<Frame>)
    requires NodeOK(s, root, H) && PathOK(s, root, H, fs)
    ensures |fs| <= H && NodeOK(s, Target(s, root, fs), H - |fs|)
    ensures |fs| > 0 ==> KidOK(s, Target(s, root, fs), H - |fs|)
  {
    hide *;
    PathTarget(s, root, H, fs);
  }

  /** The part that concerns the blocks below it. */
  lemma PathBlks(s: Store, root: int, H: nat, fs: seq<Frame>)
    requires NodeOK(s, root, H) && PathOK(s, root, H, fs)
    ensures |fs| <= H && Blks(s, Target(s, root, fs), H - |fs|) <= Blks(s, root, H)
  {
    hide *;
    PathTarget(s, root, H, fs);
  }

  /** The block at the end of a path is one of the tree. */
  lemma PathBlock(s: Store, root: int, H: nat, front: seq<Frame>)
    requires NodeOK(s, root, H) && PathOK(s, root, H, front)
    ensures |front| <= H && Target(s, root, front) in Blks(s, root, H)
  {
    hide *;
    PathTarget(s, root, H, front);
    var c, h := Target(s, root, front), H - |front|;
    NodeKids(s, c, h);
    BlksNode(s, c, h);
    InMultiset(c, Blks(s, c, h), Blks(s, root, H));
  }

  lemma KidNode(s: Store, b: int, h: nat)
    requires KidOK(s, b, h)
    ensures NodeOK(s, b, h)
  {
  }

  lemma PathArith<T>(a: seq<T>, p: seq<T>, c: seq<T>, q: seq<T>, b: seq<T>)
    ensures a + (p + c + q) + b == (a + p) + c + (q + b)
  {
  }

  /** s' may differ from s only outside all, or inside sub. */
  ghost predicate Off(s: Store, s': Store, all: multiset<int>, sub: multiset<int>) {
    forall x :: x in all && x !in sub ==> x in s' && x in s && s'[x] == s[x]
  }

  lemma OffSame(s: Store, s': Store, all: multiset<int>, sub: multiset<int>, part: multiset<int>)
    requires Off(s, s', all, sub) && Unique(all) && part + sub <= all
    ensures Same(s, s', part)
    ensures forall x :: x in part ==> x in s && x in s' && s'[x] == s[x]
  {
    forall x | x in part
      ensures x in all && x !in sub
    {
      assert (part + sub)[x] <= all[x] <= 1;
    }
  }

  /** One step of Plug: the node keeps everything but the part below child pos. */
  lemma PlugNode(s: Store, s': Store, f: Frame, h: nat)
    requires h > 0 && NodeOK(s, f.blk, h) && 0 <= f.pos <= s[f.blk].nkeys
    requires Unique(Blks(s, f.blk, h))
    requires Off(s, s', Blks(s, f.blk, h), Blks(s, Child(s, f), h - 1))
    ensures f.blk in s' && s'[f.blk] == s[f.blk] && Child(s', f) == Child(s, f)
    ensures PreAt(s', f, h) == PreAt(s, f, h) && SufAt(s', f, h) == SufAt(s, f, h)
    ensures Blks(s', f.blk, h) + Blks(s, Child(s, f), h - 1) == Blks(s, f.blk, h) + Blks(s', Child(s, f), h - 1)
    ensures KidOK(s', Child(s, f), h - 1) ==> NodeOK(s', f.blk, h)
  {
    hide Blks, BlksOf, PreOf, SufOf, Off, Same, Unique, KidsOK, KidOK;
    var ks, ls, pos := Keys(s[f.blk]), Links(s[f.blk]), f.pos;
    var c := Child(s, f);
    var ka, la, kb, lb := ks[..pos], ls[..pos], ks[pos..], ls[pos + 1..];
    var all := Blks(s, f.blk, h);
    NodeParts(s, f, h);
    OffSame(s, s', all, Blks(s, c, h - 1), multiset{f.blk});
    assert f.blk in multiset{f.blk};
    OffSame(s, s', all, Blks(s, c, h - 1), BlksOf(s, la, h - 1));
    OffSame(s, s', all, Blks(s, c, h - 1), BlksOf(s, lb, h - 1));
    PreFrame(s, s', ka, la, h);
    SufFrame(s, s', kb, lb, h);
    FrameBlks(s, s', la, h - 1);
    FrameBlks(s, s', lb, h - 1);
    NodeParts(s', f, h);
    if KidOK(s', c, h - 1) {
      assert ls == la + [c] + lb;
      KidsParts(s, la, [c], lb, h - 1);
      KidsFrame(s, s', la, h - 1);
      KidsFrame(s, s', lb, h - 1);
      KidsSingle(s', c, h - 1);
      KidsParts(s', la, [c], lb, h - 1);
    }
  }

  lemma KidsSingle(s: Store, c: int, h: nat)
    requires KidOK(s, c, h)
    ensures KidsOK(s, [c], h)
  {
  }

  lemma KidPromote(s: Store, s': Store, b: int, h: nat)
    requires KidOK(s, b, h) && NodeOK(s', b, h) && b in s && b in s' && s'[b] == s[b]
    ensures KidOK(s', b, h)
  {
  }

  /** Changing the store only below the target of a path: the path, what lies
      beside it and every node on it survive. */
  lemma {:induction false} Plug(s: Store, s': Store, root: int, H: nat, fs: seq<Frame>)
    requires NodeOK(s, root, H) && Unique(Blks(s, root, H)) && PathOK(s, root, H, fs) && |fs| <= H
    requires Off(s, s', Blks(s, root, H), Blks(s, Target(s, root, fs), H - |fs|))
    ensures PathOK(s', root, H, fs) && Target(s', root, fs) == Target(s, root, fs)
    ensures Lft(s', root, H, fs) == Lft(s, root, H, fs) && Rgt(s', root, H, fs) == Rgt(s, root, H, fs)
    ensures var c, h := Target(s, root, fs), H - |fs|;
            && Blks(s', root, H) + Blks(s, c, h) == Blks(s, root, H) + Blks(s', c, h)
            && (|fs| > 0 ==> root in s' && root in s && s'[root] == s[root])
            && (|fs| > 0 && KidOK(s', c, h) ==> NodeOK(s', root, H))
    decreases |fs|
  {
    hide *;
    if |fs| == 0 {
      PathNil(s, root, H, fs);
      PathNil(s', root, H, fs);
    } else {
      var front, f := fs[..|fs| - 1], fs[|fs| - 1];
      var h := H - |fs| + 1;
      PathStep(s, root, H, fs);
      PathTarget(s, root, H, front);
      NodeCount(s, f.blk, h);
      NodeParts(s, f, h);
      OffUp(s, s', Blks(s, root, H), Blks(s, f.blk, h), Blks(s, Child(s, f), h - 1));
      PlugNode(s, s', f, h);
      Plug(s, s', root, H, front);
      PathStepBack(s', root, H, fs);
      BlksChain(Blks(s, root, H), Blks(s', root, H), Blks(s, f.blk, h), Blks(s', f.blk, h),
                Blks(s, Child(s, f), h - 1), Blks(s', Child(s, f), h - 1));
      if |front| > 0 {
        if KidOK(s', Child(s, f), h - 1) {
          KidPromote(s, s', f.blk, h);
        }
      } else {
        PathNil(s, root, H, front);
      }
    }
  }

  lemma BlksChain(a: multiset<int>, a': multiset<int>, b: multiset<int>, b': multiset<int>,
                  c: multiset<int>, c': multiset<int>)
    requires a' + b == a + b' && b' + c == b + c'
    ensures a' + c == a + c'
  {
    forall x
      ensures (a' + c)[x] == (a + c')[x]
    {
      assert (a' + b)[x] == (a + b')[x] && (b' + c)[x] == (b + c')[x];
    }
  }

  lemma PathStepBack(s: Store, root: int, H: nat, fs: seq<Frame>)
    requires |fs| > 0
    requires var front, f := fs[..|fs| - 1], fs[|fs| - 1];
             && PathOK(s, root, H, front) && |fs| <= H
             && f.blk == Target(s, root, front) && f.blk in s && 0 <= f.pos <= Count(s[f.blk])
    ensures PathOK(s, root, H, fs)
    ensures var front, f := fs[..|fs| - 1], fs[|fs| - 1];
            && Target(s, root, fs) == Child(s, f)
            && Lft(s, root, H, fs) == Lft(s, root, H, front) + PreAt(s, f, H - |fs| + 1)
            && Rgt(s, root, H, fs) == SufAt(s, f, H - |fs| + 1) + Rgt(s, root, H, front)
  {
  }

  lemma OffUp(s: Store, s': Store, all: multiset<int>, mid: multiset<int>, sub: multiset<int>)
    requires Off(s, s', all, sub) && sub <= mid <= all && Unique(all)
    ensures Off(s, s', all, mid) && Off(s, s', mid, sub) && Unique(mid)
  {
    forall x
      ensures mid[x] <= 1 && (x in sub ==> x in mid) && (x in mid ==> x in all)
    {
      assert sub[x] <= mid[x] <= all[x] <= 1;
    }
  }

  /** The blocks on a path lie above what it leads to. */
  lemma {:induction false} PathAbove(s: Store, root: int, H: nat, fs: seq<Frame>, i: nat)
    requires NodeOK(s, root, H) && Unique(Blks(s, root, H)) && PathOK(s, root, H, fs) && i < |fs| <= H
    ensures fs[i].blk in Blks(s, root, H)
    ensures fs[i].blk !in Blks(s, Target(s, root, fs), H - |fs|)
    decreases |fs|
  {
    hide *;
    var front, f := fs[..|fs| - 1], fs[|fs| - 1];
    var h := H - |fs| + 1;
    PathStep(s, root, H, fs);
    PathTarget(s, root, H, front);
    NodeParts(s, f, h);
    BlksNode(s, f.blk, h);
    if i < |fs| - 1 {
      PathAbove(s, root, H, front, i);
      assert front[i] == fs[i];
    } else {
      OnTop(f.blk, Blks(s, f.blk, h), Blks(s, Child(s, f), h - 1), Blks(s, root, H));
    }
  }

  lemma OnTop(b: int, mb: multiset<int>, mc: multiset<int>, all: multiset<int>)
    requires multiset{b} + mc <= mb <= all && Unique(all)
    ensures b !in mc
  {
    assert (multiset{b} + mc)[b] <= mb[b] <= all[b] <= 1;
  }
}
