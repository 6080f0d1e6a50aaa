/** bleaf: from a position in a block to a leaf, turning left or right at every
    block below.  It keeps what lies left (or right) of the position. */
module Leaf {
  import opened Constants
  import opened Blocks
  import opened Seqs
  import opened Trees
  import opened Paths
  import opened Context

  /** A path whose last frame is a position in a block: the frames of front lead
      to the block, and the position is one of its children (or key gaps). */
  ghost predicate AtPos(s: Store, root: int, H: nat, front: seq<Frame>, f: Frame) {
    && NodeOK(s, root, H) && Unique(Blks(s, root, H))
    && PathOK(s, root, H, front) && |front| <= H && f.blk == Target(s, root, front)
    && f.blk in s && 0 <= f.pos <= Count(s[f.blk])
  }

  /** All entries left of the position, and all entries right of it (without the
      ones below the child at the position). */
  ghost function LeftOf(s: Store, root: int, H: nat, front: seq<Frame>, f: Frame): seq<Entry>
    requires AtPos(s, root, H, front, f)
  {
    Lft(s, root, H, front) + PreAt(s, f, H - |front|)
  }

  ghost function RightOf(s: Store, root: int, H: nat, front: seq<Frame>, f: Frame): seq<Entry>
    requires AtPos(s, root, H, front, f)
  {
    SufAt(s, f, H - |front|) + Rgt(s, root, H, front)
  }

  lemma AtPosFacts(s: Store, root: int, H: nat, front: seq<Frame>, f: Frame)
    requires AtPos(s, root, H, front, f)
    ensures NodeOK(s, f.blk, H - |front|) && f.blk in s && 0 <= s[f.blk].nkeys <= ZMXKEY
    ensures |front| <= H && 0 <= f.pos <= s[f.blk].nkeys && f.blk in Blks(s, root, H)
    ensures |Keys(s[f.blk])| == s[f.blk].nkeys && |Links(s[f.blk])| == s[f.blk].nkeys + 1
    ensures forall i :: 0 <= i <= s[f.blk].nkeys ==> Links(s[f.blk])[i] == s[f.blk].link[i]
    ensures |front| == H && s[f.blk].nkeys > 0 ==> s[f.blk].link[f.pos] == ZNULL
    ensures |front| < H ==> s[f.blk].link[f.pos] == Child(s, f) && Child(s, f) != ZNULL && Child(s, f) in s
    ensures |front| < H ==> s[f.blk].link[0] != ZNULL
    ensures |front| > 0 ==> s[f.blk].nkeys >= 1 && s[f.blk].btype == ZINUSE
  {
    hide Ents, Blks, Lft, Rgt, Unique, NodeOK, PathOK, KidOK, Keys, Links;
    PathNode(s, root, H, front);
    PathBlock(s, root, H, front);
    NodeKids(s, f.blk, H - |front|);
    LinksAre(s[f.blk]);
    if |front| > 0 {
      KidType(s, f.blk, H - |front|);
    }
    if |front| < H {
      ChildBlock(s, f, H - |front|);
      ChildBlock(s, Frame(f.blk, 0), H - |front|);
    } else if s[f.blk].nkeys > 0 {
      NullAll(s[f.blk]);
    }
  }

  lemma LinksAre(b: Block)
    requires 0 <= b.nkeys <= ZMXKEY
    ensures |Keys(b)| == b.nkeys && |Links(b)| == b.nkeys + 1
    ensures forall i :: 0 <= i <= b.nkeys ==> Links(b)[i] == b.link[i]
  {
  }

  lemma ChildBlock(s: Store, f: Frame, h: nat)
    requires h > 0 && NodeOK(s, f.blk, h) && f.blk in s && 0 <= f.pos <= s[f.blk].nkeys <= ZMXKEY
    ensures |Links(s[f.blk])| == s[f.blk].nkeys + 1 && Child(s, f) == Links(s[f.blk])[f.pos]
    ensures Child(s, f) != ZNULL && Child(s, f) in s
  {
    hide NodeOK, KidOK;
    NodeChildOK(s, f, h);
    KidNode(s, Child(s, f), h - 1);
    NodeKids(s, Child(s, f), h - 1);
  }

  /** At a leaf the position splits the block's keys. */
  lemma LeafSides(s: Store, f: Frame)
    requires f.blk in s && 0 <= f.pos <= Count(s[f.blk])
    ensures PreAt(s, f, 0) == Keys(s[f.blk])[..f.pos] && SufAt(s, f, 0) == Keys(s[f.blk])[f.pos..]
  {
  }

  /** The position's view of all entries. */
  lemma Around(s: Store, root: int, H: nat, front: seq<Frame>, f: Frame)
    requires AtPos(s, root, H, front, f)
    ensures |front| == H ==> Ents(s, root, H) == LeftOf(s, root, H, front, f) + RightOf(s, root, H, front, f)
    ensures |front| < H ==>
              Ents(s, root, H) == LeftOf(s, root, H, front, f) + Ents(s, Child(s, f), H - |front| - 1)
                                  + RightOf(s, root, H, front, f)
  {
    hide Ents, Blks, Lft, Rgt, Unique, NodeOK, PathOK, PreOf, SufOf;
    var h := H - |front|;
    var a, b := Lft(s, root, H, front), Rgt(s, root, H, front);
    PathTarget(s, root, H, front);
    if h == 0 {
      LeafSides(s, f);
      EntsNode(s, f.blk, 0);
      Cut(Keys(s[f.blk]), f.pos);
      PathArith(a, Keys(s[f.blk])[..f.pos], [], Keys(s[f.blk])[f.pos..], b);
      Unit(Keys(s[f.blk])[..f.pos]);
      Unit(a + Keys(s[f.blk])[..f.pos]);
    } else {
      NodeParts(s, f, h);
      PathArith(a, PreAt(s, f, h), Ents(s, Child(s, f), h - 1), SufAt(s, f, h), b);
    }
  }

  /** Going down to the first or last position of the child at the position. */
  lemma Down(s: Store, root: int, H: nat, front: seq<Frame>, f: Frame, g: Frame)
    requires AtPos(s, root, H, front, f) && |front| < H
    requires g.blk == Child(s, f) && g.blk in s && (g.pos == 0 || g.pos == Count(s[g.blk]))
    ensures AtPos(s, root, H, front + [f], g)
    ensures g.pos == 0 ==> LeftOf(s, root, H, front + [f], g) == LeftOf(s, root, H, front, f)
    ensures g.pos == Count(s[g.blk]) ==> RightOf(s, root, H, front + [f], g) == RightOf(s, root, H, front, f)
  {
    hide Ents, Blks, Lft, Rgt, Unique, NodeOK, PathOK;
    var fs := front + [f];
    assert fs[..|fs| - 1] == front;
    PathStepBack(s, root, H, fs);
    if g.pos == 0 {
      Unit(LeftOf(s, root, H, front, f));
    }
    if g.pos == Count(s[g.blk]) {
      Unit(RightOf(s, root, H, front, f));
    }
  }

  /** From frame m on the path takes the last child everywhere. */
  ghost predicate RightEdge(s: Store, fs: seq<Frame>, m: nat) {
    forall i :: m <= i < |fs| ==> fs[i].blk in s && fs[i].pos == Count(s[fs[i].blk])
  }

  lemma RightEdgeNone(s: Store, fs: seq<Frame>)
    ensures RightEdge(s, fs, |fs| + 1) && LeftEdge(fs, |fs| + 1)
  {
  }

  lemma EdgeMore(s: Store, fs: seq<Frame>, m: nat, f: Frame)
    ensures (m <= |fs| ==> RightEdge(s, fs, m) && f.blk in s && f.pos == Count(s[f.blk])) ==> RightEdge(s, fs + [f], m)
    ensures (m <= |fs| ==> LeftEdge(fs, m) && f.pos == 0) ==> LeftEdge(fs + [f], m)
  {
  }

  /** The block at a position and everything below the child there are the same
      in the store at hand as in s. */
  ghost predicate SeesBelow(s: Store, now: Store, H: nat, front: seq<Frame>, f: Frame) {
    && (f.blk in s ==> f.blk in now && now[f.blk] == s[f.blk])
    && (|front| < H ==> forall x :: x in Blks(s, Child(s, f), H - |front| - 1) && x in s ==> x in now && now[x] == s[x])
  }

  lemma SeesSelf(s: Store, H: nat, front: seq<Frame>, f: Frame)
    ensures SeesBelow(s, s, H, front, f)
  {
  }

  lemma SeesDown(s: Store, now: Store, root: int, H: nat, front: seq<Frame>, f: Frame, pos: nat)
    requires AtPos(s, root, H, front, f) && |front| < H && SeesBelow(s, now, H, front, f)
    requires Child(s, f) in s && pos <= Count(s[Child(s, f)])
    ensures SeesBelow(s, now, H, front + [f], Frame(Child(s, f), pos))
    ensures Child(s, f) in now && now[Child(s, f)] == s[Child(s, f)]
  {
    hide *;
    var c, h := Child(s, f), H - |front| - 1;
    SeesOpen(s, now, H, front, f);
    BlksNode(s, c, h);
    if h > 0 {
      NodeParts(s, Frame(c, pos), h);
      InChild(Blks(s, c, h), Blks(s, Child(s, Frame(c, pos)), h - 1));
    }
    MakeSees(s, now, H, front + [f], Frame(c, pos));
  }

  lemma InChild(m: multiset<int>, part: multiset<int>)
    requires part <= m
    ensures forall x :: x in part ==> x in m
  {
    forall x | x in part
      ensures x in m
    {
      assert part[x] <= m[x];
    }
  }

  lemma SeesOpen(s: Store, now: Store, H: nat, front: seq<Frame>, f: Frame)
    requires SeesBelow(s, now, H, front, f)
    ensures f.blk in s ==> f.blk in now && now[f.blk] == s[f.blk]
    ensures |front| < H ==> forall x :: x in Blks(s, Child(s, f), H - |front| - 1) && x in s ==> x in now && now[x] == s[x]
  {
  }

  lemma MakeSees(s: Store, now: Store, H: nat, front: seq<Frame>, f: Frame)
    requires f.blk in s ==> f.blk in now && now[f.blk] == s[f.blk]
    requires |front| < H ==> forall x :: x in Blks(s, Child(s, f), H - |front| - 1) && x in s ==> x in now && now[x] == s[x]
    ensures SeesBelow(s, now, H, front, f)
  {
  }

  /** bleaf.  A block without keys stops it at once.  The tree s it moves in is
      the store at hand, except while a root is being deleted: then blocks that
      bleaf does not come to are free already. */
  method GoLeaf(ix: Index, dir: int, ghost front: seq<Frame>, ghost s: Store) returns (ghost front': seq<Frame>)
    requires Calm(ix)
    requires ix.lfblk in s && SeesBelow(s, ix.store, ix.height, front, Frame(ix.lfblk, ix.lfpos))
    requires s[ix.lfblk].nkeys != 0 ==>
               && AtPos(s, ix.scroot, ix.height, front, Frame(ix.lfblk, ix.lfpos))
               && OnPath(ix.stk, ix.lfblk, ix.lfpos, front + [Frame(ix.lfblk, ix.lfpos)])
    modifies ix`stk, ix`lfblk, ix`lfpos
    ensures s[old(ix.lfblk)].nkeys == 0 || |front| == ix.height ==>
              front' == front && ix.stk == old(ix.stk) && ix.lfblk == old(ix.lfblk) && ix.lfpos == old(ix.lfpos)
    ensures s[old(ix.lfblk)].nkeys != 0 ==>
              var root, H := ix.scroot, ix.height;
              var f0, f := old(Frame(ix.lfblk, ix.lfpos)), Frame(ix.lfblk, ix.lfpos);
              && AtPos(s, root, H, front', f) && |front'| == H && f.blk in s
              && f.blk in ix.store && ix.store[f.blk] == s[f.blk]
              && OnPath(ix.stk, f.blk, f.pos, front' + [f])
              && |front| <= |front'| && front'[..|front|] == front
              && (|front| < H ==> front'[|front|] == f0 && f.pos == if dir == 0 then 0 else s[f.blk].nkeys)
              && (dir == 0 ==> LeftOf(s, root, H, front', f) == LeftOf(s, root, H, front, f0))
              && (dir != 0 ==> RightOf(s, root, H, front', f) == RightOf(s, root, H, front, f0))
              && (if dir != 0 then RightEdge(s, front', |front| + 1) else LeftEdge(front', |front| + 1))
  {
    hide *;
    front' := front;
    ghost var root, H := ix.scroot, ix.height;
    ghost var f0 := Frame(ix.lfblk, ix.lfpos);
    SeesOpen(s, ix.store, H, front, f0);
    var b := Read(ix, ix.lfblk);
    if b.nkeys == 0 {
      return;
    }
    AtPosFacts(s, root, H, front, f0);
    RightEdgeNone(s, front);
    while b.link[ix.lfpos] != ZNULL
      invariant AtPos(s, root, H, front', Frame(ix.lfblk, ix.lfpos)) && |front'| <= H
      invariant SeesBelow(s, ix.store, H, front', Frame(ix.lfblk, ix.lfpos))
      invariant OnPath(ix.stk, ix.lfblk, ix.lfpos, front' + [Frame(ix.lfblk, ix.lfpos)])
      invariant ix.lfblk in s && ix.lfblk in ix.store
      invariant b == ix.store[ix.lfblk] == s[ix.lfblk] && 0 <= ix.lfpos <= ZMXKEY
      invariant |front| <= |front'| && front'[..|front|] == front
      invariant |front'| == H <==> s[ix.lfblk].link[ix.lfpos] == ZNULL
      invariant |front'| == |front| ==>
                  front' == front && ix.stk == old(ix.stk) && Frame(ix.lfblk, ix.lfpos) == f0
      invariant |front'| > |front| ==>
                  front'[|front|] == f0 && ix.lfpos == if dir == 0 then 0 else s[ix.lfblk].nkeys
      invariant if dir != 0 then RightEdge(s, front', |front| + 1) else LeftEdge(front', |front| + 1)
      invariant dir != 0 && |front'| > |front| ==> ix.lfpos == Count(s[ix.lfblk])
      invariant dir == 0 ==> LeftOf(s, root, H, front', Frame(ix.lfblk, ix.lfpos)) == LeftOf(s, root, H, front, f0)
      invariant dir != 0 ==> RightOf(s, root, H, front', Frame(ix.lfblk, ix.lfpos)) == RightOf(s, root, H, front, f0)
      decreases H - |front'|
    {
      ghost var f := Frame(ix.lfblk, ix.lfpos);
      AtPosFacts(s, root, H, front', f);
      var child := b.link[ix.lfpos];
      ChildCount(s, f, H - |front'|);
      SeesDown(s, ix.store, root, H, front', f, if dir == 0 then 0 else s[child].nkeys);
      b := Read(ix, child);
      var pos := if dir == 0 then 0 else b.nkeys;
      Down(s, root, H, front', f, Frame(child, pos));
      PushFrame(ix, front' + [f], Frame(child, pos));
      EdgeMore(s, front', |front| + 1, f);
      front' := front' + [f];
      AtPosFacts(s, root, H, front', Frame(child, pos));
    }
  }

  /** From frame m on the path takes the first child everywhere. */
  ghost predicate LeftEdge(fs: seq<Frame>, m: nat) {
    forall i :: m <= i < |fs| ==> fs[i].pos == 0
  }

  lemma ChildCount(s: Store, f: Frame, h: nat)
    requires h > 0 && NodeOK(s, f.blk, h) && 0 <= f.pos <= s[f.blk].nkeys
    ensures Child(s, f) in s && 0 <= s[Child(s, f)].nkeys && Count(s[Child(s, f)]) == s[Child(s, f)].nkeys <= ZMXKEY
  {
    NodeChildOK(s, f, h);
  }

  /** The end of a block is the position of its parent. */
  lemma EndOfBlock(s: Store, root: int, H: nat, front: seq<Frame>, f: Frame)
    requires AtPos(s, root, H, front, f)
    ensures |front| > 0 ==>
              var g, up := front[|front| - 1], front[..|front| - 1];
              && AtPos(s, root, H, up, g)
              && (f.pos == Count(s[f.blk]) ==> RightOf(s, root, H, front, f) == RightOf(s, root, H, up, g))
              && (f.pos == 0 ==> LeftOf(s, root, H, front, f) == LeftOf(s, root, H, up, g))
              && |up| < H
    ensures |front| == 0 && f.pos == Count(s[f.blk]) ==> RightOf(s, root, H, front, f) == []
    ensures |front| == 0 && f.pos == 0 ==> LeftOf(s, root, H, front, f) == []
  {
    hide Ents, Blks, Lft, Rgt, Unique, NodeOK, PathOK;
    if f.pos == Count(s[f.blk]) {
      Unit(Rgt(s, root, H, front));
      assert SufAt(s, f, H - |front|) == [];
    }
    if f.pos == 0 {
      Unit(Lft(s, root, H, front));
      assert PreAt(s, f, H - |front|) == [];
    }
    if |front| > 0 {
      PathStep(s, root, H, front);
    } else {
      PathNil(s, root, H, front);
    }
  }
}
