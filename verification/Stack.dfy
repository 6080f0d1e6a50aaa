/** bpush, bpull and bstkin on the real, bounded array, and why it is large
    enough: a tree of h levels holds at least 2^h - 1 keys, and no path through
    it puts more than 2h entries on the stack. */
module Stack {
  import opened Constants
  import opened Blocks
  import opened Seqs
  import opened Trees
  import opened Paths
  import opened Orders
  import opened Context
  import opened Find
  import opened Leaf
  import opened Cursors

  /** Entries of the array in inc/bt.h. */
  const STKMAX: int := 40

  class PathStack {
    const stk: array<int>
    var stkptr: int

    ghost predicate Valid()
      reads this
    {
      stk.Length == STKMAX && -1 <= stkptr < STKMAX
    }

    /** The stack as a sequence, oldest entry first. */
    ghost function Contents(): seq<int>
      requires Valid()
      reads this, stk
    {
      stk[..stkptr + 1]
    }

    constructor ()
      ensures Valid() && fresh(stk) && Contents() == []
    {
      stk := new int[STKMAX];
      stkptr := -1;
    }

    /** bpush.  Its guard looks at the index before it is raised: it lets a push
        onto a full stack pass, which then leaves the array. */
    method Push(val: int) returns (inside: bool)
      requires Valid()
      modifies this`stkptr, stk
      ensures Valid() && (inside <==> |old(Contents())| < STKMAX)
      ensures Contents() == if inside then old(Contents()) + [val] else old(Contents())
    {
      inside := true;
      if stkptr >= STKMAX {
        assert false;  // the source reports QSTKOF here
      } else if stkptr + 1 == stk.Length {
        inside := false;  // the source writes behind the array here
      } else {
        stkptr := stkptr + 1;
        stk[stkptr] := val;
      }
    }

    /** bpull: an empty stack gives 0. */
    method Pull() returns (val: int)
      requires Valid()
      modifies this`stkptr
      ensures Valid()
      ensures |old(Contents())| == 0 ==> val == 0 && Contents() == []
      ensures |old(Contents())| > 0 ==> old(Contents()) == Contents() + [val]
    {
      val := 0;
      if stkptr >= 0 {
        val := stk[stkptr];
        stkptr := stkptr - 1;
      }
    }

    /** bstkin. */
    method Clear()
      requires Valid()
      modifies this`stkptr
      ensures Valid() && Contents() == []
    {
      stkptr := -1;
    }

    /** btstk_depth. */
    method Depth() returns (n: int)
      requires Valid()
      ensures n == |Contents()|
    {
      n := stkptr + 1;
    }
  }

  ghost function Pow2(n: nat): nat {
    if n == 0 then 1 else 2 * Pow2(n - 1)
  }

  /** A node of height h with a key holds at least 2^(h + 1) - 1 of them. */
  lemma {:induction false} NodeFull(s: Store, b: int, h: nat)
    requires NodeOK(s, b, h) && s[b].nkeys >= 1
    ensures |Ents(s, b, h)| >= Pow2(h + 1) - 1
    decreases h, 1, 0
  {
    hide *;
    NodeKids(s, b, h);
    EntsNode(s, b, h);
    CountKeys(s[b]);
    if h > 0 {
      KidsFull(s, Keys(s[b]), Links(s[b]), h);
    }
    Doubles(h, s[b].nkeys);
  }

  lemma Doubles(h: nat, n: nat)
    requires n >= 1
    ensures Pow2(h + 1) == 2 * Pow2(h) && Pow2(h) >= 1
    ensures n * Pow2(h) + (Pow2(h) - 1) >= Pow2(h + 1) - 1
    ensures h == 0 ==> Pow2(h) == 1
    ensures h > 0 ==> Pow2(h) == 2 * Pow2(h - 1)
  {
    assert Pow2(h) >= 1 by {
      PowPositive(h);
    }
    assert n * Pow2(h) >= Pow2(h) by {
      assert (n - 1) * Pow2(h) >= 0;
    }
  }

  lemma PowPositive(n: nat)
    ensures Pow2(n) >= 1
  {
  }

  /** n keys with n + 1 children of height h - 1 around them. */
  lemma {:induction false} KidsFull(s: Store, ks: seq<Entry>, ls: seq<int>, h: nat)
    requires h > 0 && |ls| == |ks| + 1 && KidsOK(s, ls, h - 1)
    ensures |Between(s, ks, ls, h)| >= |ks| * Pow2(h) + (Pow2(h) - 1)
    decreases h, 0, |ks|
  {
    hide *;
    var n := |ks|;
    KidLast(s, ls, h - 1);
    NodeFull(s, ls[n], h - 1);
    if |ks| == 0 {
      BetweenSingle(s, ks, ls, h);
    } else {
      BetweenLast(s, ks, ls, h);
    }
    if n > 0 {
      KidsFull(s, ks[..n - 1], ls[..n], h);
      Times(n, Pow2(h));
    } else {
      Times(0, Pow2(h));
    }
  }

  lemma Times(n: nat, p: nat)
    ensures n > 0 ==> (n - 1) * p + p == n * p
    ensures 0 * p == 0
  {
  }

  lemma KidLast(s: Store, ls: seq<int>, h: nat)
    requires KidsOK(s, ls, h) && |ls| > 0
    ensures NodeOK(s, ls[|ls| - 1], h) && s[ls[|ls| - 1]].nkeys >= 1
    ensures KidsOK(s, ls[..|ls| - 1], h)
  {
    hide NodeOK;
    assert KidOK(s, ls[|ls| - 1], h);
    assert forall i :: 0 <= i < |ls| - 1 ==> ls[..|ls| - 1][i] == ls[i];
  }

  lemma {:induction false} PowGrows(a: nat, b: nat)
    requires a <= b
    ensures Pow2(a) <= Pow2(b)
  {
    if a < b {
      PowGrows(a, b - 1);
    }
  }

  /** Fewer than 2^21 - 1 keys: at most 20 levels. */
  lemma LevelsBound(ix: Index)
    requires ix.Valid() && |ix.Entries()| < Pow2(21) - 1
    ensures 2 * (ix.height + 1) <= STKMAX
  {
    hide Blks, Unique, Ents, NodeOK, Pow2;
    var s, root, H := ix.store, ix.scroot, ix.height;
    if H > 19 {
      NodeFull(s, root, H);
      PowGrows(21, H + 1);
    }
  }

  /** The path of any cursor fits on the stack... */
  lemma CursorFits(ix: Index, es: seq<Entry>, front: seq<Frame>, c: Cursor)
    requires ix.Valid() && |ix.Entries()| < Pow2(21) - 1
    requires Shows(ix, es, front, c) && c != Off
    ensures |ix.stk| <= 2 * (ix.height + 1) <= STKMAX
  {
    hide *;
    LevelsBound(ix);
    CursorDepth(ix, es, front, c);
    StackLength(ix.stk, front, Frame(ix.lfblk, ix.lfpos));
  }

  lemma CursorDepth(ix: Index, es: seq<Entry>, front: seq<Frame>, c: Cursor)
    requires Shows(ix, es, front, c) && c != Off
    ensures |front| <= ix.height && OnPath(ix.stk, ix.lfblk, ix.lfpos, front + [Frame(ix.lfblk, ix.lfpos)])
  {
    hide OnPath, NodeOK, Blks, Ents, RightOf, PathOK;
  }

  lemma StackLength(stk: seq<int>, front: seq<Frame>, f: Frame)
    requires OnPath(stk, f.blk, f.pos, front + [f])
    ensures |stk| == 2 * (|front| + 1)
  {
  }

  /** ... and so does the path of a search in progress, and the two entries it
      is about to push. */
  lemma SearchFits(ix: Index, es: seq<Entry>, fs: seq<Frame>, cblk: int, key: int)
    requires Walking(ix, es, fs, cblk, key) && |es| < Pow2(21) - 1
    ensures |ix.stk| + 2 <= 2 * (ix.height + 1) <= STKMAX
  {
    hide *;
    WalkingValid(ix, es, fs, cblk, key);
    LevelsBound(ix);
    WalkingFacts(ix, es, fs, cblk, key);
    PathLength(ix.stk, ix.lfblk, ix.lfpos, fs);
  }

  lemma WalkingValid(ix: Index, es: seq<Entry>, fs: seq<Frame>, cblk: int, key: int)
    requires Walking(ix, es, fs, cblk, key)
    ensures ix.Valid() && ix.Entries() == es
  {
    hide Lft, Rgt, AllBelow, AllAbove, Sorted, PathOK, AllocOK;
  }

  lemma PathLength(stk: seq<int>, lfblk: int, lfpos: int, fs: seq<Frame>)
    requires OnPath(stk, lfblk, lfpos, fs)
    ensures |stk| == 2 * |fs|
  {
  }
}
