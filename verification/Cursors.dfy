/** bnxtky, bprvky and btpos: the path stack and the last found position are a
    cursor into the sorted entries of the tree.

    Cursor is what the context means: on an entry, in the gap before an entry,
    or past an end.  Next and Prev say what a step should do; the methods are
    proved to do it, whatever mix of steps came before. */
module Cursors {
  import opened Constants
  import opened Blocks
  import opened Seqs
  import opened Trees
  import opened Paths
  import opened Orders
  import opened Context
  import opened Split
  import opened Find
  import opened Leaf

  datatype Cursor = On(at: nat) | Gap(at: nat) | Off

  ghost function Next(c: Cursor, n: nat): Cursor {
    match c
    case On(i) => if i + 1 < n then On(i + 1) else Off
    case Gap(i) => if i < n then On(i) else Off
    case Off => Off
  }

  ghost function Prev(c: Cursor, n: nat): Cursor {
    match c
    case On(i) => if i > 0 then On(i - 1) else Off
    case Gap(i) => if i > 0 then On(i - 1) else Off
    case Off => Off
  }

  /** The context stands at a position of the tree, with the entries from t on
      to its right. */
  ghost predicate Ahead(ix: Index, es: seq<Entry>, front: seq<Frame>, t: int)
    reads ix`store, ix`scroot, ix`height, ix`lfblk, ix`lfpos, ix`stk
  {
    var f := Frame(ix.lfblk, ix.lfpos);
    && AtPos(ix.store, ix.scroot, ix.height, front, f)
    && OnPath(ix.stk, f.blk, f.pos, front + [f])
    && es == Ents(ix.store, ix.scroot, ix.height)
    && 0 <= t <= |es| && RightOf(ix.store, ix.scroot, ix.height, front, f) == es[t..]
  }

  /** The context of an empty root, with whatever position. */
  ghost predicate Hollow(ix: Index, es: seq<Entry>, front: seq<Frame>)
    reads ix`store, ix`scroot, ix`height, ix`lfblk, ix`lfpos, ix`stk
  {
    && ix.lfblk == ix.scroot && ix.scroot != ZNULL && ix.scroot in ix.store && ix.store[ix.scroot].nkeys == 0
    && es == [] && front == [] && ix.height == 0
    && OnPath(ix.stk, ix.lfblk, ix.lfpos, front + [Frame(ix.lfblk, ix.lfpos)])
  }

  /** The context stands at entry i. */
  ghost predicate OnKey(ix: Index, es: seq<Entry>, front: seq<Frame>, i: int)
    reads ix`store, ix`scroot, ix`height, ix`lfblk, ix`lfpos, ix`stk
  {
    Ahead(ix, es, front, i) && i < |es| && ix.lfblk in ix.store && ix.lfpos < Count(ix.store[ix.lfblk])
  }

  /** The context behind the last key or before the first one: a delete there is
      refused, and a step leads nowhere. */
  ghost predicate Nowhere(ix: Index)
    reads ix`lfblk, ix`lfexct, ix`stk
  {
    ix.lfblk == ZNULL && !ix.lfexct && ix.stk == []
  }

  ghost predicate Shows(ix: Index, es: seq<Entry>, front: seq<Frame>, c: Cursor)
    reads ix`store, ix`scroot, ix`height, ix`lfblk, ix`lfpos, ix`stk, ix`lfexct
  {
    match c
    case Off => Nowhere(ix)
    case On(i) => ix.lfexct && OnKey(ix, es, front, i)
    case Gap(i) => !ix.lfexct && ((Ahead(ix, es, front, i) && |front| == ix.height) || (Hollow(ix, es, front) && i == 0))
  }

  // ---------------------------------------------------------------------
  // Positions
  // ---------------------------------------------------------------------

  /** Stepping over a key: the position before it and the one after. */
  lemma KeyStep(s: Store, root: int, H: nat, front: seq<Frame>, blk: int, p: nat)
    returns (m: seq<Entry>)
    requires AtPos(s, root, H, front, Frame(blk, p)) && p < Count(s[blk])
    ensures AtPos(s, root, H, front, Frame(blk, p + 1)) && p < |Keys(s[blk])|
    ensures LeftOf(s, root, H, front, Frame(blk, p + 1)) == m + [Keys(s[blk])[p]]
    ensures Ents(s, root, H) == m + RightOf(s, root, H, front, Frame(blk, p))
    ensures var r := RightOf(s, root, H, front, Frame(blk, p)); |r| > 0 && r[0] == Keys(s[blk])[p]
  {
    hide Ents, Blks, Lft, Rgt, Unique, NodeOK, PathOK, PreOf, Between, SufOf;
    var f, g, h := Frame(blk, p), Frame(blk, p + 1), H - |front|;
    var ks, ls := Keys(s[blk]), Links(s[blk]);
    Around(s, root, H, front, f);
    var c := if h == 0 then [] else Ents(s, Child(s, f), h - 1);
    m := LeftOf(s, root, H, front, f) + c;
    KeySides(s, blk, p, h);
    assert PreAt(s, g, h) == PreAt(s, f, h) + c + [ks[p]];
    var a := Lft(s, root, H, front);
    assert a + (PreAt(s, f, h) + c + [ks[p]]) == a + PreAt(s, f, h) + c + [ks[p]];
    Unit(LeftOf(s, root, H, front, f));
  }

  lemma KeySides(s: Store, blk: int, p: nat, h: nat)
    requires blk in s && p < Count(s[blk])
    ensures p < |Keys(s[blk])| && p + 1 <= Count(s[blk])
    ensures var c := if h == 0 then [] else Ents(s, Child(s, Frame(blk, p)), h - 1);
            PreAt(s, Frame(blk, p + 1), h) == PreAt(s, Frame(blk, p), h) + c + [Keys(s[blk])[p]]
    ensures |SufAt(s, Frame(blk, p), h)| > 0 && SufAt(s, Frame(blk, p), h)[0] == Keys(s[blk])[p]
  {
    hide Ents, Between;
    var ks, ls := Keys(s[blk]), Links(s[blk]);
    assert ks[..p + 1][..p] == ks[..p];
    assert ls[..p + 1] == ls[..p] + [ls[p]];
    PartsLeft(s, ks[..p], ls[..p], [], [ls[p]], h);
    Unit(ks[..p]);
    BetweenEmpty(s, ls[p], h);
  }

  lemma BetweenEmpty(s: Store, b: int, h: nat)
    ensures Between(s, [], [b], h) == if h == 0 then [] else Ents(s, b, h - 1)
  {
  }

  /** The position after key i has the entries from i + 1 on to its right or
      below it. */
  lemma StepIndex(es: seq<Entry>, m: seq<Entry>, r: seq<Entry>, i: nat)
    requires es == m + r && i <= |es| && r == es[i..] && |r| > 0
    ensures i < |es| && es[i] == r[0] && m + [r[0]] == es[..i + 1]
  {
    assert |m| == i;
  }

  lemma CutIndex(es: seq<Entry>, m: seq<Entry>, r: seq<Entry>, i: nat)
    requires es == m + r && i <= |es| && m == es[..i]
    ensures r == es[i..]
  {
  }

  /** Stepping back over a key. */
  lemma BackIndex(es: seq<Entry>, m: seq<Entry>, e: Entry, r: seq<Entry>, u: nat)
    requires es == m + r && u <= |es| && m + [e] == es[..u] && |r| > 0
    ensures u > 0 && r == es[u - 1..] && es[u - 1] == r[0]
  {
    assert |m| == u - 1;
  }

  lemma AheadFacts(ix: Index, es: seq<Entry>, front: seq<Frame>, t: int)
    requires Ahead(ix, es, front, t)
    ensures var f := Frame(ix.lfblk, ix.lfpos);
            && AtPos(ix.store, ix.scroot, ix.height, front, f)
            && OnPath(ix.stk, f.blk, f.pos, front + [f])
            && es == Ents(ix.store, ix.scroot, ix.height)
            && 0 <= t <= |es| && RightOf(ix.store, ix.scroot, ix.height, front, f) == es[t..]
            && f.blk in ix.store && 0 <= f.pos <= ix.store[f.blk].nkeys <= ZMXKEY && |front| <= ix.height
            && Count(ix.store[f.blk]) == ix.store[f.blk].nkeys && f.blk != ZNULL
            && (|front| > 0 ==> ix.store[f.blk].nkeys >= 1)
            && (ix.store[f.blk].nkeys > 0 ==> (|front| == ix.height <==> ix.store[f.blk].link[f.pos] == ZNULL))
            && |Keys(ix.store[f.blk])| == ix.store[f.blk].nkeys
            && forall j :: 0 <= j < ix.store[f.blk].nkeys ==> Keys(ix.store[f.blk])[j] == ix.store[f.blk].key[j]
  {
    hide AtPos, OnPath, Ents, RightOf, Keys;
    AtPosFacts(ix.store, ix.scroot, ix.height, front, Frame(ix.lfblk, ix.lfpos));
    PosNode(ix.store, ix.scroot, ix.height, front, Frame(ix.lfblk, ix.lfpos));
  }

  lemma PosNode(s: Store, root: int, H: nat, front: seq<Frame>, f: Frame)
    requires AtPos(s, root, H, front, f)
    ensures f.blk != ZNULL && f.blk in s && Count(s[f.blk]) == s[f.blk].nkeys
    ensures |Keys(s[f.blk])| == s[f.blk].nkeys
    ensures forall j :: 0 <= j < s[f.blk].nkeys ==> Keys(s[f.blk])[j] == s[f.blk].key[j]
  {
    hide Ents, Blks, Lft, Rgt, Unique, NodeOK, PathOK;
    PathTarget(s, root, H, front);
    NodeKids(s, f.blk, H - |front|);
  }

  lemma MakeAhead(ix: Index, es: seq<Entry>, front: seq<Frame>, t: int)
    requires var f := Frame(ix.lfblk, ix.lfpos);
            && AtPos(ix.store, ix.scroot, ix.height, front, f)
            && OnPath(ix.stk, f.blk, f.pos, front + [f])
            && es == Ents(ix.store, ix.scroot, ix.height)
            && 0 <= t <= |es| && RightOf(ix.store, ix.scroot, ix.height, front, f) == es[t..]
    ensures Ahead(ix, es, front, t)
  {
    hide AtPos, OnPath, Ents, RightOf;
  }

  // ---------------------------------------------------------------------
  // bnxtky
  // ---------------------------------------------------------------------

  /** Nothing right of the context in this block. */
  ghost predicate AtEnd(ix: Index, es: seq<Entry>, front: seq<Frame>, t: int)
    reads ix`store, ix`scroot, ix`height, ix`lfblk, ix`lfpos, ix`stk
  {
    || (Ahead(ix, es, front, t) && ix.lfblk in ix.store && ix.lfpos == Count(ix.store[ix.lfblk]))
    || (Hollow(ix, es, front) && t == 0)
  }

  lemma AtEndOpen(ix: Index, es: seq<Entry>, front: seq<Frame>, t: int)
    requires AtEnd(ix, es, front, t)
    ensures || (Ahead(ix, es, front, t) && ix.lfblk in ix.store && ix.lfpos == Count(ix.store[ix.lfblk]))
            || (Hollow(ix, es, front) && t == 0)
  {
    hide Ahead, Hollow;
  }

  /** Leaving a finished block (or an empty root) for its parent. */
  method PullUp(ix: Index, ghost es: seq<Entry>, ghost front: seq<Frame>, ghost t: int)
    returns (ghost up: seq<Frame>)
    requires AtEnd(ix, es, front, t)
    modifies ix`stk, ix`lfblk, ix`lfpos, ix`lfexct
    ensures !ix.lfexct
    ensures ix.lfblk == ZNULL ==> t == |es| && Nowhere(ix)
    ensures ix.lfblk != ZNULL ==> Ahead(ix, es, up, t) && |up| < |front|
  {
    assert ZNULL == -1;
    hide *;
    up := if |front| > 0 then front[..|front| - 1] else [];
    UpReady(ix, es, front, t);
    ghost var fs := front + [Frame(ix.lfblk, ix.lfpos)];
    PullFrame(ix, fs);
    assert fs[..|fs| - 1] == front;
    ix.lfexct := false;
    BottomReached(ix, front);
    if |front| > 0 {
      assert front == up + [Frame(ix.lfblk, ix.lfpos)];
      MakeAhead(ix, es, up, t);
    }
  }

  /** What leaving a block needs. */
  lemma UpReady(ix: Index, es: seq<Entry>, front: seq<Frame>, t: int)
    requires AtEnd(ix, es, front, t)
    ensures StackOn(ix.stk, front + [Frame(ix.lfblk, ix.lfpos)])
    ensures |front| == 0 ==> t == |es|
    ensures |front| > 0 ==>
              var g, up := front[|front| - 1], front[..|front| - 1];
              && AtPos(ix.store, ix.scroot, ix.height, up, g) && g.blk != ZNULL
              && es == Ents(ix.store, ix.scroot, ix.height)
              && 0 <= t <= |es| && RightOf(ix.store, ix.scroot, ix.height, up, g) == es[t..]
  {
    hide *;
    AtEndOpen(ix, es, front, t);
    var f := Frame(ix.lfblk, ix.lfpos);
    if Hollow(ix, es, front) && t == 0 {
      HollowFacts(ix, es, front);
    } else {
      AheadFacts(ix, es, front, t);
      EndOfBlock(ix.store, ix.scroot, ix.height, front, f);
    }
    OnPathStack(ix.stk, ix.lfblk, ix.lfpos, front + [f]);
    if |front| > 0 {
      PosNode(ix.store, ix.scroot, ix.height, front[..|front| - 1], front[|front| - 1]);
    }
  }

  lemma BottomReached(ix: Index, front: seq<Frame>)
    requires OnPath(ix.stk, ix.lfblk, ix.lfpos, front) && !ix.lfexct
    ensures |front| == 0 ==> ix.lfblk == ZNULL && Nowhere(ix)
    ensures |front| > 0 ==> front[|front| - 1] == Frame(ix.lfblk, ix.lfpos)
  {
  }

  lemma HollowFacts(ix: Index, es: seq<Entry>, front: seq<Frame>)
    requires Hollow(ix, es, front)
    ensures ix.lfblk == ix.scroot && ix.scroot != ZNULL && ix.scroot in ix.store && ix.store[ix.scroot].nkeys == 0
    ensures es == [] && front == [] && ix.height == 0
    ensures OnPath(ix.stk, ix.lfblk, ix.lfpos, front + [Frame(ix.lfblk, ix.lfpos)])
  {
  }

  /** From a key to the position right of it, and down to a leaf. */
  method StepRight(ix: Index, ghost es: seq<Entry>, ghost front: seq<Frame>, ghost i: nat)
    returns (ghost front': seq<Frame>)
    requires Calm(ix)
    requires OnKey(ix, es, front, i)
    modifies ix`stk, ix`lfblk, ix`lfpos
    ensures i < |es| && Ahead(ix, es, front', i + 1)
    ensures ix.lfblk in ix.store && ix.lfblk != ZNULL
    ensures ix.lfpos < old(ix.store[ix.lfblk].nkeys) <==> ix.lfpos < Count(ix.store[ix.lfblk])
  {
    hide *;
    OnKeyFacts(ix, es, front, i);
    AheadFacts(ix, es, front, i);
    ghost var s, root, H, blk, p := ix.store, ix.scroot, ix.height, ix.lfblk, ix.lfpos;
    ghost var m := KeyStep(s, root, H, front, blk, p);
    StepIndex(es, m, RightOf(s, root, H, front, Frame(blk, p)), i);
    OnPathStack(ix.stk, ix.lfblk, ix.lfpos, front + [Frame(blk, p)]);
    ix.lfpos := ix.lfpos + 1;
    StackTop(ix.stk, front, Frame(blk, p), Frame(blk, p + 1));
    OnPathLast(ix.stk, front, Frame(blk, p + 1));
    SeesSelf(ix.store, ix.height, front, Frame(ix.lfblk, ix.lfpos));
    front' := GoLeaf(ix, 0, front, ix.store);
    ghost var f' := Frame(ix.lfblk, ix.lfpos);
    Around(s, root, H, front', f');
    PosNode(s, root, H, front', f');
    CutIndex(es, LeftOf(s, root, H, front', f'), RightOf(s, root, H, front', f'), i + 1);
    MakeAhead(ix, es, front', i + 1);
    if |front| < H {
      AtPosFacts(s, root, H, front', f');
    }
  }

  lemma OnKeyFacts(ix: Index, es: seq<Entry>, front: seq<Frame>, i: int)
    requires OnKey(ix, es, front, i)
    ensures 0 <= i < |es| && Ahead(ix, es, front, i)
    ensures ix.lfblk in ix.store && 0 <= ix.lfpos < ix.store[ix.lfblk].nkeys <= ZMXKEY
    ensures Count(ix.store[ix.lfblk]) == ix.store[ix.lfblk].nkeys && ix.lfblk != ZNULL
    ensures ix.store[ix.lfblk].key[ix.lfpos] == es[i]
  {
    hide Ahead;
    AheadFacts(ix, es, front, i);
    var m := KeyStep(ix.store, ix.scroot, ix.height, front, ix.lfblk, ix.lfpos);
    StepIndex(es, m, RightOf(ix.store, ix.scroot, ix.height, front, Frame(ix.lfblk, ix.lfpos)), i);
  }

  lemma MakeOnKey(ix: Index, es: seq<Entry>, front: seq<Frame>, i: int)
    requires Ahead(ix, es, front, i) && ix.lfblk in ix.store && ix.lfpos < Count(ix.store[ix.lfblk])
    ensures OnKey(ix, es, front, i)
  {
    hide Ahead;
    AheadFacts(ix, es, front, i);
    var m := KeyStep(ix.store, ix.scroot, ix.height, front, ix.lfblk, ix.lfpos);
    StepIndex(es, m, RightOf(ix.store, ix.scroot, ix.height, front, Frame(ix.lfblk, ix.lfpos)), i);
  }

  /** The entry a step to the right should reach; |es| when there is none. */
  ghost function NextAt(c: Cursor, n: nat): nat {
    match c
    case On(i) => i + 1
    case Gap(i) => i
    case Off => n
  }

  /** A step to the right in progress: nothing done yet, the target is the first
      entry ahead, or it is reached. */
  ghost predicate Going(ix: Index, es: seq<Entry>, front: seq<Frame>, c: Cursor, start: bool, found: bool)
    reads ix`store, ix`scroot, ix`height, ix`lfblk, ix`lfpos, ix`stk, ix`lfexct
  {
    var t := NextAt(c, |es|);
    if found then ix.lfexct && OnKey(ix, es, front, t)
    else if ix.lfblk == ZNULL then t == |es| && Nowhere(ix)
    else if start then c.On? && ix.lfexct && OnKey(ix, es, front, c.at)
    else (Ahead(ix, es, front, t) && ix.lfblk in ix.store && (ix.lfexct ==> ix.lfpos >= ix.store[ix.lfblk].nkeys))
         || (Hollow(ix, es, front) && t == 0)
  }

  lemma GoingStart(ix: Index, es: seq<Entry>, front: seq<Frame>, c: Cursor)
    requires Shows(ix, es, front, c)
    ensures Going(ix, es, front, c, c.On?, false)
  {
    hide Ahead, Hollow, OnKey;
    match c {
      case Off =>
      case On(i) => OnKeyFacts(ix, es, front, i);
      case Gap(i) =>
        if Ahead(ix, es, front, i) {
          AheadFacts(ix, es, front, i);
        } else {
          HollowFacts(ix, es, front);
        }
    }
  }

  /** What the loop of bnxtky can do next. */
  lemma GoingOpen(ix: Index, es: seq<Entry>, front: seq<Frame>, c: Cursor, start: bool)
    requires Going(ix, es, front, c, start, false) && ix.lfblk != ZNULL
    ensures ix.lfblk in ix.store
    ensures var t, nkeys := NextAt(c, |es|), ix.store[ix.lfblk].nkeys;
            if ix.lfpos >= nkeys || nkeys == 0 then
              !start && AtEnd(ix, es, front, t)
            else if ix.lfexct then start && c.On? && OnKey(ix, es, front, c.at) && t == c.at + 1
            else !start && OnKey(ix, es, front, t)
  {
    hide Ahead, Hollow, OnKey;
    var t := NextAt(c, |es|);
    if start {
      OnKeyFacts(ix, es, front, c.at);
    } else if Hollow(ix, es, front) && t == 0 {
      HollowFacts(ix, es, front);
    } else {
      AheadFacts(ix, es, front, t);
      if ix.lfpos < ix.store[ix.lfblk].nkeys {
        MakeOnKey(ix, es, front, t);
      }
    }
  }

  lemma GoingMore(ix: Index, es: seq<Entry>, front: seq<Frame>, c: Cursor)
    requires ix.lfblk == ZNULL ==> NextAt(c, |es|) == |es| && Nowhere(ix)
    requires ix.lfblk != ZNULL ==> Ahead(ix, es, front, NextAt(c, |es|))
    requires ix.lfblk != ZNULL && ix.lfexct && ix.lfblk in ix.store ==> ix.lfpos >= Count(ix.store[ix.lfblk])
    ensures Going(ix, es, front, c, false, false)
  {
    hide Ahead, Hollow, OnKey;
    if ix.lfblk != ZNULL {
      AheadFacts(ix, es, front, NextAt(c, |es|));
    }
  }

  lemma GoingFound(ix: Index, es: seq<Entry>, front: seq<Frame>, c: Cursor, start: bool)
    requires ix.lfexct && OnKey(ix, es, front, NextAt(c, |es|))
    ensures Going(ix, es, front, c, start, true)
  {
  }

  lemma GoingOver(ix: Index, es: seq<Entry>, front: seq<Frame>, c: Cursor, start: bool, found: bool)
    requires Going(ix, es, front, c, start, found) && (found || ix.lfblk == ZNULL)
    ensures found <==> ix.lfblk != ZNULL
    ensures found ==> Next(c, |es|) == On(NextAt(c, |es|)) && NextAt(c, |es|) < |es|
    ensures !found ==> Next(c, |es|) == Off
    ensures Shows(ix, es, front, Next(c, |es|))
  {
    hide Ahead, Hollow, OnKey;
    if found {
      OnKeyFacts(ix, es, front, NextAt(c, |es|));
    }
  }

  /** bnxtky in exclusive mode, without duplicates. */
  method NextKey(ix: Index, ghost es: seq<Entry>, ghost front: seq<Frame>, ghost c: Cursor)
    returns (status: int, key: int, val: int, ghost front': seq<Frame>)
    requires Calm(ix)
    requires Shows(ix, es, front, c)
    modifies ix`stk, ix`lfblk, ix`lfpos, ix`lfexct, ix`lfkey
    ensures Shows(ix, es, front', Next(c, |es|))
    ensures match Next(c, |es|)
            case On(j) => status == 0 && j < |es| && key == es[j].key && val == es[j].val && ix.lfkey == key
            case _ => status == QNOKEY && ix.lfpos == ZNULL && ix.lfkey == 0
  {
    hide *;
    status, key, val, front' := 0, 0, 0, front;
    var found := false;
    ghost var start, t := c.On?, NextAt(c, |es|);
    GoingStart(ix, es, front, c);
    while ix.lfblk != ZNULL && !found
      invariant Going(ix, es, front', c, start, found)
      invariant found ==> t < |es| && key == es[t].key && val == es[t].val && ix.lfkey == key
      decreases start, if ix.lfblk == ZNULL || found then 0 else |front'| + 1
    {
      GoingOpen(ix, es, front', c, start);
      var b := Read(ix, ix.lfblk);
      var nkeys := b.nkeys;
      if ix.lfpos >= nkeys || nkeys == 0 {
        front' := PullUp(ix, es, front', t);
        GoingMore(ix, es, front', c);
        continue;
      }
      if !ix.lfexct {
        ix.lfexct := true;
      } else {
        front' := StepRight(ix, es, front', c.at);
        start := false;
      }
      if ix.lfpos < nkeys {
        found := true;
        MakeOnKeyOf(ix, es, front', t);
        OnKeyFacts(ix, es, front', t);
        b := Read(ix, ix.lfblk);
        key := b.key[ix.lfpos].key;
        ix.lfkey := key;
        val := b.key[ix.lfpos].val;
        GoingFound(ix, es, front', c, start);
      } else {
        GoingMore(ix, es, front', c);
      }
    }
    GoingOver(ix, es, front', c, start, found);
    OffShown(ix, es, front');
    if ix.lfblk == ZNULL {
      ix.lfblk, ix.lfpos, ix.lfexct := ZNULL, ZNULL, false;
      ix.lfkey := 0;
      status := QNOKEY;
      OffShown(ix, es, front');
    }
  }

  lemma OffShown(ix: Index, es: seq<Entry>, front: seq<Frame>)
    ensures Shows(ix, es, front, Off) <==> ix.lfblk == ZNULL && !ix.lfexct && ix.stk == []
  {
  }

  lemma MakeOnKeyOf(ix: Index, es: seq<Entry>, front: seq<Frame>, i: int)
    requires OnKey(ix, es, front, i)
          || (Ahead(ix, es, front, i) && ix.lfblk in ix.store && ix.lfpos < Count(ix.store[ix.lfblk]))
    ensures OnKey(ix, es, front, i)
  {
    hide *;
    if !OnKey(ix, es, front, i) {
      MakeOnKey(ix, es, front, i);
    }
  }

  // ---------------------------------------------------------------------
  // bprvky
  // ---------------------------------------------------------------------

  /** The number of entries left of the cursor. */
  ghost function PrevAt(c: Cursor): nat {
    match c
    case On(i) => i
    case Gap(i) => i
    case Off => 0
  }

  /** The context stands just before a position of the tree, with the first u
      entries to the left of that. */
  ghost predicate Behind(ix: Index, es: seq<Entry>, front: seq<Frame>, u: int)
    reads ix`store, ix`scroot, ix`height, ix`lfblk, ix`lfpos, ix`stk
  {
    var f := Frame(ix.lfblk, ix.lfpos + 1);
    && AtPos(ix.store, ix.scroot, ix.height, front, f)
    && StackOn(ix.stk, front + [f])
    && es == Ents(ix.store, ix.scroot, ix.height)
    && 0 <= u <= |es| && LeftOf(ix.store, ix.scroot, ix.height, front, f) == es[..u]
  }

  lemma BehindFacts(ix: Index, es: seq<Entry>, front: seq<Frame>, u: int)
    requires Behind(ix, es, front, u)
    ensures var f := Frame(ix.lfblk, ix.lfpos + 1);
            && AtPos(ix.store, ix.scroot, ix.height, front, f)
            && StackOn(ix.stk, front + [f])
            && es == Ents(ix.store, ix.scroot, ix.height)
            && 0 <= u <= |es| && LeftOf(ix.store, ix.scroot, ix.height, front, f) == es[..u]
            && f.blk in ix.store && f.blk != ZNULL && 0 <= f.pos <= ix.store[f.blk].nkeys <= ZMXKEY
            && Count(ix.store[f.blk]) == ix.store[f.blk].nkeys && |front| <= ix.height
            && (f.pos > 0 ==> AtPos(ix.store, ix.scroot, ix.height, front, Frame(ix.lfblk, ix.lfpos)))
            && (f.pos > 0 && |front| < ix.height ==> ix.store[f.blk].link[ix.lfpos] != ZNULL)
            && (|front| > 0 ==> ix.store[f.blk].nkeys >= 1)
  {
    hide OnPath, Ents, LeftOf, Keys, NodeOK, Blks, PathOK, Unique, StackOn;
    var f := Frame(ix.lfblk, ix.lfpos + 1);
    AtPosFacts(ix.store, ix.scroot, ix.height, front, f);
    PosNode(ix.store, ix.scroot, ix.height, front, f);
    if f.pos > 0 {
      AtPosFacts(ix.store, ix.scroot, ix.height, front, Frame(ix.lfblk, ix.lfpos));
    }
  }

  lemma MakeBehind(ix: Index, es: seq<Entry>, front: seq<Frame>, u: int)
    requires var f := Frame(ix.lfblk, ix.lfpos + 1);
            && AtPos(ix.store, ix.scroot, ix.height, front, f)
            && StackOn(ix.stk, front + [f])
            && es == Ents(ix.store, ix.scroot, ix.height)
            && 0 <= u <= |es| && LeftOf(ix.store, ix.scroot, ix.height, front, f) == es[..u]
    ensures Behind(ix, es, front, u)
  {
    hide AtPos, StackOn, Ents, LeftOf;
  }

  /** A position in a block that is just before the next one stands at a key. */
  lemma BackOnKey(ix: Index, es: seq<Entry>, front: seq<Frame>, u: int)
    requires Behind(ix, es, front, u) && ix.lfpos >= 0
    ensures u > 0 && OnKey(ix, es, front, u - 1)
  {
    hide *;
    BehindFacts(ix, es, front, u);
    var s, root, H, f := ix.store, ix.scroot, ix.height, Frame(ix.lfblk, ix.lfpos);
    var m := KeyStep(s, root, H, front, ix.lfblk, ix.lfpos);
    BackIndex(es, m, Keys(s[ix.lfblk])[ix.lfpos], RightOf(s, root, H, front, f), u);
    StackTop(ix.stk, front, Frame(ix.lfblk, ix.lfpos + 1), f);
    OnPathLast(ix.stk, front, f);
    MakeAhead(ix, es, front, u - 1);
    MakeOnKey(ix, es, front, u - 1);
  }

  /** In a leaf, one position back. */
  method LeafBack(ix: Index, ghost es: seq<Entry>, ghost front: seq<Frame>, ghost i: nat)
    requires Ahead(ix, es, front, i) && |front| == ix.height
    modifies ix`lfpos
    ensures Behind(ix, es, front, i) && ix.lfpos == old(ix.lfpos) - 1
  {
    hide *;
    AheadFacts(ix, es, front, i);
    ghost var f := Frame(ix.lfblk, ix.lfpos);
    Around(ix.store, ix.scroot, ix.height, front, f);
    LeftIndex(es, LeftOf(ix.store, ix.scroot, ix.height, front, f), RightOf(ix.store, ix.scroot, ix.height, front, f), i);
    OnPathStack(ix.stk, ix.lfblk, ix.lfpos, front + [f]);
    ix.lfpos := ix.lfpos - 1;
    MakeBehind(ix, es, front, i);
  }

  lemma LeftIndex(es: seq<Entry>, m: seq<Entry>, r: seq<Entry>, i: nat)
    requires es == m + r && i <= |es| && r == es[i..]
    ensures m == es[..i]
  {
    assert |m| == i;
  }

  /** From a key down to the last leaf below the child to its left. */
  method StepLeft(ix: Index, ghost es: seq<Entry>, ghost front: seq<Frame>, ghost i: nat)
    returns (ghost front': seq<Frame>)
    requires Calm(ix)
    requires OnKey(ix, es, front, i)
    modifies ix`stk, ix`lfblk, ix`lfpos
    ensures Behind(ix, es, front', i) && |front'| == ix.height
  {
    hide *;
    OnKeyFacts(ix, es, front, i);
    AheadFacts(ix, es, front, i);
    SeesSelf(ix.store, ix.height, front, Frame(ix.lfblk, ix.lfpos));
    front' := GoLeaf(ix, 1, front, ix.store);
    MakeAhead(ix, es, front', i);
    LeafBack(ix, es, front', i);
  }

  /** Nothing left of the context in this block. */
  ghost predicate AtStart(ix: Index, es: seq<Entry>, front: seq<Frame>, u: int)
    reads ix`store, ix`scroot, ix`height, ix`lfblk, ix`lfpos, ix`stk
  {
    || (Behind(ix, es, front, u) && ix.lfpos < 0)
    || (u == 0 && front == [] && OnPath(ix.stk, ix.lfblk, ix.lfpos, front + [Frame(ix.lfblk, ix.lfpos)]))
  }

  lemma StartOfBlock(ix: Index, es: seq<Entry>, front: seq<Frame>, u: int)
    requires AtStart(ix, es, front, u)
    ensures StackOn(ix.stk, front + [Frame(ix.lfblk, ix.lfpos)])
    ensures |front| == 0 ==> u == 0
    ensures |front| > 0 ==>
              var g, up := front[|front| - 1], front[..|front| - 1];
              && AtPos(ix.store, ix.scroot, ix.height, up, g) && |up| < ix.height && g.blk != ZNULL
              && es == Ents(ix.store, ix.scroot, ix.height)
              && 0 <= u <= |es| && LeftOf(ix.store, ix.scroot, ix.height, up, g) == es[..u]
  {
    hide Behind, OnPath, StackOn, LeftOf, AtPos, Ents;
    var f := Frame(ix.lfblk, ix.lfpos);
    if Behind(ix, es, front, u) && ix.lfpos < 0 {
      BehindFacts(ix, es, front, u);
      EndOfBlock(ix.store, ix.scroot, ix.height, front, Frame(ix.lfblk, ix.lfpos + 1));
      StackTop(ix.stk, front, Frame(ix.lfblk, ix.lfpos + 1), f);
      if |front| == 0 {
        StartEmpty(ix, es, front, u);
      }
    } else {
      OnPathStack(ix.stk, ix.lfblk, ix.lfpos, front + [f]);
    }
    if |front| > 0 {
      PosNode(ix.store, ix.scroot, ix.height, front[..|front| - 1], front[|front| - 1]);
    }
  }

  lemma StartEmpty(ix: Index, es: seq<Entry>, front: seq<Frame>, u: int)
    requires Behind(ix, es, front, u)
    requires LeftOf(ix.store, ix.scroot, ix.height, front, Frame(ix.lfblk, ix.lfpos + 1)) == []
    ensures u == 0
  {
    hide LeftOf, AtPos, Ents, StackOn;
  }

  /** Leaving a block to the left (or an empty root) for its parent. */
  method PullBack(ix: Index, ghost es: seq<Entry>, ghost front: seq<Frame>, ghost u: int)
    returns (ghost up: seq<Frame>)
    requires Calm(ix)
    requires AtStart(ix, es, front, u)
    modifies ix`stk, ix`lfblk, ix`lfpos, ix`lfexct
    ensures !ix.lfexct
    ensures ix.lfblk == ZNULL ==> u == 0 && Nowhere(ix)
    ensures ix.lfblk != ZNULL ==> Behind(ix, es, up, u) && |up| < |front| && |up| < ix.height
  {
    assert ZNULL == -1;
    hide *;
    up := if |front| > 0 then front[..|front| - 1] else [];
    StartOfBlock(ix, es, front, u);
    ghost var fs := front + [Frame(ix.lfblk, ix.lfpos)];
    PullFrame(ix, fs);
    assert fs[..|fs| - 1] == front;
    OnPathStack(ix.stk, ix.lfblk, ix.lfpos, front);
    ghost var g := Frame(ix.lfblk, ix.lfpos);
    ix.lfpos := ix.lfpos - 1;
    ix.lfexct := false;
    if |front| > 0 {
      assert front == up + [g];
      MakeBehind(ix, es, up, u);
    }
  }

  /** A step to the left in progress: nothing done yet, the entries left of the
      cursor are just behind, or the last of them is reached. */
  ghost predicate Backing(ix: Index, es: seq<Entry>, front: seq<Frame>, c: Cursor, start: bool, found: bool)
    reads ix`store, ix`scroot, ix`height, ix`lfblk, ix`lfpos, ix`stk, ix`lfexct
  {
    var u := PrevAt(c);
    if found then ix.lfexct && u > 0 && OnKey(ix, es, front, u - 1)
    else if ix.lfblk == ZNULL then u == 0 && Nowhere(ix)
    else if start then Shows(ix, es, front, c)
    else Behind(ix, es, front, u) && (ix.lfpos >= 0 ==> !ix.lfexct && |front| < ix.height)
  }

  /** What the loop of bprvky can do next. */
  lemma BackingOpen(ix: Index, es: seq<Entry>, front: seq<Frame>, c: Cursor, start: bool)
    requires Backing(ix, es, front, c, start, false) && ix.lfblk != ZNULL
    ensures ix.lfblk in ix.store && 0 <= ix.store[ix.lfblk].nkeys <= ZMXKEY
    ensures var u, nkeys := PrevAt(c), ix.store[ix.lfblk].nkeys;
            if ix.lfpos < 0 || nkeys == 0 then AtStart(ix, es, front, u)
            else if ix.lfpos == nkeys then start && Ahead(ix, es, front, u) && |front| == ix.height
            else
              && 0 <= ix.lfpos < ZMXKEY
              && if ix.lfexct then start && OnKey(ix, es, front, u)
                 else if ix.store[ix.lfblk].link[ix.lfpos] == ZNULL then start && Ahead(ix, es, front, u) && |front| == ix.height
                 else !start && Behind(ix, es, front, u)
  {
    hide Ahead, Hollow, OnKey, Behind, OnPath;
    if start {
      match c {
        case Off =>
        case On(i) => OnKeyFacts(ix, es, front, i);
        case Gap(i) =>
          if Ahead(ix, es, front, i) && |front| == ix.height {
            AheadFacts(ix, es, front, i);
            if ix.store[ix.lfblk].nkeys == 0 {
              EmptyLeaf(ix, es, front, i);
            }
          } else {
            HollowFacts(ix, es, front);
          }
      }
    } else {
      BehindFacts(ix, es, front, PrevAt(c));
    }
  }

  /** Only an empty root leaf has no keys. */
  lemma EmptyLeaf(ix: Index, es: seq<Entry>, front: seq<Frame>, i: int)
    requires Ahead(ix, es, front, i) && |front| == ix.height && ix.lfblk in ix.store && ix.store[ix.lfblk].nkeys == 0
    ensures i == 0 && front == []
    ensures OnPath(ix.stk, ix.lfblk, ix.lfpos, front + [Frame(ix.lfblk, ix.lfpos)])
  {
    hide *;
    AheadFacts(ix, es, front, i);
    var f := Frame(ix.lfblk, ix.lfpos);
    EndOfBlock(ix.store, ix.scroot, ix.height, front, f);
    Around(ix.store, ix.scroot, ix.height, front, f);
  }

  lemma BackingMore(ix: Index, es: seq<Entry>, front: seq<Frame>, c: Cursor)
    requires ix.lfblk == ZNULL ==> PrevAt(c) == 0 && Nowhere(ix)
    requires ix.lfblk != ZNULL ==> Behind(ix, es, front, PrevAt(c)) && (ix.lfpos >= 0 ==> !ix.lfexct && |front| < ix.height)
    ensures Backing(ix, es, front, c, false, false)
  {
    hide Behind;
  }

  lemma BackingFound(ix: Index, es: seq<Entry>, front: seq<Frame>, c: Cursor, start: bool)
    requires ix.lfexct && PrevAt(c) > 0 && OnKey(ix, es, front, PrevAt(c) - 1)
    ensures Backing(ix, es, front, c, start, true)
  {
  }

  lemma BackingStart(ix: Index, es: seq<Entry>, front: seq<Frame>, c: Cursor)
    requires Shows(ix, es, front, c)
    ensures Backing(ix, es, front, c, !c.Off?, false)
  {
    hide Ahead, Hollow, OnKey;
    match c {
      case Off =>
      case On(i) => OnKeyFacts(ix, es, front, i);
      case Gap(i) =>
        if Ahead(ix, es, front, i) {
          AheadFacts(ix, es, front, i);
        } else {
          HollowFacts(ix, es, front);
        }
    }
  }

  lemma BackingOver(ix: Index, es: seq<Entry>, front: seq<Frame>, c: Cursor, start: bool, found: bool)
    requires Backing(ix, es, front, c, start, found) && (found || ix.lfblk == ZNULL)
    ensures found <==> ix.lfblk != ZNULL
    ensures found ==> PrevAt(c) > 0 && Prev(c, |es|) == On(PrevAt(c) - 1) && PrevAt(c) - 1 < |es|
    ensures !found ==> Prev(c, |es|) == Off
    ensures Shows(ix, es, front, Prev(c, |es|))
  {
    hide Ahead, Hollow, OnKey;
    if found {
      OnKeyFacts(ix, es, front, PrevAt(c) - 1);
    }
  }

  /** bprvky in exclusive mode, without duplicates. */
  method PrevKey(ix: Index, ghost es: seq<Entry>, ghost front: seq<Frame>, ghost c: Cursor)
    returns (status: int, key: int, val: int, ghost front': seq<Frame>)
    requires Calm(ix)
    requires Shows(ix, es, front, c)
    modifies ix`stk, ix`lfblk, ix`lfpos, ix`lfexct, ix`lfkey
    ensures Shows(ix, es, front', Prev(c, |es|))
    ensures match Prev(c, |es|)
            case On(j) => status == 0 && j < |es| && key == es[j].key && val == es[j].val && ix.lfkey == key
            case _ => status == QNOKEY && ix.lfkey == old(ix.lfkey)
  {
    hide *;
    status, key, val, front' := 0, 0, 0, front;
    var found := false;
    ghost var start, u := !c.Off?, PrevAt(c);
    BackingStart(ix, es, front, c);
    while ix.lfblk != ZNULL && !found
      invariant Backing(ix, es, front', c, start, found)
      invariant !found ==> ix.lfkey == old(ix.lfkey)
      invariant found ==> 0 < u <= |es| && key == es[u - 1].key && val == es[u - 1].val && ix.lfkey == key
      decreases start, if ix.lfblk == ZNULL || found then 0 else |front'| + 1
    {
      BackingOpen(ix, es, front', c, start);
      var b := Read(ix, ix.lfblk);
      var nkeys := b.nkeys;
      if ix.lfpos < 0 || nkeys == 0 {
        front' := PullBack(ix, es, front', u);
        start := false;
        BackingMore(ix, es, front', c);
        continue;
      }
      if ix.lfpos == nkeys {
        LeafBack(ix, es, front', u);
        ix.lfexct := true;
      } else {
        if ix.lfexct {
          front' := StepLeft(ix, es, front', u);
        } else if b.link[ix.lfpos] == ZNULL {
          LeafBack(ix, es, front', u);
          ix.lfexct := true;
        } else {
          ix.lfexct := true;
        }
      }
      start := false;
      BehindFacts(ix, es, front', u);
      if ix.lfpos >= 0 {
        found := true;
        BackOnKey(ix, es, front', u);
        OnKeyFacts(ix, es, front', u - 1);
        b := Read(ix, ix.lfblk);
        key := b.key[ix.lfpos].key;
        ix.lfkey := key;
        val := b.key[ix.lfpos].val;
        BackingFound(ix, es, front', c, start);
      } else {
        BackingMore(ix, es, front', c);
      }
    }
    BackingOver(ix, es, front', c, start, found);
    if ix.lfblk == ZNULL {
      status := QNOKEY;
    }
  }

  // ---------------------------------------------------------------------
  // Where a cursor comes from
  // ---------------------------------------------------------------------

  /** After a search the cursor is on the key... */
  lemma FoundShows(ix: Index, es: seq<Entry>, front: seq<Frame>, key: int, val: int) returns (i: nat)
    requires Landed(ix, es, front, key, 0, val) && ix.lfexct
    ensures Shows(ix, es, front, On(i)) && i < |es| && es[i] == Entry(key, val)
  {
    hide *;
    LandedOpen(ix, es, front, key, 0, val);
    SearchPos(ix.store, ix.scroot, ix.height, es, front, ix.lfblk, ix.lfpos, key);
    var s, root, H, f := ix.store, ix.scroot, ix.height, Frame(ix.lfblk, ix.lfpos);
    var m := KeyStep(s, root, H, front, f.blk, f.pos);
    var r := RightOf(s, root, H, front, f);
    i := |m|;
    assert es[i..] == r;
    MakeAhead(ix, es, front, i);
    MakeOnKey(ix, es, front, i);
    OnKeyFacts(ix, es, front, i);
    MakeOn(ix, es, front, i);
  }

  /** ... or in the gap where it belongs. */
  lemma GapShows(ix: Index, es: seq<Entry>, front: seq<Frame>, key: int, val: int) returns (i: nat)
    requires Landed(ix, es, front, key, QNOKEY, val) && !ix.lfexct
    ensures Shows(ix, es, front, Gap(i)) && i <= |es|
    ensures AllBelow(es[..i], key) && AllAbove(es[i..], key)
  {
    assert QNOKEY != 0;
    hide *;
    LandedOpen(ix, es, front, key, QNOKEY, val);
    var s, root, H, blk, pos := ix.store, ix.scroot, ix.height, ix.lfblk, ix.lfpos;
    GapParts(s, root, H, es, front, blk, pos, key);
    var q := if pos < 0 then 0 else pos;
    var a, ks, b := Lft(s, root, H, front), Keys(s[blk]), Rgt(s, root, H, front);
    i := |a| + q;
    Cut(ks, q);
    PathArith(a, ks[..q], [], ks[q..], b);
    Unit(ks[..q]);
    Unit(a + ks[..q]);
    assert es == (a + ks[..q]) + (ks[q..] + b);
    assert es[..i] == a + ks[..q] && es[i..] == ks[q..] + b;
    BelowConcat(a, ks[..q], key);
    BelowConcat(ks[q..], b, key);
    GapContext(ix, es, front, key, val);
    if pos >= 0 {
      GapRight(s, root, H, es, front, blk, pos, key);
      MakeAhead(ix, es, front, i);
    }
    MakeGapShown(ix, es, front, i);
  }

  lemma MakeOn(ix: Index, es: seq<Entry>, front: seq<Frame>, i: nat)
    requires ix.lfexct && OnKey(ix, es, front, i)
    ensures Shows(ix, es, front, On(i))
  {
  }

  lemma MakeGapShown(ix: Index, es: seq<Entry>, front: seq<Frame>, i: nat)
    requires !ix.lfexct
    requires (Ahead(ix, es, front, i) && |front| == ix.height) || (Hollow(ix, es, front) && i == 0)
    ensures Shows(ix, es, front, Gap(i))
  {
    hide Ahead, Hollow;
  }

  lemma LandedOpen(ix: Index, es: seq<Entry>, front: seq<Frame>, key: int, status: int, val: int)
    requires Landed(ix, es, front, key, status, val)
    ensures OnPath(ix.stk, ix.lfblk, ix.lfpos, front + [Frame(ix.lfblk, ix.lfpos)])
    ensures status == 0 ==>
          && FoundAt(ix.store, ix.scroot, ix.height, es, front, ix.lfblk, ix.lfpos, key)
          && ix.lfblk in ix.store && 0 <= ix.lfpos < |Keys(ix.store[ix.lfblk])|
          && Keys(ix.store[ix.lfblk])[ix.lfpos] == Entry(key, val)
    ensures status != 0 ==> GapAt(ix.store, ix.scroot, ix.height, es, front, ix.lfblk, ix.lfpos, key)
  {
    hide Searching, OnPath, AllocOK, AllBelow, AllAbove;
  }

  lemma SearchPos(s: Store, root: int, H: nat, es: seq<Entry>, front: seq<Frame>, blk: int, pos: int, key: int)
    requires FoundAt(s, root, H, es, front, blk, pos, key)
    ensures AtPos(s, root, H, front, Frame(blk, pos)) && 0 <= pos < Count(s[blk]) && es == Ents(s, root, H)
  {
    hide Ents, Blks, Lft, Rgt, Unique, PathOK, AllBelow, AllAbove, Sorted, NodeOK;
  }

  /** The context of a gap: a position of a leaf, or an empty root. */
  lemma GapContext(ix: Index, es: seq<Entry>, front: seq<Frame>, key: int, val: int)
    requires Landed(ix, es, front, key, QNOKEY, val)
    ensures ix.lfpos < 0 ==> Hollow(ix, es, front) && es == []
    ensures ix.lfpos >= 0 ==> AtPos(ix.store, ix.scroot, ix.height, front, Frame(ix.lfblk, ix.lfpos))
    ensures es == Ents(ix.store, ix.scroot, ix.height) && |front| == ix.height
  {
    hide Ents, Blks, Lft, Rgt, Unique, PathOK, AllBelow, AllAbove, Sorted, NodeOK, OnPath, AllocOK;
    var s, root, H, blk := ix.store, ix.scroot, ix.height, ix.lfblk;
    SearchBlockOK(s, root, H, es, front, blk, key);
    if ix.lfpos < 0 {
      assert |front| == 0;
      PathNil(s, root, H, front);
      EntsNode(s, blk, 0);
      assert Keys(s[blk]) == [];
      Unit(Ents(s, blk, 0));
    }
  }

  lemma GapRight(s: Store, root: int, H: nat, es: seq<Entry>, front: seq<Frame>, blk: int, pos: int, key: int)
    requires AtPos(s, root, H, front, Frame(blk, pos)) && |front| == H
    ensures pos <= |Keys(s[blk])| && 0 <= pos
    ensures RightOf(s, root, H, front, Frame(blk, pos)) == Keys(s[blk])[pos..] + Rgt(s, root, H, front)
  {
    LeafSides(s, Frame(blk, pos));
  }

  /** btpos: before the first entry (ZSTART) or after the last one (ZEND).  In
      shared mode lfkey is given a value at the end, which is left open here. */
  method Position(ix: Index, atEnd: bool) returns (ghost front: seq<Frame>)
    requires Calm(ix)
    requires ix.Valid()
    modifies ix`stk, ix`lfblk, ix`lfpos, ix`lfexct, ix`lfkey
    ensures Shows(ix, ix.Entries(), front, Gap(if atEnd then |ix.Entries()| else 0))
    ensures ix.scroot in ix.store && (!atEnd || ix.store[ix.scroot].nkeys == 0 ==> ix.lfkey == 0)
  {
    hide *;
    ghost var s, root, H, es := ix.store, ix.scroot, ix.height, ix.Entries();
    StartSearch(ix, 0);
    RootPos(ix);
    ix.lfkey := 0;
    ix.lfexct := false;
    ix.stk := [];
    Push(ix, ZNULL);
    Push(ix, ZNULL);
    ix.lfblk := ix.scroot;
    var b := Read(ix, ix.scroot);
    ix.lfpos := if atEnd then b.nkeys else 0;
    front := [];
    ghost var f0 := Frame(ix.lfblk, ix.lfpos);
    RootOnPath(ix.stk, f0);
    if atEnd && ix.lfpos == 0 {
      RootGap(ix, es);
      return;
    }
    if atEnd {
      SeesSelf(ix.store, ix.height, front, Frame(ix.lfblk, ix.lfpos));
      front := GoLeaf(ix, 1, front, ix.store);
      ix.lfkey := *;
    } else {
      SeesSelf(ix.store, ix.height, front, Frame(ix.lfblk, ix.lfpos));
      front := GoLeaf(ix, 0, front, ix.store);
    }
    if b.nkeys == 0 {
      RootGap(ix, es);
    } else {
      EndOfBlock(s, root, H, [], f0);
      ghost var f := Frame(ix.lfblk, ix.lfpos);
      Around(s, root, H, front, f);
      EndsAre(es, LeftOf(s, root, H, front, f), RightOf(s, root, H, front, f));
      MakeAhead(ix, es, front, if atEnd then |es| else 0);
      MakeGapShown(ix, es, front, if atEnd then |es| else 0);
    }
  }

  lemma EndsAre(es: seq<Entry>, m: seq<Entry>, r: seq<Entry>)
    requires es == m + r
    ensures m == [] ==> r == es[0..]
    ensures r == [] ==> r == es[|es|..]
  {
  }

  lemma RootPos(ix: Index)
    requires ix.Valid()
    ensures ix.scroot != ZNULL && ix.scroot in ix.store && 0 <= ix.store[ix.scroot].nkeys <= ZMXKEY
    ensures forall p :: 0 <= p <= ix.store[ix.scroot].nkeys ==>
              AtPos(ix.store, ix.scroot, ix.height, [], Frame(ix.scroot, p))
    ensures Count(ix.store[ix.scroot]) == ix.store[ix.scroot].nkeys
    ensures ix.Entries() == Ents(ix.store, ix.scroot, ix.height)
    ensures ix.height > 0 ==> ix.store[ix.scroot].nkeys >= 1
  {
    hide Ents, Blks, Unique, Sorted;
    NodeKids(ix.store, ix.scroot, ix.height);
  }

  lemma RootOnPath(stk: seq<int>, f: Frame)
    requires stk == [] + [ZNULL] + [ZNULL]
    ensures OnPath(stk, f.blk, f.pos, [] + [f])
  {
    var all := [NOWHERE] + ([] + [f]);
    assert all[..1] == [NOWHERE];
    assert [NOWHERE][..0] == [];
    assert Flat([NOWHERE]) == Flat([]) + [ZNULL] + [ZNULL];
  }

  /** An empty root has only one gap. */
  lemma RootGap(ix: Index, es: seq<Entry>)
    requires ix.scroot != ZNULL && ix.scroot in ix.store && ix.store[ix.scroot].nkeys == 0 && ix.height == 0
    requires es == Ents(ix.store, ix.scroot, ix.height) && ix.lfblk == ix.scroot && !ix.lfexct
    requires OnPath(ix.stk, ix.lfblk, ix.lfpos, [] + [Frame(ix.lfblk, ix.lfpos)])
    ensures es == [] && Shows(ix, es, [], Gap(0))
  {
    hide OnPath, Ents;
    EntsNode(ix.store, ix.scroot, 0);
    assert Keys(ix.store[ix.scroot]) == [];
  }

  // ---------------------------------------------------------------------
  // Scans
  // ---------------------------------------------------------------------

  /** btpos to the start and bnxtky to the end list every entry once, in order. */
  method ScanForward(ix: Index) returns (out: seq<Entry>)
    requires Calm(ix)
    requires ix.Valid()
    modifies ix`stk, ix`lfblk, ix`lfpos, ix`lfexct, ix`lfkey
    ensures out == ix.Entries() && Sorted(out)
  {
    hide *;
    ghost var es := ix.Entries();
    EntriesSorted(ix);
    ghost var front := Position(ix, false);
    ghost var c := Gap(0);
    out := [];
    var status, key, val := 0, 0, 0;
    NextIs(c, |es|);
    while status == 0
      invariant Shows(ix, es, front, c)
      invariant |out| <= |es| && out == es[..|out|]
      invariant if status == 0 then NextAt(c, |es|) == |out| && !c.Off? else |out| == |es|
      decreases if status == 0 then |es| - |out| + 1 else 0
    {
      NextIs(c, |es|);
      status, key, val, front := NextKey(ix, es, front, c);
      NextIs(Next(c, |es|), |es|);
      c := Next(c, |es|);
      if status == 0 {
        EntryIs(es[|out|], key, val);
        out := out + [Entry(key, val)];
      }
    }
  }

  lemma EntriesSorted(ix: Index)
    requires ix.Valid()
    ensures Sorted(ix.Entries())
  {
  }

  lemma EntryIs(e: Entry, key: int, val: int)
    requires e.key == key && e.val == val
    ensures e == Entry(key, val)
  {
  }

  lemma NextIs(c: Cursor, n: nat)
    ensures QNOKEY != 0
    ensures Next(c, n) == if !c.Off? && NextAt(c, n) < n then On(NextAt(c, n)) else Off
    ensures c.On? ==> NextAt(c, n) == c.at + 1
    ensures c.Gap? ==> NextAt(c, n) == c.at
  {
  }

  /** From the end, bprvky lists the entries backwards. */
  method ScanBackward(ix: Index) returns (out: seq<Entry>)
    requires Calm(ix)
    requires ix.Valid()
    modifies ix`stk, ix`lfblk, ix`lfpos, ix`lfexct, ix`lfkey
    ensures |out| == |ix.Entries()|
    ensures forall i :: 0 <= i < |out| ==> out[i] == ix.Entries()[|out| - 1 - i]
  {
    hide *;
    ghost var es := ix.Entries();
    ghost var front := Position(ix, true);
    ghost var c := Gap(|es|);
    out := [];
    var status, key, val := 0, 0, 0;
    PrevIs(c, |es|);
    while status == 0
      invariant Shows(ix, es, front, c)
      invariant |out| <= |es| && forall i :: 0 <= i < |out| ==> out[i] == es[|es| - 1 - i]
      invariant if status == 0 then PrevAt(c) == |es| - |out| && !c.Off? else |out| == |es|
      decreases if status == 0 then |es| - |out| + 1 else 0
    {
      PrevIs(c, |es|);
      status, key, val, front := PrevKey(ix, es, front, c);
      PrevIs(Prev(c, |es|), |es|);
      c := Prev(c, |es|);
      if status == 0 {
        EntryIs(es[|es| - 1 - |out|], key, val);
        out := out + [Entry(key, val)];
      }
    }
  }

  lemma PrevIs(c: Cursor, n: nat)
    ensures QNOKEY != 0
    ensures Prev(c, n) == if PrevAt(c) > 0 then On(PrevAt(c) - 1) else Off
    ensures !c.Off? ==> PrevAt(c) == c.at
  {
  }

  /** The neighbours of a gap are the next smaller and the next larger key: what
      bprvky and bnxtky return after a failed search or a delete. */
  lemma GapNeighbours(es: seq<Entry>, i: nat, key: int)
    requires Sorted(es) && i <= |es| && AllBelow(es[..i], key) && AllAbove(es[i..], key)
    ensures Next(Gap(i), |es|) == Off ==> forall k :: k in ToMap(es) ==> k < key
    ensures Prev(Gap(i), |es|) == Off ==> forall k :: k in ToMap(es) ==> key < k
    ensures i < |es| ==> Next(Gap(i), |es|) == On(i) && es[i].key in ToMap(es) && key < es[i].key
                         && forall k :: k in ToMap(es) && key < k ==> es[i].key <= k
    ensures i > 0 ==> Prev(Gap(i), |es|) == On(i - 1) && es[i - 1].key in ToMap(es) && es[i - 1].key < key
                      && forall k :: k in ToMap(es) && k < key ==> k <= es[i - 1].key
  {
    hide ToMap;
    if i < |es| {
      ToMapAt(es, i);
      assert es[i..][0] == es[i];
    }
    if i > 0 {
      ToMapAt(es, i - 1);
      assert es[..i][i - 1] == es[i - 1];
    }
    forall k | k in ToMap(es)
      ensures k != key && (k < key ==> i > 0 && k <= es[i - 1].key) && (key < k ==> i < |es| && es[i].key <= k)
    {
      ToMapKeys(es, k);
      var j :| 0 <= j < |es| && es[j].key == k;
      BesideGap(es, i, key, j);
    }
  }

  lemma BesideGap(es: seq<Entry>, i: nat, key: int, j: nat)
    requires Sorted(es) && i <= |es| && AllBelow(es[..i], key) && AllAbove(es[i..], key) && j < |es|
    ensures j < i ==> es[j].key < key && es[j].key <= es[i - 1].key
    ensures j >= i ==> key < es[j].key && es[i].key <= es[j].key
  {
    if j < i {
      assert es[..i][j] == es[j];
    } else {
      assert es[i..][j - i] == es[j];
    }
  }
}
