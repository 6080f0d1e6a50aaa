/** The context of one open index: block store, allocator words, current root,
    "last found" position and path stack.

    The store stands for the file seen through the block cache (Caching.dfy shows
    that the cache is invisible); a routine of the library that changes a block
    reassigns the block's image here. */
module Context {
  import opened Constants
  import opened Blocks
  import opened Seqs
  import opened Trees
  import opened Paths
  import opened Orders
  import Names

  /** The names of the first root and of the super root: "$$default", "$$super". */
  const DEFAULT_NAME: Names.Name := [36, 36, 100, 101, 102, 97, 117, 108, 116]
  const SUPER_NAME: Names.Name := [36, 36, 115, 117, 112, 101, 114]

  lemma NamesInOrder()
    ensures Names.Rank(DEFAULT_NAME) < Names.Rank(SUPER_NAME)
  {
    hide Names.Rank;
    assert DEFAULT_NAME[..2] == SUPER_NAME[..2] == [36, 36];
    Names.FirstDifference(DEFAULT_NAME, SUPER_NAME, 2);
    Names.RankOrder(DEFAULT_NAME, SUPER_NAME);
  }

  class Index {
    var store: Store
    var sblkmx: int            // blocks in the file
    var snfree: int            // length of the free list
    var sfreep: int            // head of the free list
    var scroot: int            // current root
    var smode: int             // nonzero: read only
    var lfblk: int             // last found: block, position, exact match, key
    var lfpos: int
    var lfexct: bool
    var lfkey: int
    var stk: seq<int>          // path stack: block, position, block, position, ...

    ghost var height: nat      // height of the current root
    ghost var free: seq<int>   // the free list, head first
    ghost var rest: set<int>   // blocks of other roots, data blocks, the super root
    ghost var busy: set<int>   // the blocks wired down in the cache

    /** btcrt without blocks allocated in advance: a super root and an empty root,
        which is wired.  The rest of both blocks is what their slots held. */
    constructor ()
      ensures Valid() && Contents() == map[] && height == 0 && free == [] && rest == {ZSUPER}
      ensures scroot == DEFAULT_ROOT && busy == {scroot} && smode == 0
      ensures scroot in store && store[scroot].nkeys == 0 && lfblk == ZNULL && lfpos == ZNULL && !lfexct && stk == []
      ensures store.Keys == {ZSUPER, DEFAULT_ROOT} && store[ZSUPER].btype == store[DEFAULT_ROOT].btype == ZROOT
      ensures store[DEFAULT_ROOT].misc == 0 && store[DEFAULT_ROOT].nxblk == ZNULL
      ensures store[DEFAULT_ROOT].nblks == DEFAULT_ROOT && store[DEFAULT_ROOT].nxdup == ZNULL
      ensures sblkmx == store[ZSUPER].nblks && snfree == store[ZSUPER].misc && sfreep == store[ZSUPER].nxblk
      ensures TreeOK(store, ZSUPER, 0) && Sorted(Ents(store, ZSUPER, 0))
      ensures Ents(store, ZSUPER, 0)
           == [Entry(Names.Rank(DEFAULT_NAME), DEFAULT_ROOT), Entry(Names.Rank(SUPER_NAME), ZSUPER)]
    {
      hide Names.Rank, PutKey;
      var slot: Block := *;
      var super := SetInfo(slot, ZROOT, 0, ZNULL, 2, 2, ZNULL);
      slot := *;
      var root := SetInfo(slot, ZROOT, 0, ZNULL, 0, DEFAULT_ROOT, ZNULL);
      var own, first := Entry(Names.Rank(SUPER_NAME), ZSUPER), Entry(Names.Rank(DEFAULT_NAME), DEFAULT_ROOT);
      super := super.(key := super.key[1 := own][0 := first], link := super.link[0 := ZNULL][1 := ZNULL][2 := ZNULL]);
      store := map[ZSUPER := super, DEFAULT_ROOT := root];
      sblkmx, snfree, sfreep := 2, 0, ZNULL;
      scroot, smode := DEFAULT_ROOT, 0;
      lfblk, lfpos, lfexct, stk := ZNULL, ZNULL, false, [];
      height, free, rest, busy := 0, [], {ZSUPER}, {DEFAULT_ROOT};
      new;
      NamesInOrder();
      assert Keys(super) == [first, own];
      assert store.Keys == {ZSUPER, DEFAULT_ROOT};
      assert Entries() == [];
      assert Owned() == multiset{DEFAULT_ROOT} + multiset{ZSUPER};
    }

    ghost predicate Valid()
      reads `store, `sblkmx, `snfree, `sfreep, `scroot, `height, `free, `rest
    {
      && TreeOK(store, scroot, height)
      && Sorted(Entries())
      && AllocOK(store, sblkmx, sfreep, snfree, free, Owned())
    }

    /** Blocks that are not free. */
    ghost function Owned(): multiset<int>
      reads `store, `scroot, `height, `rest
    {
      Blks(store, scroot, height) + multiset(rest)
    }

    ghost function Entries(): seq<Entry>
      reads `store, `scroot, `height
    {
      Ents(store, scroot, height)
    }

    /** The map the current root stands for. */
    ghost function Contents(): map<int, int>
      reads `store, `scroot, `height
    {
      ToMap(Entries())
    }
  }

  // ---------------------------------------------------------------------
  // Wired blocks
  // ---------------------------------------------------------------------

  /** Only the current root is wired down, or nothing is. */
  ghost predicate Calm(ix: Index)
    reads ix`busy, ix`scroot
  {
    ix.busy <= {ix.scroot}
  }

  /** With three slots or more, some slot can take a block that is not in memory.
      Whatever reads a block asks for this, or for the block to be wired. */
  ghost predicate Wide(ix: Index)
    reads ix`busy
  {
    |ix.busy| <= 2
  }

  lemma CalmIs(ix: Index)
    ensures Calm(ix) <==> ix.busy <= {ix.scroot}
  {
  }

  lemma AtMostTwo(ix: Index, blk: int)
    requires ix.busy <= {ix.scroot, blk}
    ensures Wide(ix)
  {
    Subset(ix.busy, {ix.scroot, blk});
  }

  lemma CalmWide(ix: Index)
    requires Calm(ix)
    ensures Wide(ix)
  {
    AtMostTwo(ix, ix.scroot);
  }

  /** bsetbs. */
  method SetBusy(ix: Index, blk: int, on: bool)
    requires blk in ix.store && (Calm(ix) || Wide(ix) || blk in ix.busy)
    modifies ix`busy
    ensures ix.busy == if on then old(ix.busy) + {blk} else old(ix.busy) - {blk}
  {
    ix.busy := if on then ix.busy + {blk} else ix.busy - {blk};
  }

  /** brdblk: the block's image. */
  method Read(ix: Index, blk: int) returns (b: Block)
    requires blk in ix.store && (Calm(ix) || Wide(ix) || blk in ix.busy)
    ensures b == ix.store[blk]
  {
    b := ix.store[blk];
  }

  // ---------------------------------------------------------------------
  // Information words
  // ---------------------------------------------------------------------

  /** The words of a block made by a split under this root. */
  ghost predicate NewInfo(b: Block, root: int) {
    b.misc == 0 && b.nblks == root && b.nxdup == ZNULL
  }

  /** An index block below a root has the words it had, or those a split gives it. */
  ghost predicate Stamped(s: Store, s': Store, root: int, x: int) {
    x in s' && x != root && s'[x].btype == ZINUSE ==> (x in s && SameInfo(s[x], s'[x])) || NewInfo(s'[x], root)
  }

  /** The root has the words it had, and all blocks below a root are stamped. */
  ghost predicate Worded(s: Store, s': Store, root: int) {
    && (root in s ==> root in s' && SameInfo(s[root], s'[root]))
    && forall x :: Stamped(s, s', root, x)
  }

  lemma WordedRefl(s: Store, root: int)
    ensures Worded(s, s, root)
  {
  }

  lemma WordedTrans(s: Store, s': Store, s'': Store, root: int)
    requires Worded(s, s', root) && Worded(s', s'', root)
    ensures Worded(s, s'', root)
  {
    forall x
      ensures Stamped(s, s'', root, x)
    {
      assert Stamped(s, s', root, x) && Stamped(s', s'', root, x);
    }
  }

  lemma WordedOne(s: Store, x: int, b: Block, root: int)
    requires x in s && (SameInfo(s[x], b) || (x != root && b.btype != ZINUSE))
    ensures Worded(s, s[x := b], root)
  {
  }

  // ---------------------------------------------------------------------
  // Block allocation
  // ---------------------------------------------------------------------

  /** The free list as a chain of blocks of type ZFREE through ZNXBLK. */
  ghost predicate FreeList(s: Store, head: int, free: seq<int>)
    decreases |free|
  {
    if |free| == 0 then head == ZNULL
    else head == free[0] && head in s && s[head].btype == ZFREE && FreeList(s, s[head].nxblk, free[1..])
  }

  /** Every block below sblkmx is owned once or on the free list once. */
  ghost predicate AllocOK(s: Store, mx: int, head: int, nfree: int, free: seq<int>, used: multiset<int>) {
    && FreeList(s, head, free)
    && nfree == |free|
    && 0 <= mx
    && (forall x :: x in s <==> 0 <= x < mx)
    && used + multiset(free) == multiset(s.Keys)
  }

  /** Changing owned blocks leaves the free list alone. */
  lemma {:induction false} FreeListFrame(s: Store, s': Store, head: int, free: seq<int>)
    requires FreeList(s, head, free)
    requires forall x :: x in free ==> x in s && x in s' && s'[x] == s[x]
    ensures FreeList(s', head, free)
    decreases |free|
  {
    if |free| > 0 {
      assert free[0] in free;
      assert forall x :: x in free[1..] ==> x in free;
      FreeListFrame(s, s', s[head].nxblk, free[1..]);
    }
  }

  lemma UsedNotFree(s: Store, used: multiset<int>, free: seq<int>, x: int)
    requires used + multiset(free) == multiset(s.Keys) && x in used
    ensures x in s && x !in free && used[x] == 1
  {
    assert (used + multiset(free))[x] == multiset(s.Keys)[x];
  }

  lemma FreeNotUsed(s: Store, used: multiset<int>, free: seq<int>, x: int)
    requires used + multiset(free) == multiset(s.Keys) && x in free
    ensures x in s && x !in used
  {
    assert x in multiset(free);
    assert (used + multiset(free))[x] == multiset(s.Keys)[x];
  }

  lemma AllocFrame(s: Store, s': Store, mx: int, head: int, nfree: int, free: seq<int>, used: multiset<int>)
    requires AllocOK(s, mx, head, nfree, free, used)
    requires forall x :: x in s' <==> x in s
    requires forall x :: x in s && x !in used ==> s'[x] == s[x]
    ensures AllocOK(s', mx, head, nfree, free, used)
  {
    forall x | x in free
      ensures x in s && x !in used
    {
      FreeNotUsed(s, used, free, x);
    }
    FreeListFrame(s, s', head, free);
    forall x
      ensures x in s'.Keys <==> x in s.Keys
    {
      assert x in s' <==> x in s;
    }
    assert s'.Keys == s.Keys;
  }

  /** bgtfre: a block from the free list, or a new one at the end of the file.
      What the new block holds is whatever the cache slot held. */
  method GetFree(ix: Index, ghost used: multiset<int>) returns (blk: int)
    requires Calm(ix) || Wide(ix)
    requires AllocOK(ix.store, ix.sblkmx, ix.sfreep, ix.snfree, ix.free, used)
    modifies ix`store, ix`sblkmx, ix`snfree, ix`sfreep, ix`free
    ensures AllocOK(ix.store, ix.sblkmx, ix.sfreep, ix.snfree, ix.free, used + multiset{blk})
    ensures 0 <= blk && blk !in used && blk in ix.store
    ensures forall x :: x in old(ix.store) ==> x in ix.store && ix.store[x] == old(ix.store[x])
    ensures forall x :: x in ix.store ==> x == blk || x in old(ix.store)
    ensures if |old(ix.free)| == 0 then blk == old(ix.sblkmx) && ix.sblkmx == blk + 1
            else blk == old(ix.free)[0] && ix.store == old(ix.store)
  {
    if ix.sfreep == ZNULL {
      assert |ix.free| == 0;
      blk := ix.sblkmx;
      assert blk !in used by {
        if blk in used {
          UsedNotFree(ix.store, used, ix.free, blk);
        }
      }
      var slot: Block := *;
      ghost var s := ix.store;
      ix.store := ix.store[blk := slot];
      ix.sblkmx := ix.sblkmx + 1;
      assert ix.store.Keys == s.Keys + {blk};
      assert multiset(ix.store.Keys) == multiset(s.Keys) + multiset{blk};
    } else {
      blk := ix.sfreep;
      assert ix.free[0] in ix.free;
      FreeNotUsed(ix.store, used, ix.free, blk);
      assert ix.store[blk].btype == ZFREE;  // so the check in the source passes
      ix.sfreep := ix.store[blk].nxblk;
      ix.snfree := ix.snfree - 1;
      ghost var f := ix.free;
      ix.free := ix.free[1..];
      assert f == [f[0]] + f[1..];
      assert multiset(f) == multiset{blk} + multiset(ix.free);
    }
  }

  /** bmkfre: an index block becomes the head of the free list. */
  method MakeFree(ix: Index, blk: int, ghost used: multiset<int>)
    requires Calm(ix) || Wide(ix)
    requires AllocOK(ix.store, ix.sblkmx, ix.sfreep, ix.snfree, ix.free, used)
    requires blk in used
    modifies ix`store, ix`snfree, ix`sfreep, ix`free
    ensures AllocOK(ix.store, ix.sblkmx, ix.sfreep, ix.snfree, ix.free, used - multiset{blk})
    ensures ix.free == [blk] + old(ix.free) && ix.snfree == old(ix.snfree) + 1
    ensures blk in old(ix.store)
         && ix.store == old(ix.store)[blk := SetInfo(old(ix.store[blk]), ZFREE, 0, old(ix.sfreep), 0, 0, ZNULL)]
    ensures blk != ix.scroot ==> Worded(old(ix.store), ix.store, ix.scroot)
  {
    UsedNotFree(ix.store, used, ix.free, blk);
    ghost var s := ix.store;
    SetBlock(ix, blk, ZFREE, 0, ix.sfreep, 0, 0, ZNULL);
    forall x | x in ix.free
      ensures x in s && x != blk
    {
      FreeNotUsed(s, used, ix.free, x);
    }
    FreeListFrame(s, ix.store, ix.sfreep, ix.free);
    ghost var f := ix.free;
    ix.sfreep := blk;
    ix.snfree := ix.snfree + 1;
    ix.free := [blk] + ix.free;
    assert ix.free[1..] == f;
    assert multiset(ix.free) == multiset{blk} + multiset(f);
    assert ix.store.Keys == s.Keys;
  }

  /** bsetbk on the store. */
  method SetBlock(ix: Index, blk: int, btype: int, misc: int, nxblk: int, nkeys: int, nblks: int, nxdup: int)
    requires Calm(ix) || Wide(ix) || blk in ix.busy
    requires blk in ix.store
    modifies ix`store
    ensures ix.store == old(ix.store)[blk := SetInfo(old(ix.store[blk]), btype, misc, nxblk, nkeys, nblks, nxdup)]
  {
    ix.store := ix.store[blk := SetInfo(ix.store[blk], btype, misc, nxblk, nkeys, nblks, nxdup)];
  }

  /** bstinf on the key count. */
  method SetCount(ix: Index, blk: int, nkeys: int)
    requires Calm(ix) || Wide(ix) || blk in ix.busy
    requires blk in ix.store
    modifies ix`store
    ensures ix.store == old(ix.store)[blk := old(ix.store[blk]).(nkeys := nkeys)]
    ensures Worded(old(ix.store), ix.store, ix.scroot)
  {
    InfoKept(ix.store[blk]);
    WordedOne(ix.store, blk, ix.store[blk].(nkeys := nkeys), ix.scroot);
    ix.store := ix.store[blk := ix.store[blk].(nkeys := nkeys)];
  }

  /** bputky: nothing happens to a full block. */
  method Put(ix: Index, blk: int, e: Entry, link1: int, link2: int)
    requires Calm(ix) || Wide(ix) || blk in ix.busy
    requires blk in ix.store && 0 <= ix.store[blk].nkeys <= ZMXKEY
    modifies ix`store
    ensures old(ix.store[blk]).nkeys == ZMXKEY ==> ix.store == old(ix.store)
    ensures old(ix.store[blk]).nkeys < ZMXKEY ==>
              ix.store == old(ix.store)[blk := PutKey(old(ix.store[blk]), e, link1, link2)]
    ensures Worded(old(ix.store), ix.store, ix.scroot)
  {
    WordedRefl(ix.store, ix.scroot);
    if ix.store[blk].nkeys != ZMXKEY {
      InfoKept(ix.store[blk]);
      WordedOne(ix.store, blk, PutKey(ix.store[blk], e, link1, link2), ix.scroot);
      ix.store := ix.store[blk := PutKey(ix.store[blk], e, link1, link2)];
    }
  }

  /** bremky on the store. */
  method Remove(ix: Index, blk: int, pos: int)
    requires Calm(ix) || Wide(ix) || blk in ix.busy
    requires blk in ix.store && 0 <= pos < ix.store[blk].nkeys <= ZMXKEY
    modifies ix`store
    ensures ix.store == old(ix.store)[blk := RemKey(old(ix.store[blk]), pos)]
    ensures Worded(old(ix.store), ix.store, ix.scroot)
  {
    InfoKept(ix.store[blk]);
    WordedOne(ix.store, blk, RemKey(ix.store[blk], pos), ix.scroot);
    ix.store := ix.store[blk := RemKey(ix.store[blk], pos)];
  }

  /** brepky: a location outside the array is refused. */
  method Replace(ix: Index, blk: int, loc: int, e: Entry, link1: int, link2: int)
    requires Calm(ix) || Wide(ix) || blk in ix.busy
    requires blk in ix.store
    modifies ix`store
    ensures !(0 <= loc < ZMXKEY) ==> ix.store == old(ix.store)
    ensures 0 <= loc < ZMXKEY ==>
              ix.store == old(ix.store)[blk := RepKey(old(ix.store[blk]), loc, e, link1, link2)]
    ensures Worded(old(ix.store), ix.store, ix.scroot)
  {
    WordedRefl(ix.store, ix.scroot);
    if 0 <= loc < ZMXKEY {
      InfoKept(ix.store[blk]);
      WordedOne(ix.store, blk, RepKey(ix.store[blk], loc, e, link1, link2), ix.scroot);
      ix.store := ix.store[blk := RepKey(ix.store[blk], loc, e, link1, link2)];
    }
  }

  /** bcpybk on the store.  The to-block is wired while the from-block is read. */
  method Copy(ix: Index, tblk: int, fblk: int, ts: int, fs: int, n: int)
    requires Calm(ix) || (Wide(ix) && (tblk in ix.busy || fblk in ix.busy))
    requires tblk in ix.store && fblk in ix.store
    requires 0 <= ts && 0 <= fs && 0 <= n && ts + n <= ZMXKEY && fs + n <= ZMXKEY
    modifies ix`store, ix`busy
    ensures ix.busy == old(ix.busy) - {tblk}
    ensures ix.store == old(ix.store)[tblk := CopyKeys(old(ix.store[tblk]), old(ix.store[fblk]), ts, fs, n)]
    ensures Worded(old(ix.store), ix.store, ix.scroot)
  {
    InfoKept(ix.store[tblk]);
    WordedOne(ix.store, tblk, CopyKeys(ix.store[tblk], ix.store[fblk], ts, fs, n), ix.scroot);
    ghost var wired := ix.busy;
    SetBusy(ix, tblk, true);
    if wired <= {ix.scroot} {
      AtMostTwo(ix, tblk);
    }
    assert ix.busy == if tblk in wired then wired else wired + {tblk};
    var from := Read(ix, fblk);
    ix.store := ix.store[tblk := CopyKeys(ix.store[tblk], from, ts, fs, n)];
    SetBusy(ix, tblk, false);
  }

  /** bsrhbk with a location: the entry there and the links around it, or a
      negative result when there is no such key. */
  method Fetch(ix: Index, blk: int, loc: int) returns (e: Entry, link1: int, link2: int, result: int)
    requires Calm(ix) || Wide(ix) || blk in ix.busy
    requires blk in ix.store && 0 <= ix.store[blk].nkeys <= ZMXKEY && 0 <= loc
    ensures loc >= ix.store[blk].nkeys ==> result < 0
    ensures loc < ix.store[blk].nkeys ==>
              result == 0 && e == Keys(ix.store[blk])[loc]
              && link1 == Links(ix.store[blk])[loc] && link2 == Links(ix.store[blk])[loc + 1]
  {
    e, link1, link2 := Entry(0, 0), ZNULL, ZNULL;
    if loc >= ix.store[blk].nkeys {
      result := -1;
    } else {
      result := 0;
      e := ix.store[blk].key[loc];
      link1 := ix.store[blk].link[loc];
      link2 := ix.store[blk].link[loc + 1];
    }
  }

  // ---------------------------------------------------------------------
  // The path stack
  // ---------------------------------------------------------------------

  method Push(ix: Index, val: int)
    modifies ix`stk
    ensures ix.stk == old(ix.stk) + [val]
  {
    ix.stk := ix.stk + [val];
  }

  /** bpull: an empty stack gives 0. */
  method Pull(ix: Index) returns (val: int)
    modifies ix`stk
    ensures |old(ix.stk)| == 0 ==> val == 0 && ix.stk == []
    ensures |old(ix.stk)| > 0 ==> old(ix.stk) == ix.stk + [val]
  {
    val := 0;
    if |ix.stk| > 0 {
      val := ix.stk[|ix.stk| - 1];
      ix.stk := ix.stk[..|ix.stk| - 1];
    }
  }

  /** Frames as they lie on the stack. */
  ghost function Flat(fs: seq<Frame>): (r: seq<int>)
    ensures |r| == 2 * |fs|
  {
    if |fs| == 0 then [] else Flat(fs[..|fs| - 1]) + [fs[|fs| - 1].blk] + [fs[|fs| - 1].pos]
  }

  /** The bottom of every path: the context before anything was found. */
  const NOWHERE: Frame := Frame(ZNULL, ZNULL)

  /** The stack holds all frames of the path fs but the last one. */
  ghost predicate StackOn(stk: seq<int>, fs: seq<Frame>) {
    stk == Flat(([NOWHERE] + fs)[..|fs|])
  }

  /** The stack and the last-found context hold exactly the path fs: its last
      frame is the context, the others (after NOWHERE) are on the stack. */
  ghost predicate OnPath(stk: seq<int>, lfblk: int, lfpos: int, fs: seq<Frame>) {
    StackOn(stk, fs) && ([NOWHERE] + fs)[|fs|] == Frame(lfblk, lfpos)
  }

  lemma OnPathPush(stk: seq<int>, lfblk: int, lfpos: int, fs: seq<Frame>, f: Frame)
    requires OnPath(stk, lfblk, lfpos, fs)
    ensures OnPath(stk + [lfblk] + [lfpos], f.blk, f.pos, fs + [f])
  {
    var all := [NOWHERE] + fs;
    var all' := [NOWHERE] + (fs + [f]);
    assert all'[..|fs| + 1] == all;
    assert all == all[..|fs|] + [all[|fs|]];
  }

  lemma StackPull(stk: seq<int>, fs: seq<Frame>)
    requires StackOn(stk, fs) && |fs| > 0
    ensures |stk| >= 2
    ensures OnPath(stk[..|stk| - 2], stk[|stk| - 2], stk[|stk| - 1], fs[..|fs| - 1])
  {
    var all := [NOWHERE] + fs;
    var front := [NOWHERE] + fs[..|fs| - 1];
    assert all[..|fs|] == front;
    assert front[..|fs| - 1] == all[..|fs| - 1];
  }

  lemma OnPathStack(stk: seq<int>, lfblk: int, lfpos: int, fs: seq<Frame>)
    requires OnPath(stk, lfblk, lfpos, fs)
    ensures StackOn(stk, fs)
    ensures |fs| > 0 ==> fs[|fs| - 1] == Frame(lfblk, lfpos)
    ensures |fs| == 0 ==> lfblk == ZNULL && lfpos == ZNULL
  {
  }

  /** Only the frames below the last one lie on the stack. */
  lemma StackTop(stk: seq<int>, fs: seq<Frame>, f: Frame, g: Frame)
    requires StackOn(stk, fs + [f])
    ensures StackOn(stk, fs + [g])
  {
    assert ([NOWHERE] + (fs + [f]))[..|fs| + 1] == ([NOWHERE] + (fs + [g]))[..|fs| + 1];
  }

  lemma OnPathLast(stk: seq<int>, front: seq<Frame>, f: Frame)
    requires StackOn(stk, front + [f])
    ensures OnPath(stk, f.blk, f.pos, front + [f])
  {
    assert ([NOWHERE] + (front + [f]))[|front| + 1] == f;
  }

  /** Pulling a position and then a block goes back one frame. */
  method PullFrame(ix: Index, ghost fs: seq<Frame>)
    requires StackOn(ix.stk, fs) && |fs| > 0
    modifies ix`stk, ix`lfblk, ix`lfpos
    ensures OnPath(ix.stk, ix.lfblk, ix.lfpos, fs[..|fs| - 1])
    ensures |fs| > 1 ==> Frame(ix.lfblk, ix.lfpos) == fs[|fs| - 2]
  {
    StackPull(ix.stk, fs);
    ghost var stk := ix.stk;
    ix.lfpos := Pull(ix);
    ix.lfblk := Pull(ix);
    assert stk == ix.stk + [ix.lfblk] + [ix.lfpos];
    assert ix.stk == stk[..|stk| - 2];
    assert |fs| > 1 ==> ([NOWHERE] + fs[..|fs| - 1])[|fs| - 1] == fs[|fs| - 2];
  }

  /** Pushing the context and moving it to a new frame. */
  method PushFrame(ix: Index, ghost fs: seq<Frame>, f: Frame)
    requires OnPath(ix.stk, ix.lfblk, ix.lfpos, fs)
    modifies ix`stk, ix`lfblk, ix`lfpos
    ensures OnPath(ix.stk, ix.lfblk, ix.lfpos, fs + [f])
    ensures ix.lfblk == f.blk && ix.lfpos == f.pos
  {
    OnPathPush(ix.stk, ix.lfblk, ix.lfpos, fs, f);
    Push(ix, ix.lfblk);
    Push(ix, ix.lfpos);
    ix.lfblk := f.blk;
    ix.lfpos := f.pos;
  }
}
