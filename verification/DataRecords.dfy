/** Data records (src-lib/btdata.c): storing, reading, replacing and deleting
    byte strings through their addresses. */
module DataRecords {
  import opened Constants
  import opened DataSegments

  /** Error of bdeldt for an address that is not in a ZDATA block. */
  const QNOTDA: int := 39

  /** What is stored at an address: the type of its blocks, its bytes, and the
      segments that hold them. */
  datatype Rec = Rec(btype: int, bytes: seq<Byte>, chain: seq<nat>)

  ghost predicate OfType(f: File, chain: seq<nat>, btype: int) {
    forall c :: c in chain ==> BlkOf(c) in f && f[BlkOf(c)].btype == btype
  }

  ghost predicate Distinct(chain: seq<nat>) {
    forall i, j :: 0 <= i < j < |chain| ==> chain[i] != chain[j]
  }

  ghost predicate RecOK(f: File, a: nat, r: Rec, owner: map<nat, nat>) {
    && a > 0 && |r.chain| > 0 && Holds(f, r.chain, a, 0, r.bytes) && OfType(f, r.chain, r.btype) && Distinct(r.chain)
    && forall c :: c in r.chain ==> c in owner && owner[c] == a
  }

  /** Every record is stored, and every segment belongs to a record or (owner 0)
      to none. */
  ghost predicate RecsOK(f: File, recs: map<nat, Rec>, owner: map<nat, nat>) {
    && (forall a :: a in recs ==> RecOK(f, a, recs[a], owner))
    && (forall c :: c in owner && owner[c] != 0 ==> owner[c] in recs && c in recs[owner[c]].chain)
  }

  /** owner with the segments of chain belonging to a. */
  ghost function Owned(owner: map<nat, nat>, chain: seq<nat>, a: nat): map<nat, nat> {
    owner + map c | c in chain :: a
  }

  lemma OwnedKeys(owner: map<nat, nat>, chain: seq<nat>, a: nat)
    ensures Owned(owner, chain, a).Keys == owner.Keys + Elems(chain)
  {
  }

  /** Blocks, counts and lists agree with the segments in use, and no block is
      without segments. */
  ghost predicate Settled(f: File, head: int, duphead: int, free: seq<int>, S: set<nat>) {
    && FileOK(f, S) && BusyBut(f, S, ZNULL) && FreeOK(f, free)
    && HeadOK(f, head, ZDATA) && HeadOK(f, duphead, ZDUP)
  }

  function HeadFor(head: int, duphead: int, btype: int): int {
    if btype == ZDATA then head else duphead
  }

  /** All blocks, in use or free. */
  ghost function AllBlocks(f: File, free: seq<int>): set<int> {
    f.Keys + Elems(free)
  }

  /** Bytes in the last segment of a chain. */
  ghost function LastSize(f: File, c: seq<nat>): nat {
    if |c| > 0 && SegIn(f, c[|c| - 1]) then Size(f, c[|c| - 1]) else 0
  }

  /** The segments in use that belong to no record are those of before and lost. */
  ghost predicate LostOnly(owner0: map<nat, nat>, owner: map<nat, nat>, lost: seq<nat>) {
    forall c :: (c in owner && owner[c] == 0) <==> (c in lost || (c in owner0 && owner0[c] == 0))
  }

  class Records {
    var blks: File          // data blocks in use
    var head: int           // active ZDATA block (the root's ZNXBLK)
    var duphead: int        // active ZDUP block (the root's ZNXDUP)
    var free: seq<int>      // blocks the allocator gives next

    ghost var owner: map<nat, nat>   // segments in use, and the record of each
    ghost var recs: map<nat, Rec>    // records by address

    ghost predicate Valid()
      reads this`blks, this`head, this`duphead, this`free, this`owner, this`recs
    {
      Settled(blks, head, duphead, free, owner.Keys) && RecsOK(blks, recs, owner)
    }

    /** A root without data. */
    constructor (blocks: seq<int>)
      requires FreeOK(map[], blocks)
      ensures Valid() && recs == map[] && blks == map[] && free == blocks
    {
      blks, head, duphead, free := map[], ZNULL, ZNULL, blocks;
      owner, recs := map[], map[];
    }

    method SetHead(btype: int, blk: int)
      modifies this`head, this`duphead
      ensures head == (if btype == ZDATA then blk else old(head)) && duphead == if btype == ZDATA then old(duphead) else blk
    {
      if btype == ZDATA {
        head := blk;
      } else {
        duphead := blk;
      }
    }

    /** mkdblk: the next free block as an empty data block with any bytes in it. */
    method MakeBlock(btype: int) returns (blk: int)
      requires FreeOK(blks, free) && (btype == ZDATA || btype == ZDUP)
      modifies this`blks, this`free
      ensures blk == ZNULL <==> old(free) == []
      ensures blk == ZNULL ==> blks == old(blks) && free == old(free)
      ensures blk != ZNULL ==>
                && blk == old(free)[0] && free == old(free)[1..] && blk !in old(blks) && Addressable(blk)
                && blk in blks && Empty(blks[blk], btype) && blks == old(blks)[blk := blks[blk]]
      ensures FreeOK(blks, free) && AllBlocks(blks, free) == old(AllBlocks(blks, free))
    {
      hide Addressable;
      blk := ZNULL;
      if |free| > 0 {
        blk := free[0];
        assert Addressable(blk);
        NotNull(blk);
        var data: seq<Byte> :| |data| == ROOM by { SomeBytes(ROOM); }
        var d := DatBlk(btype, ROOM, ZNULL, 0, ZNULL, MinSeg(btype), data);
        TakeFirst(blks, free, d);
        blks := blks[blk := d];
        free := free[1..];
      }
    }

    /** insdat: the bytes as a segment at the free end of block blk. */
    method StoreSegment(blk: nat, bytes: seq<Byte>, prev: nat) returns (offset: nat)
      requires FileOK(blks, owner.Keys) && blk in blks && blks[blk].nkeys >= 0
      requires blks[blk].nkeys + ZDOVRH + |bytes| <= ROOM
      requires |blks[blk].data| == ROOM && prev < Power(ZBPW)
      modifies this`blks, this`owner
      ensures offset == old(blks[blk].nkeys) && BlkOK(old(blks)[blk])
      ensures blks == old(blks)[blk := InsSeg(old(blks)[blk], bytes, prev)]
      ensures owner == old(owner)[Address(blk, offset) := 0]
    {
      var d := blks[blk];
      assert BlockOK(blk, d);
      offset := d.nkeys;
      var sized := Splice(d.data, offset, Bytes(|bytes|, ZDRSZ));
      var linked := Splice(sized, offset + ZDRSZ, Bytes(prev, ZBPW));
      blks := blks[blk := d.(data := Splice(linked, offset + ZDOVRH, bytes))];
      blks := blks[blk := blks[blk].(nkeys := offset + ZDOVRH + |bytes|)];
      blks := blks[blk := blks[blk].(misc := blks[blk].misc - (ZDOVRH + |bytes|))];
      owner := owner[Address(blk, offset) := 0];
    }

    /** binsdt's first step: the active block of the type, made if there is none. */
    method ActiveBlock(btype: int) returns (dblk: int)
      requires Settled(blks, head, duphead, free, owner.Keys) && (btype == ZDATA || btype == ZDUP)
      modifies this`blks, this`head, this`duphead, this`free
      ensures AllBlocks(blks, free) == old(AllBlocks(blks, free)) && AllSame(old(blks), blks, owner.Keys)
      ensures dblk == ZNULL ==> free == old(free) == [] && Settled(blks, head, duphead, free, owner.Keys)
      ensures dblk != ZNULL ==> Ready(blks, head, duphead, free, owner.Keys, btype, dblk) && dblk in blks
      ensures var active := old(HeadFor(head, duphead, btype));
              if active != ZNULL then dblk == active && free == old(free) && blks == old(blks)
              else dblk != ZNULL ==> |free| == |old(free)| - 1 && blks[dblk].nkeys == 0
    {
      hide *;
      ghost var f, free0 := blks, free;
      dblk := HeadFor(head, duphead, btype);
      HeadForIs(head, duphead, btype);
      SettledOpen(blks, head, duphead, free, owner.Keys, btype);
      FrameNone(f, owner.Keys);
      if dblk == ZNULL {
        dblk := MakeBlock(btype);
        if dblk != ZNULL {
          ReadyFirst(f, free0, head, duphead, owner.Keys, btype, dblk, blks[dblk]);
          EmptyKeys(blks[dblk], btype);
          SetHead(btype, dblk);
        }
      } else {
        ReadyFacts(f, head, duphead, free, owner.Keys, btype, dblk);
      }
    }

    /** The step of binsdt for a full block: a new block becomes head of the list. */
    method AddBlock(btype: int, dblk: int) returns (nblk: int)
      requires Ready(blks, head, duphead, free, owner.Keys, btype, dblk)
      requires (btype == ZDATA || btype == ZDUP) && dblk in blks
      requires ROOM - blks[dblk].nkeys < ZDOVRH + MinSeg(btype)
      modifies this`blks, this`head, this`duphead, this`free
      ensures AllBlocks(blks, free) == old(AllBlocks(blks, free)) && AllSame(old(blks), blks, owner.Keys)
      ensures nblk == ZNULL ==> free == old(free) == [] && Settled(blks, head, duphead, free, owner.Keys)
      ensures nblk != ZNULL ==> Ready(blks, head, duphead, free, owner.Keys, btype, nblk) && |free| == |old(free)| - 1 && nblk > 0
      ensures nblk != ZNULL ==> nblk in blks && blks[nblk].nkeys == 0
    {
      hide *;
      ghost var f, free0 := blks, free;
      ReadyFacts(f, head, duphead, free, owner.Keys, btype, dblk);
      ReadySettled(f, head, duphead, free, owner.Keys, btype, dblk);
      SettledOpen(f, head, duphead, free, owner.Keys, btype);
      FrameNone(f, owner.Keys);
      nblk := MakeBlock(btype);
      if nblk != ZNULL {
        ghost var d := blks[nblk];
        EmptyKeys(d, btype);
        NotNull(nblk);
        ReadyNext(f, head, duphead, free0, owner.Keys, btype, dblk, nblk, d);
        blks := blks[nblk := blks[nblk].(nxblk := dblk)];
        assert blks == f[nblk := d.(nxblk := dblk)];
        blks := blks[dblk := blks[dblk].(nblks := nblk)];
        SetHead(btype, nblk);
      }
    }

    /** insdat as binsdt uses it: the new segment, with the bytes from lo on, leads
        to those stored before. */
    method StorePiece(btype: int, dblk: int, data: seq<Byte>, lo: nat, hi: nat, segaddr: nat,
                      ghost f0: File, ghost owner0: map<nat, nat>, ghost chain: seq<nat>) returns (naddr: nat, ghost more: seq<nat>)
      requires lo <= hi && Filling(f0, owner0, blks, owner, head, duphead, free, btype, dblk, chain, segaddr, data, hi)
      requires (btype == ZDATA || btype == ZDUP) && dblk in blks && blks[dblk].nkeys + ZDOVRH + (hi - lo) <= ROOM
      requires lo > 0 ==> btype != ZDUP || |data| != DKEYSZ
      modifies this`blks, this`owner
      ensures Filling(f0, owner0, blks, owner, head, duphead, free, btype, dblk, more, naddr, data, if lo == 0 then -1 else lo)
      ensures AllBlocks(blks, free) == old(AllBlocks(blks, free)) && dblk in blks
      ensures blks[dblk].nkeys == old(blks[dblk].nkeys) + ZDOVRH + (hi - lo)
    {
      hide *;
      FillingOpen(f0, owner0, blks, owner, head, duphead, free, btype, dblk, chain, segaddr, data, hi);
      FromOpen(f0, owner0, blks, owner, chain, segaddr, data, hi, btype);
      ReadyFacts(blks, head, duphead, free, owner.Keys, btype, dblk);
      StoredKeys(blks[dblk], data[lo..hi], segaddr);
      StoreFits(f0, owner0, blks, owner, head, duphead, free, chain, segaddr, data[hi..], btype, dblk, data[lo..hi]);
      Pieces(data, lo, hi);
      var offset := StoreSegment(dblk, data[lo..hi], segaddr);
      naddr := Address(dblk, offset);
      more := [naddr] + chain;
      FromMake(f0, owner0, blks, owner, more, naddr, data, lo, btype);
      if lo == 0 {
        FillingEnd(f0, owner0, blks, owner, head, duphead, free, btype, dblk, more, naddr, data, hi);
      } else {
        FillingMake(f0, owner0, blks, owner, head, duphead, free, btype, dblk, more, naddr, data, lo, hi);
      }
    }

    /** binsdt: stores data in segments, the last one first, and returns the
        address of the first segment, or null when blocks run out. */
    method InsertData(btype: int, data: seq<Byte>) returns (addr: int, ghost chain: seq<nat>)
      requires Settled(blks, head, duphead, free, owner.Keys) && (btype == ZDATA || btype == ZDUP)
      modifies this`blks, this`head, this`duphead, this`free, this`owner
      ensures Settled(blks, head, duphead, free, owner.Keys)
      ensures AllBlocks(blks, free) == old(AllBlocks(blks, free)) && AllSame(old(blks), blks, old(owner).Keys)
      ensures owner == Owned(old(owner), chain, 0) && Distinct(chain) && Elems(chain) !! old(owner).Keys
      ensures addr == ZNULL ==> free == []
      ensures var need := old(BlocksFor(SpaceIn(blks, HeadFor(head, duphead, btype)), |data|, MinSeg(btype)));
              && (addr != ZNULL <==> need <= |old(free)|) && (addr != ZNULL ==> |free| == |old(free)| - need)
      ensures |old(free)| > 0 && |data| <= |old(free)| * (ROOM - ZDOVRH) ==> addr != ZNULL
      ensures addr != ZNULL ==> 0 < addr < Power(ZBPW) && |chain| > 0 && Holds(blks, chain, addr, 0, data) && OfType(blks, chain, btype)
      ensures addr != ZNULL && btype == ZDUP && |data| == DKEYSZ ==> |chain| == 1
    {
      assert ZNULL == -1;
      hide *;
      ghost var f0, owner0 := blks, owner;
      chain := [];
      addr := ZNULL;
      SettledOpen(blks, head, duphead, free, owner.Keys, btype);
      StoredNone(f0, owner0, btype);
      ghost var active, n := HeadFor(head, duphead, btype), |free|;
      NeededFirst(this, btype, |data|, n);
      var dblk := ActiveBlock(btype);
      StoredFrame(f0, owner0, f0, blks, owner0, [], 0, [], btype);
      if dblk == ZNULL {
        StoredOpen(f0, owner0, blks, owner, chain, 0, [], btype);
        return;
      }
      NeededIs(blks, dblk, |data|, btype);
      addr, chain := StoreAll(btype, dblk, data, f0, owner0);
      if addr == ZNULL {
        PartlyOpen(f0, owner0, blks, owner, chain, btype);
      } else {
        FinishedOpen(f0, owner0, blks, owner, chain, addr, data, btype);
      }
    }

    /** The loop of binsdt. */
    method StoreAll(btype: int, active: int, data: seq<Byte>, ghost f0: File, ghost owner0: map<nat, nat>)
      returns (addr: int, ghost chain: seq<nat>)
      requires Ready(blks, head, duphead, free, owner.Keys, btype, active) && (btype == ZDATA || btype == ZDUP)
      requires Stored(f0, owner0, blks, owner, [], 0, [], btype)
      modifies this`blks, this`head, this`duphead, this`free, this`owner
      ensures Settled(blks, head, duphead, free, owner.Keys) && AllBlocks(blks, free) == old(AllBlocks(blks, free))
      ensures var need := old(Needed(blks, active, |data|, btype));
              && (addr != ZNULL <==> need <= |old(free)|) && (addr != ZNULL ==> |free| == |old(free)| - need)
      ensures addr == ZNULL ==> free == [] && Partly(f0, owner0, blks, owner, chain, btype)
      ensures addr != ZNULL ==> Finished(f0, owner0, blks, owner, chain, addr, data, btype)
      ensures addr != ZNULL && btype == ZDUP && |data| == DKEYSZ ==> |chain| == 1
    {
      assert ZNULL == -1;
      hide *;
      chain := [];
      var remsize: int := |data|;
      var segaddr: nat := 0;
      var dblk := active;
      addr := ZNULL;
      ReadyFacts(blks, head, duphead, free, owner.Keys, btype, dblk);
      FillingStart(f0, owner0, blks, owner, head, duphead, free, btype, dblk, data);
      ghost var need := Needed(blks, dblk, |data|, btype);
      var minsegsize := blks[dblk].nxdup;
      while remsize >= 0
        invariant remsize >= -1 && minsegsize == MinSeg(btype)
        invariant AllBlocks(blks, free) == old(AllBlocks(blks, free))
        invariant |free| - Needed(blks, dblk, remsize, btype) == |old(free)| - need
        invariant Filling(f0, owner0, blks, owner, head, duphead, free, btype, dblk, chain, segaddr, data, remsize)
        decreases remsize, |free|
      {
        dblk, segaddr, remsize, chain := StoreStep(btype, dblk, minsegsize, segaddr, data, remsize, f0, owner0, chain);
        if dblk == ZNULL {
          return;
        }
      }
      NeededIs(blks, dblk, remsize, btype);
      addr := segaddr;
      FillingDone(f0, owner0, blks, owner, head, duphead, free, btype, dblk, chain, addr, data);
    }

    /** One pass of that loop.  The segment at segaddr is the last one stored. */
    method StoreStep(btype: int, dblk: int, minsegsize: nat, segaddr: nat, data: seq<Byte>, remsize: nat,
                     ghost f0: File, ghost owner0: map<nat, nat>, ghost chain: seq<nat>)
      returns (nblk: int, naddr: nat, left: int, ghost more: seq<nat>)
      requires (btype == ZDATA || btype == ZDUP) && minsegsize == MinSeg(btype)
      requires Filling(f0, owner0, blks, owner, head, duphead, free, btype, dblk, chain, segaddr, data, remsize)
      modifies this`blks, this`head, this`duphead, this`free, this`owner
      ensures AllBlocks(blks, free) == old(AllBlocks(blks, free))
      ensures nblk == ZNULL ==> old(Needed(blks, dblk, remsize, btype)) > |old(free)|
      ensures nblk == ZNULL ==> Settled(blks, head, duphead, free, owner.Keys)
      ensures nblk == ZNULL ==> free == [] && Partly(f0, owner0, blks, owner, more, btype)
      ensures nblk != ZNULL ==> Filling(f0, owner0, blks, owner, head, duphead, free, btype, nblk, more, naddr, data, left)
      ensures nblk != ZNULL ==>
                |free| - Needed(blks, nblk, left, btype) == |old(free)| - old(Needed(blks, dblk, remsize, btype))
      ensures nblk != ZNULL ==> -1 <= left < remsize || (left == remsize && |free| < |old(free)|)
    {
      assert ZNULL == -1 && ZDOVRH > 0;
      hide *;
      nblk, left, naddr, more := dblk, remsize, segaddr, chain;
      FillingOpen(f0, owner0, blks, owner, head, duphead, free, btype, dblk, chain, segaddr, data, remsize);
      var freesz := ROOM - blks[dblk].nkeys;
      NeededIs(blks, dblk, remsize, btype);
      if freesz >= remsize + ZDOVRH {
        NeedNone(freesz, remsize, MinSeg(btype));
        naddr, more := StorePiece(btype, dblk, data, 0, remsize, segaddr, f0, owner0, chain);
        left := -1;
        NeededIs(blks, dblk, left, btype);
      } else if freesz < ZDOVRH + minsegsize {
        nblk := StoreOn(btype, dblk, segaddr, data, remsize, f0, owner0, chain);
      } else {
        NeedPiece(freesz, remsize, btype);
        freesz := freesz - ZDOVRH;
        left := remsize - freesz;
        naddr, more := StorePiece(btype, dblk, data, left, remsize, segaddr, f0, owner0, chain);
        NeededIs(blks, dblk, left, btype);
      }
    }

    /** A pass with a full block: the bytes left go to a new one. */
    method StoreOn(btype: int, dblk: int, segaddr: nat, data: seq<Byte>, remsize: nat, ghost f0: File,
                   ghost owner0: map<nat, nat>,
                   ghost chain: seq<nat>) returns (nblk: int)
      requires (btype == ZDATA || btype == ZDUP) && dblk in blks && ROOM - blks[dblk].nkeys < ZDOVRH + MinSeg(btype)
      requires ROOM - blks[dblk].nkeys < remsize + ZDOVRH
      requires Filling(f0, owner0, blks, owner, head, duphead, free, btype, dblk, chain, segaddr, data, remsize)
      modifies this`blks, this`head, this`duphead, this`free
      ensures AllBlocks(blks, free) == old(AllBlocks(blks, free))
      ensures nblk == ZNULL ==> old(Needed(blks, dblk, remsize, btype)) > |old(free)|
      ensures nblk == ZNULL ==> Settled(blks, head, duphead, free, owner.Keys)
      ensures nblk == ZNULL ==> free == [] && Partly(f0, owner0, blks, owner, chain, btype)
      ensures nblk != ZNULL ==> Filling(f0, owner0, blks, owner, head, duphead, free, btype, nblk, chain, segaddr, data, remsize)
      ensures nblk != ZNULL ==>
                |free| - Needed(blks, nblk, remsize, btype) == |old(free)| - old(Needed(blks, dblk, remsize, btype))
      ensures nblk != ZNULL ==> |free| < |old(free)|
    {
      hide *;
      ghost var f, free1 := blks, free;
      FillingOpen(f0, owner0, f, owner, head, duphead, free, btype, dblk, chain, segaddr, data, remsize);
      NeededIs(f, dblk, remsize, btype);
      NeedOne(ROOM - f[dblk].nkeys, remsize, btype);
      nblk := AddBlock(btype, dblk);
      NeededIs(blks, nblk, remsize, btype);
      FromFrame(f0, owner0, f, blks, owner, chain, segaddr, data, remsize, btype);
      if nblk == ZNULL {
        GiveUp(f0, owner0, blks, owner, chain, segaddr, data, remsize, btype);
      } else {
        FillingMake(f0, owner0, blks, owner, head, duphead, free, btype, nblk, chain, segaddr, data, remsize, remsize);
      }
    }

    /** deldat: gives the bytes of a segment back.  The block goes to the allocator
        exactly when this was its last segment. */
    method DeleteSegment(blk: nat, offset: nat)
      requires Settled(blks, head, duphead, free, owner.Keys) && Address(blk, offset) in owner && offset < ZBLKSZ
      modifies this`blks, this`head, this`duphead, this`free, this`owner
      ensures Settled(blks, head, duphead, free, owner.Keys) && owner == old(owner) - {Address(blk, offset)}
      ensures AllSame(old(blks), blks, owner.Keys) && AllBlocks(blks, free) == old(AllBlocks(blks, free))
      ensures blk in blks <==> exists c :: c in owner && BlkOf(c) == blk
      ensures blks.Keys == if blk in blks then old(blks.Keys) else old(blks.Keys) - {blk}
    {
      hide *;
      ghost var f, a, S := blks, Address(blk, offset), owner.Keys;
      SegmentOpen(f, head, duphead, free, S, blk, offset);
      var d := blks[blk];
      var size := Value(d.data[offset..offset + ZDRSZ]);
      var freesz := d.misc + (size + ZDOVRH);
      ReleasedSettled(f, head, duphead, free, S, blk, offset);
      owner := owner - {a};
      assert owner.Keys == S - {a};
      blks := blks[blk := d.(misc := freesz)];
      if freesz == ROOM {
        FreedSettled(blks, head, duphead, free, owner.Keys, blk);
        ghost var f0 := blks;
        blks := blks[blk := blks[blk].(nkeys := 0)];
        var pblk, nblk := blks[blk].nblks, blks[blk].nxblk;
        ghost var f1 := blks;
        if nblk != ZNULL {
          blks := blks[nblk := blks[nblk].(nblks := pblk)];
        }
        if pblk != ZNULL {
          blks := blks[pblk := blks[pblk].(nxblk := nblk)];
        }
        UnlinkedIs(f1, blk);
        if d.btype == ZDUP && duphead == blk {
          duphead := ZNULL;
        }
        blks := blks - {blk};
        free := [blk] + free;
        if blk == head {
          head := ZNULL;
        }
        SameTrans(f, f0, blks, owner.Keys, owner.Keys);
      }
    }

    /** bdeldt: deletes the segments of a chain.  The address of the next segment
        is read before a block may go, and the next segment is still there. */
    method DeleteData(addr: nat, ghost chain: seq<nat>, ghost bytes: seq<Byte>, ghost btype: int) returns (status: int)
      requires Settled(blks, head, duphead, free, owner.Keys) && addr != 0
      requires Holds(blks, chain, addr, 0, bytes) && OfType(blks, chain, btype)
      requires Distinct(chain) && Elems(chain) <= owner.Keys
      modifies this`blks, this`head, this`duphead, this`free, this`owner
      ensures Settled(blks, head, duphead, free, owner.Keys) && AllBlocks(blks, free) == old(AllBlocks(blks, free))
      ensures AllSame(old(blks), blks, owner.Keys)
      ensures btype == ZDATA ==> status == 0 && owner == old(owner) - Elems(chain)
      ensures btype != ZDATA ==> status == QNOTDA && unchanged(this)
    {
      hide *;
      ghost var f0, S0, i, rest := blks, owner, 0, bytes;
      status := 0;
      var draddr := addr;
      DeletingStart(blks, head, duphead, free, owner, chain, addr, bytes);
      while draddr != 0
        invariant i <= |chain| && Settled(blks, head, duphead, free, owner.Keys)
        invariant Deleting(f0, blks, S0, owner, chain, i, draddr, rest) && OfType(f0, chain, btype)
        invariant AllBlocks(blks, free) == old(AllBlocks(blks, free)) && status == 0
        invariant i == 0 ==> draddr != 0 && unchanged(this)
        invariant i > 0 ==> btype == ZDATA
        decreases |chain| - i
      {
        DeletingOpen(f0, blks, S0, owner, chain, i, draddr, rest, btype);
        var dblk, offset := BlkOf(draddr), OffOf(draddr);
        PartsAddress(draddr);
        if blks[dblk].btype != ZDATA {
          DeletingNone(f0, blks, S0, owner, chain, i, draddr, rest);
          return QNOTDA;
        }
        ghost var f, o := blks, owner;
        SegmentOpen(f, head, duphead, free, owner.Keys, dblk, offset);
        var next := Value(blks[dblk].data[offset + ZDRSZ..offset + ZDOVRH]);
        DeleteSegment(dblk, offset);
        DeletingStep(f0, f, blks, S0, o, owner, chain, i, draddr, rest);
        rest := rest[Size(f, draddr)..];
        draddr := next;
        i := i + 1;
      }
      DeletingDone(f0, blks, S0, owner, chain, i, rest);
    }

    /** bseldt: the bytes at an address, at most dsize of them. */
    method ReadData(addr: nat, dsize: int) returns (data: seq<Byte>)
      requires Valid() && addr in recs
      ensures data == if dsize <= 0 then [] else if dsize < |recs[addr].bytes| then recs[addr].bytes[..dsize] else recs[addr].bytes
    {
      hide *;
      ghost var chain, rest := recs[addr].chain, recs[addr].bytes;
      RecordOpen(this, addr);
      data := [];
      var draddr := addr;
      var sprem := dsize;
      while sprem > 0 && draddr != 0
        invariant sprem > 0 ==> Holds(blks, chain, draddr, 0, rest) && data + rest == recs[addr].bytes && |data| + sprem == dsize
        invariant sprem == 0 ==> 0 <= dsize <= |recs[addr].bytes| && data == recs[addr].bytes[..dsize]
        invariant sprem < 0 ==> data == [] && dsize < 0
        decreases |chain|
      {
        ChainOpen(blks, chain, draddr, rest);
        var dblk, offset := BlkOf(draddr), OffOf(draddr);
        var d := blks[dblk].data;
        var segsz := Value(d[offset..offset + ZDRSZ]);
        var next := Value(d[offset + ZDRSZ..offset + ZDOVRH]);
        var cpsz := if segsz > sprem then sprem else segsz;
        ReadStep(recs[addr].bytes, data, rest, segsz, sprem);
        ReadPart(d, offset, segsz, cpsz, rest);
        data := data + d[offset + ZDOVRH..offset + ZDOVRH + cpsz];
        rest := rest[segsz..];
        chain := chain[1..];
        draddr := next;
        sprem := sprem - cpsz;
      }
      if sprem > 0 {
        ZeroEnds(blks, chain, 0, rest);
        assert data + [] == data;
      }
      assert dsize == |recs[addr].bytes| ==> recs[addr].bytes[..dsize] == recs[addr].bytes;
    }

    /** A step of bupddt: bytes over the first bytes of a segment, which is the last
        one if they are all that is left. */
    method WriteOver(addr: nat, bytes: seq<Byte>, last: bool)
      requires Settled(blks, head, duphead, free, owner.Keys) && addr in owner
      requires SegIn(blks, addr) && |bytes| <= Size(blks, addr)
      modifies this`blks
      ensures Settled(blks, head, duphead, free, owner.Keys) && AllBlocks(blks, free) == old(AllBlocks(blks, free))
      ensures Wrote(old(blks), blks, owner.Keys, addr) && SegIn(blks, addr)
      ensures Size(blks, addr) == if last then |bytes| else Size(old(blks), addr)
      ensures Next(blks, addr) == if last then 0 else Next(old(blks), addr)
      ensures Payload(blks, addr) == bytes + if last then [] else Payload(old(blks), addr)[|bytes|..]
    {
      hide *;
      ghost var f := blks;
      SettledFile(blks, head, duphead, free, owner.Keys);
      SegmentHere(blks, addr);
      Rewritten(blks, owner.Keys, addr, bytes);
      var dblk, offset := BlkOf(addr), OffOf(addr);
      var segsz := Value(blks[dblk].data[offset..offset + ZDRSZ]);
      blks := blks[dblk := Rewrite(blks[dblk], offset, bytes)];
      ShrunkSettled(f, blks, head, duphead, free, owner.Keys, addr);
      SegFacts(f, addr);
      if last {
        ghost var f1 := blks;
        SettledFile(blks, head, duphead, free, owner.Keys);
        WasCut(blks, owner.Keys, addr, |bytes|);
        blks := blks[dblk := Cut(blks[dblk], offset, segsz, |bytes|)];
        ShrunkSettled(f1, blks, head, duphead, free, owner.Keys, addr);
        WroteTrans(f, f1, blks, owner.Keys, addr);
        assert (bytes + Payload(f, addr)[|bytes|..])[..|bytes|] == bytes;
      }
    }

    /** bupddt's loop: the bytes go over the segments of the old record, as far as
        there are any; a segment after the last one used loses its bytes. */
    method Overwrite(addr: nat, data: seq<Byte>, ghost c: seq<nat>, ghost rec: seq<Byte>)
      returns (draddr: nat, remsz: int, dblk: nat, offset: nat, ghost i: nat, ghost j: nat, ghost tail: seq<Byte>)
      requires Settled(blks, head, duphead, free, owner.Keys) && Holds(blks, c, addr, 0, rec) && addr > 0
      requires Distinct(c) && Elems(c) <= owner.Keys
      modifies this`blks
      ensures Settled(blks, head, duphead, free, owner.Keys) && AllBlocks(blks, free) == old(AllBlocks(blks, free))
      ensures WroteAll(old(blks), blks, owner.Keys, c)
      ensures draddr == 0 || remsz == -1
      ensures remsz <= 0 ==> Closed(blks, c, addr, i, j, draddr, data, tail) && 0 < i <= j <= i + 1
      ensures remsz > 0 ==> draddr == 0 && remsz <= |data| && |rec| == |data| - remsz && Holds(blks, c, addr, 0, data[..|rec|])
      ensures remsz > 0 ==> Address(dblk, offset) == c[|c| - 1] && offset < ZBLKSZ && |c| > 0
      ensures remsz <= 0 ==> |data| <= |rec|
      ensures remsz <= 0 ==> (j == i + 1 <==> 0 < |data| <= |rec| - old(LastSize(blks, c)))
    {
      hide *;
      ghost var f0, last := blks, LastSize(blks, c);
      LastHeld(blks, owner.Keys, c, addr, rec);
      draddr, remsz, dblk, offset := addr, |data|, 0, 0;
      i, j, tail := 0, 0, rec;
      ghost var done := false;
      ghost var k: nat := 0;
      SettledFile(blks, head, duphead, free, owner.Keys);
      FileBlocks(blks, owner.Keys);
      CopyingStart(blks, owner.Keys, c, addr, data, rec);
      while draddr != 0 && remsz >= 0
        invariant remsz >= -1 && i <= j <= |c| && (done <==> i > 0 && remsz <= 0)
        invariant (!done ==> i == j && k + remsz == |data|)
        invariant done ==> |data| <= |rec| && i > 0 && j <= i + 1 && (remsz == 0 ==> j == i)
        invariant Settled(blks, head, duphead, free, owner.Keys) && AllBlocks(blks, free) == old(AllBlocks(blks, free))
        invariant WroteAll(old(blks), blks, owner.Keys, c)
        invariant !done ==> Copying(blks, c, addr, i, draddr, data, k, rec, tail)
        invariant done ==> Closed(blks, c, addr, i, j, draddr, data, tail)
        invariant i == 0 ==> draddr == addr && remsz >= 0 && k == 0
        invariant i > 0 && !done ==> Address(dblk, offset) == c[i - 1] && offset < ZBLKSZ
        invariant j < |c| ==> SegSame(f0, blks, c[|c| - 1])
        invariant done && |data| > 0 ==> (i < |c| <==> |data| <= |rec| - last)
        invariant done ==> (j == i + 1 <==> remsz == -1 && |data| > 0) && (remsz == 0 ==> |data| > 0)
        decreases |c| - j
      {
        ghost var f, cur := blks, draddr;
        if done {
          ClosedOpen(blks, owner.Keys, c, addr, i, j, draddr, data, tail);
        } else {
          CopyingOpen(blks, owner.Keys, c, addr, i, draddr, data, k, rec, tail);
        }
        SegmentHere(blks, draddr);
        SegFacts(blks, draddr);
        PartsAddress(draddr);
        dblk, offset := BlkOf(draddr), OffOf(draddr);
        var segsz := Value(blks[dblk].data[offset..offset + ZDRSZ]);
        var next := Value(blks[dblk].data[offset + ZDRSZ..offset + ZDOVRH]);
        var cpsz := if segsz > remsz then remsz else segsz;
        var pos := |data| - remsz;
        WriteOver(draddr, data[pos..pos + cpsz], cpsz == remsz);
        WroteMore(old(blks), f, blks, owner.Keys, c, draddr);
        LastKept(f0, f, blks, owner.Keys, c, j);
        draddr := next;
        if done {
          StrayStep(f, blks, owner.Keys, c, addr, i, cur, data, tail);
          j := j + 1;
        } else if cpsz == remsz {
          CloseStep(f, blks, owner.Keys, c, addr, i, cur, data, k, rec, tail);
          ClosePlace(f0, f, c, addr, i, cur, data, k, rec, tail);
          i, j, done := i + 1, j + 1, true;
        } else {
          CopyStep(f, blks, owner.Keys, c, addr, i, cur, data, k, rec, tail);
          i, j, k := i + 1, j + 1, k + segsz;
        }
        tail := tail[segsz..];
        if cpsz == remsz && cpsz == 0 {
          remsz := -1;
        }
        remsz := remsz - cpsz;
      }
      if !done {
        CopyingDone(blks, c, addr, i, data, k, rec, tail);
      } else if draddr == 0 {
        ClosedDone(blks, c, addr, i, j, data, tail);
      }
    }

    /** The address in a record's last segment, written by bupddt. */
    method LinkLast(dblk: nat, offset: nat, draddr: nat, ghost c: seq<nat>, ghost addr: nat, ghost bytes: seq<Byte>)
      requires Settled(blks, head, duphead, free, owner.Keys) && Distinct(c)
      requires Elems(c) <= owner.Keys && draddr < Power(ZBPW)
      requires |c| > 0 && Address(dblk, offset) == c[|c| - 1] && offset < ZBLKSZ && Holds(blks, c, addr, 0, bytes)
      modifies this`blks
      ensures Settled(blks, head, duphead, free, owner.Keys) && AllBlocks(blks, free) == old(AllBlocks(blks, free))
      ensures Wrote(old(blks), blks, owner.Keys, c[|c| - 1]) && Holds(blks, c, addr, draddr, bytes)
    {
      hide *;
      ghost var f, a := blks, c[|c| - 1];
      SettledFile(blks, head, duphead, free, owner.Keys);
      LastIn(c, owner.Keys);
      SegmentOpen(blks, head, duphead, free, owner.Keys, dblk, offset);
      Relinked(blks, owner.Keys, a, draddr);
      blks := blks[dblk := blks[dblk].(data := Splice(blks[dblk].data, offset + ZDRSZ, Bytes(draddr, ZBPW)))];
      ShrunkSettled(f, blks, head, duphead, free, owner.Keys, a);
      LastLinked(f, blks, owner.Keys, c, addr, 0, draddr, bytes);
    }

    /** bupddt: the record at an address is replaced, whatever its old and new
        lengths.  If blocks run out, it keeps as many bytes as it had. */
    method UpdateData(addr: nat, data: seq<Byte>) returns (stored: bool, ghost lost: seq<nat>)
      requires Valid() && addr in recs
      modifies this
      ensures Valid() && AllBlocks(blks, free) == old(AllBlocks(blks, free))
      ensures addr in recs && recs == old(recs)[addr := recs[addr]] && recs[addr].btype == old(recs[addr].btype)
      ensures !stored ==> |old(recs[addr].bytes)| < |data| && free == []
      ensures |old(recs[addr].bytes)| < |data| ==>
                var more := |data| - |old(recs[addr].bytes)|;
                var need := old(BlocksFor(SpaceIn(blks, HeadFor(head, duphead, recs[addr].btype)), more,
                                          MinSeg(recs[addr].btype)));
                && (stored <==> need <= |old(free)|) && (stored ==> |free| == |old(free)| - need)
      ensures recs[addr].bytes == if stored then data else data[..|old(recs[addr].bytes)|]
      ensures LostOnly(old(owner), owner, lost) && forall c :: c in lost ==> c !in old(owner) || old(owner)[c] == addr
      ensures stored && recs[addr].btype == ZDATA ==>
                && (lost != [] <==> 0 < |data| <= |old(recs[addr].bytes)| - old(LastSize(blks, recs[addr].chain)))
                && |lost| <= 1 && forall c :: c in lost ==> SegIn(blks, c) && Size(blks, c) == 0
      ensures stored && |old(recs[addr].chain)| == 1 ==> lost == []
    {
      hide *;
      ghost var f0, owner0, recs0, r := blks, owner, recs, recs[addr];
      ghost var c := r.chain;
      RecordOpen(this, addr);
      RecOpen(f0, recs, owner, addr);
      var draddr, remsz, dblk, offset;
      ghost var i, j, tail;
      draddr, remsz, dblk, offset, i, j, tail := Overwrite(addr, data, c, r.bytes);
      ghost var f1 := blks;
      TypesKept(f0, f1, owner.Keys, c, r.btype);
      stored := true;
      if remsz > 0 {
        SameSpace(f0, f1, owner.Keys, c, HeadFor(head, duphead, r.btype));
        stored, lost := Lengthen(addr, data, remsz, dblk, offset, f0);
      } else {
        lost := Shorten(addr, data, draddr, f0, i, j, tail);
      }
    }

    /** bupddt for a record that did not become longer: what is left of the old one
        is deleted. */
    method Shorten(addr: nat, data: seq<Byte>, draddr: nat, ghost f0: File, ghost i: nat, ghost j: nat,
                   ghost tail: seq<Byte>)
      returns (ghost lost: seq<nat>)
      requires Settled(blks, head, duphead, free, owner.Keys) && RecsOK(f0, recs, owner) && addr in recs
      requires WroteAll(f0, blks, owner.Keys, recs[addr].chain) && OfType(blks, recs[addr].chain, recs[addr].btype)
      requires Closed(blks, recs[addr].chain, addr, i, j, draddr, data, tail) && 0 < i <= j <= i + 1
      modifies this
      ensures Valid() && AllBlocks(blks, free) == old(AllBlocks(blks, free))
      ensures addr in recs && recs == old(recs)[addr := recs[addr]] && recs[addr].btype == old(recs[addr].btype)
      ensures recs[addr].bytes == data
      ensures LostOnly(old(owner), owner, lost) && forall c :: c in lost ==> c in old(recs[addr].chain)
      ensures recs[addr].btype == ZDATA ==>
                && (lost != [] <==> j == i + 1) && |lost| <= 1
                && forall c :: c in lost ==> SegIn(blks, c) && Size(blks, c) == 0
      ensures |old(recs[addr].chain)| == 1 ==> lost == []
    {
      hide *;
      ghost var r, owner0, f1, m := recs[addr], owner, blks, j;
      ghost var c := r.chain;
      RecOpen(f0, recs, owner, addr);
      SettledSame(f1, head, duphead, free, owner.Keys);
      ClosedParts(f1, owner, c, addr, i, j, draddr, data, tail, r.btype);
      if draddr != 0 {
        var status := DeleteData(draddr, c[j..], tail, r.btype);
        m := if r.btype == ZDATA then j else |c|;
      }
      PartsLeft(owner0, owner, c, m);
      CutTable(f0, f1, blks, head, duphead, free, recs, owner0, owner, addr, i, j, m, draddr, data, tail);
      lost := c[i..m];
      LostPart(c, i, m);
      owner := Owned(owner, lost, 0);
      recs := recs[addr := Rec(r.btype, data, c[..i])];
      ValidMake(this);
    }

    /** bupddt for a record that became longer: the rest is stored in new segments. */
    method Lengthen(addr: nat, data: seq<Byte>, remsz: nat, dblk: nat, offset: nat,
                    ghost f0: File) returns (stored: bool, ghost lost: seq<nat>)
      requires Settled(blks, head, duphead, free, owner.Keys) && RecsOK(f0, recs, owner) && addr in recs
      requires 0 < remsz <= |data| && |recs[addr].bytes| == |data| - remsz
      requires WroteAll(f0, blks, owner.Keys, recs[addr].chain) && OfType(blks, recs[addr].chain, recs[addr].btype)
      requires Holds(blks, recs[addr].chain, addr, 0, data[..|data| - remsz])
      requires Address(dblk, offset) == recs[addr].chain[|recs[addr].chain| - 1] && offset < ZBLKSZ
      modifies this
      ensures Valid() && AllBlocks(blks, free) == old(AllBlocks(blks, free))
      ensures addr in recs && recs == old(recs)[addr := recs[addr]] && recs[addr].btype == old(recs[addr].btype)
      ensures recs[addr].bytes == if stored then data else data[..|data| - remsz]
      ensures !stored ==> free == []
      ensures var need := old(BlocksFor(SpaceIn(blks, HeadFor(head, duphead, recs[addr].btype)), remsz,
                                        MinSeg(recs[addr].btype)));
              && (stored <==> need <= |old(free)|) && (stored ==> |free| == |old(free)| - need)
      ensures LostOnly(old(owner), owner, lost) && forall c :: c in lost ==> c !in old(owner)
      ensures stored ==> lost == []
    {
      hide *;
      ghost var r, owner0, f1 := recs[addr], owner, blks;
      ghost var c, k := r.chain, |data| - remsz;
      RecOpen(f0, recs, owner, addr);
      SettledFile(blks, head, duphead, free, owner.Keys);
      ghost var chain;
      var naddr;
      LastType(blks, owner.Keys, c, dblk, offset, r.btype);
      naddr, chain := InsertData(blks[dblk].btype, data[|data| - remsz..]);
      stored := naddr != ZNULL;
      lost := if stored then [] else chain;
      var draddr: nat := if stored then naddr else 0;
      ghost var f2 := blks;
      PartKept(f1, f2, owner0.Keys, c, addr, 0, data[..k], r.btype);
      ZeroFits();
      OwnedKeys(owner0, chain, 0);
      ChainApart(chain, owner0.Keys);
      LinkLast(dblk, offset, draddr, c, addr, data[..k]);
      WroteTypes(f2, blks, owner.Keys, c[|c| - 1], c, r.btype);
      if stored {
        LastApart(c, chain, owner0.Keys);
        PartSame(f2, blks, owner.Keys, c[|c| - 1], chain, draddr, 0, data[k..]);
        HoldsJoin(blks, c, addr, draddr, data[..k], chain, 0, data[k..]);
        assert data[..k] + data[k..] == data;
        WroteTypes(f2, blks, owner.Keys, c[|c| - 1], chain, r.btype);
        OwnedTwice(owner0, chain, addr);
        owner := Owned(owner, chain, addr);
        OwnedKeys(owner0, chain, addr);
        GrownRecs(f0, f1, f2, blks, recs, owner0, owner, chain, addr, data);
        recs := recs[addr := Rec(r.btype, data, c + chain)];
      } else {
        SameRecs(f0, f1, f2, blks, recs, owner0, owner, chain, addr, data[..k]);
        recs := recs[addr := Rec(r.btype, data[..k], c)];
      }
      ValidMake(this);
    }

    /** btins, as far as the data goes: it is stored, and deleted again if the index
        refuses the key.  Then every block has as many free bytes as before. */
    method Insert(data: seq<Byte>, refused: bool) returns (addr: int)
      requires Valid()
      modifies this
      ensures Valid() && AllBlocks(blks, free) == old(AllBlocks(blks, free))
      ensures addr == ZNULL ==> recs == old(recs) && free == []
      ensures var need := old(BlocksFor(SpaceIn(blks, head), |data|, ZDSGMN));
              && (addr != ZNULL <==> need <= |old(free)|) && (addr != ZNULL && !refused ==> |free| == |old(free)| - need)
      ensures |old(free)| > 0 && |data| <= |old(free)| * (ROOM - ZDOVRH) ==> addr != ZNULL
      ensures addr != ZNULL && !refused ==> addr >= 0 && addr !in old(recs) && addr in recs && recs == old(recs)[addr as nat := recs[addr]]
      ensures addr != ZNULL && !refused ==> recs[addr].bytes == data && recs[addr].btype == ZDATA
      ensures addr != ZNULL && !refused ==> forall c :: c in owner && owner[c] == 0 ==> c in old(owner) && old(owner)[c] == 0
      ensures addr != ZNULL && refused ==>
                && recs == old(recs) && owner == old(owner) && blks.Keys == old(blks.Keys)
                && forall b :: b in blks ==> blks[b].misc == old(blks)[b].misc
    {
      assert ZNULL == -1;
      hide *;
      ghost var f0, owner0 := blks, owner;
      ghost var chain;
      ghost var head0, duphead0, free0 := head, duphead, free;
      ValidOpen(this);
      DataHead(head, duphead);
      addr, chain := InsertData(ZDATA, data);
      KeepRecs(f0, recs, owner0, blks, owner, chain, 0);
      if addr != ZNULL {
        if refused {
          ghost var f1, o := blks, owner;
          OwnedKeys(owner0, chain, 0);
          var status := DeleteData(addr, chain, data, ZDATA);
          OwnedBack(owner0, chain);
          SameTrans(f0, f1, blks, owner0.Keys, owner.Keys);
          BlocksBack(f0, head0, duphead0, free0, blks, head, duphead, free, owner.Keys);
          KeepRecs(f0, recs, owner0, blks, owner, [], 0);
        } else {
          NewRec(f0, recs, owner0, blks, chain, addr, data, ZDATA);
          OwnedTwice(owner0, chain, addr);
          OwnedKeys(owner0, chain, 0);
          OwnedKeys(owner0, chain, addr);
          owner := Owned(owner, chain, addr);
          recs := recs[addr as nat := Rec(ZDATA, data, chain)];
        }
      }
      ValidMake(this);
    }

    /** btdel, as far as the data goes. */
    method Delete(addr: nat) returns (status: int)
      requires Valid() && addr in recs
      modifies this
      ensures Valid() && AllBlocks(blks, free) == old(AllBlocks(blks, free))
      ensures old(recs[addr].btype) == ZDATA ==>
                && status == 0 && recs == old(recs) - {addr}
                && forall c :: c in owner ==> c in old(owner) && owner[c] == old(owner)[c] && owner[c] != addr
      ensures old(recs[addr].btype) != ZDATA ==> status == QNOTDA && unchanged(this)
    {
      assert QNOTDA != 0;
      hide *;
      ghost var f0, owner0, r := blks, owner, recs[addr];
      RecordOpen(this, addr);
      status := DeleteData(addr, r.chain, r.bytes, r.btype);
      if status == 0 {
        GoneRec(f0, recs, owner0, blks, owner, addr);
        recs := recs - {addr};
        ValidMake(this);
      }
    }
  }

  // ---------------------------------------------------------------------
  // Storing data
  // ---------------------------------------------------------------------

  /** The root's list has an active block, the only one that may be empty. */
  ghost predicate Ready(f: File, head: int, duphead: int, free: seq<int>, S: set<nat>, btype: int, dblk: int) {
    && FileOK(f, S) && BusyBut(f, S, dblk) && FreeOK(f, free)
    && HeadOK(f, head, ZDATA) && HeadOK(f, duphead, ZDUP)
    && dblk == HeadFor(head, duphead, btype) && dblk != ZNULL && dblk in f
    && (Used(f, S, dblk) == 0 ==> f[dblk].nkeys == 0)
  }

  /** The segments of chain were added, and hold rest from start on. */
  ghost predicate Stored(f0: File, owner0: map<nat, nat>, f: File, owner: map<nat, nat>, chain: seq<nat>,
                         start: nat, rest: seq<Byte>, btype: int) {
    && AllSame(f0, f, owner0.Keys) && owner == Owned(owner0, chain, 0) && Distinct(chain) && Elems(chain) !! owner0.Keys
    && Holds(f, chain, start, 0, rest) && OfType(f, chain, btype)
  }

  lemma StoredOpen(f0: File, owner0: map<nat, nat>, f: File, owner: map<nat, nat>, chain: seq<nat>, start: nat,
                   rest: seq<Byte>, btype: int)
    requires Stored(f0, owner0, f, owner, chain, start, rest, btype)
    ensures AllSame(f0, f, owner0.Keys) && owner == Owned(owner0, chain, 0)
    ensures Distinct(chain) && Elems(chain) !! owner0.Keys
    ensures Holds(f, chain, start, 0, rest) && OfType(f, chain, btype) && owner.Keys == owner0.Keys + Elems(chain)
  {
    OwnedKeys(owner0, chain, 0);
  }

  lemma Pieces<T>(s: seq<T>, i: nat, j: nat)
    requires i <= j <= |s|
    ensures s[i..j] + s[j..] == s[i..] && s[|s|..] == []
  {
  }

  lemma EmptyKeys(d: DatBlk, btype: int)
    requires Empty(d, btype)
    ensures d.nkeys == 0
  {
  }

  lemma StoredKeys(b: DatBlk, bytes: seq<Byte>, prev: nat)
    requires 0 <= b.nkeys && b.nkeys + ZDOVRH + |bytes| <= |b.data|
    ensures InsSeg(b, bytes, prev).nkeys == b.nkeys + ZDOVRH + |bytes|
  {
  }

  /** New blocks that n bytes take. */
  ghost function WholeBlocks(n: nat): nat {
    if n <= ROOM - ZDOVRH then 1 else 1 + WholeBlocks(n - (ROOM - ZDOVRH))
  }

  /** They are the fewest that have room. */
  lemma {:induction false} WholeLeast(n: nat, k: nat)
    ensures WholeBlocks(n) <= k <==> k > 0 && n <= k * (ROOM - ZDOVRH)
    decreases n
  {
    var unit := ROOM - ZDOVRH;
    if k > 0 {
      OneMore(k, unit);
      if n > unit {
        WholeLeast(n - unit, k - 1);
        OneLess(n, k, unit);
      }
    }
  }

  lemma OneMore(k: int, unit: int)
    requires k > 0 && unit > 0
    ensures k * unit >= unit
  {
  }

  lemma OneLess(n: int, k: int, unit: int)
    requires k > 0 && unit > 0 && n > unit
    ensures n <= k * unit <==> k - 1 > 0 && n - unit <= (k - 1) * unit
  {
    assert k * unit == (k - 1) * unit + unit;
    if k > 1 {
      OneMore(k - 1, unit);
    }
  }

  /** New blocks that n bytes take when the active block has so much space left:
      none if they fit; else the space is used if it can hold the smallest piece
      a record is cut into. */
  ghost function BlocksFor(space: int, n: nat, seg: nat): nat {
    if n + ZDOVRH <= space then 0 else WholeBlocks(if space < ZDOVRH + seg then n else n - (space - ZDOVRH))
  }

  /** The space left in the active block of a type. */
  ghost function SpaceIn(f: File, head: int): int {
    if head in f then ROOM - f[head].nkeys else 0
  }

  /** New blocks for the bytes still to be stored. */
  ghost function Needed(f: File, dblk: int, remsize: int, btype: int): nat {
    if remsize < 0 then 0 else BlocksFor(SpaceIn(f, dblk), remsize, MinSeg(btype))
  }

  lemma NeededIs(f: File, dblk: int, remsize: int, btype: int)
    ensures remsize < 0 ==> Needed(f, dblk, remsize, btype) == 0
    ensures remsize >= 0 ==> Needed(f, dblk, remsize, btype) == BlocksFor(SpaceIn(f, dblk), remsize, MinSeg(btype))
    ensures SpaceIn(f, dblk) == if dblk in f then ROOM - f[dblk].nkeys else 0
    ensures remsize >= 0 && dblk in f && f[dblk].nkeys == 0 ==>
              Needed(f, dblk, remsize, btype) == BlocksFor(ROOM, remsize, MinSeg(btype))
  {
    hide BlocksFor;
  }

  lemma NeedNone(space: int, n: nat, seg: nat)
    requires n + ZDOVRH <= space
    ensures BlocksFor(space, n, seg) == 0
  {
  }

  /** A new block when the active one is as good as full. */
  lemma NeedOne(space: int, n: nat, btype: int)
    requires space < ZDOVRH + MinSeg(btype) && space < n + ZDOVRH
    ensures BlocksFor(space, n, MinSeg(btype)) == 1 + BlocksFor(ROOM, n, MinSeg(btype))
  {
    assert ZDOVRH + MinSeg(btype) <= ROOM;
  }

  /** A piece that fills the active block. */
  lemma NeedPiece(space: int, n: nat, btype: int)
    requires ZDOVRH + MinSeg(btype) <= space < n + ZDOVRH
    ensures n - (space - ZDOVRH) > 0
    ensures BlocksFor(space, n, MinSeg(btype)) == BlocksFor(0, n - (space - ZDOVRH), MinSeg(btype))
  {
  }

  lemma NeedMost(space: int, n: nat, btype: int, k: nat)
    requires k > 0 && n <= k * (ROOM - ZDOVRH) && space <= ROOM
    ensures BlocksFor(space, n, MinSeg(btype)) <= k
  {
    WholeLeast(n, k);
    if ZDOVRH + MinSeg(btype) <= space < n + ZDOVRH {
      WholeLeast(n - (space - ZDOVRH), k);
    }
  }

  /** The loop invariant of binsdt: the bytes from remsize on are stored from
      address a on, or (when remsize is -1) all of them.  An entry of a duplicate
      key is not cut. */
  ghost predicate Filling(f0: File, owner0: map<nat, nat>, f: File, owner: map<nat, nat>, head: int, duphead: int,
                          free: seq<int>,
                          btype: int, dblk: int, chain: seq<nat>, a: nat, data: seq<Byte>, remsize: int) {
    if remsize >= 0 then
      && Ready(f, head, duphead, free, owner.Keys, btype, dblk) && a < Power(ZBPW)
      && StoredFrom(f0, owner0, f, owner, chain, a, data, remsize, btype)
      && (btype == ZDUP && |data| == DKEYSZ ==> remsize == |data| && |chain| == 0)
    else
      && Settled(f, head, duphead, free, owner.Keys)
      && Finished(f0, owner0, f, owner, chain, a, data, btype)
      && (btype == ZDUP && |data| == DKEYSZ ==> |chain| == 1)
  }

  lemma FillingStart(f0: File, owner0: map<nat, nat>, f: File, owner: map<nat, nat>, head: int, duphead: int,
                     free: seq<int>,
                     btype: int, dblk: int, data: seq<Byte>)
    requires Ready(f, head, duphead, free, owner.Keys, btype, dblk) && Stored(f0, owner0, f, owner, [], 0, [], btype)
    ensures Filling(f0, owner0, f, owner, head, duphead, free, btype, dblk, [], 0, data, |data|)
  {
    hide Ready, Stored, StoredFrom;
    FromNone(f0, owner0, f, owner, data, btype);
  }

  lemma FillingOpen(f0: File, owner0: map<nat, nat>, f: File, owner: map<nat, nat>, head: int, duphead: int,
                    free: seq<int>,
                    btype: int, dblk: int, chain: seq<nat>, a: nat, data: seq<Byte>, remsize: nat)
    requires Filling(f0, owner0, f, owner, head, duphead, free, btype, dblk, chain, a, data, remsize)
    requires (btype == ZDATA || btype == ZDUP)
    ensures Ready(f, head, duphead, free, owner.Keys, btype, dblk) && a < Power(ZBPW)
    ensures StoredFrom(f0, owner0, f, owner, chain, a, data, remsize, btype)
    ensures btype == ZDUP && |data| == DKEYSZ ==> remsize == |data| && |chain| == 0
    ensures dblk in f && dblk > 0 && 0 <= f[dblk].nkeys <= ROOM
    ensures MinSeg(btype) > 0 && (btype == ZDUP ==> MinSeg(btype) == DKEYSZ)
  {
    hide Ready, StoredFrom;
    ReadyFacts(f, head, duphead, free, owner.Keys, btype, dblk);
  }

  lemma FillingMake(f0: File, owner0: map<nat, nat>, f: File, owner: map<nat, nat>, head: int, duphead: int,
                    free: seq<int>,
                    btype: int, dblk: int, chain: seq<nat>, a: nat, data: seq<Byte>, r: nat, remsize: nat)
    requires Ready(f, head, duphead, free, owner.Keys, btype, dblk) && a < Power(ZBPW)
    requires StoredFrom(f0, owner0, f, owner, chain, a, data, r, btype)
    requires btype == ZDUP && |data| == DKEYSZ ==> r == remsize == |data| && |chain| == 0
    ensures Filling(f0, owner0, f, owner, head, duphead, free, btype, dblk, chain, a, data, r)
  {
    hide Ready, StoredFrom;
  }

  lemma FillingEnd(f0: File, owner0: map<nat, nat>, f: File, owner: map<nat, nat>, head: int, duphead: int,
                   free: seq<int>,
                   btype: int, dblk: int, chain: seq<nat>, a: nat, data: seq<Byte>, remsize: nat)
    requires Settled(f, head, duphead, free, owner.Keys)
    requires StoredFrom(f0, owner0, f, owner, chain, a, data, 0, btype) && 0 < a < Power(ZBPW) && |chain| > 0
    requires btype == ZDUP && |data| == DKEYSZ ==> |chain| == 1
    ensures Filling(f0, owner0, f, owner, head, duphead, free, btype, dblk, chain, a, data, -1)
  {
    hide Settled, StoredFrom, Finished;
    Finish(f0, owner0, f, owner, chain, a, data, btype);
  }

  lemma FillingDone(f0: File, owner0: map<nat, nat>, f: File, owner: map<nat, nat>, head: int, duphead: int,
                    free: seq<int>,
                    btype: int, dblk: int, chain: seq<nat>, a: nat, data: seq<Byte>)
    requires Filling(f0, owner0, f, owner, head, duphead, free, btype, dblk, chain, a, data, -1)
    ensures Settled(f, head, duphead, free, owner.Keys)
    ensures Finished(f0, owner0, f, owner, chain, a, data, btype) && a > 0
    ensures btype == ZDUP && |data| == DKEYSZ ==> |chain| == 1
  {
    hide Settled, Stored;
  }

  /** The bytes of data from lo on are stored. */
  ghost predicate StoredFrom(f0: File, owner0: map<nat, nat>, f: File, owner: map<nat, nat>, chain: seq<nat>,
                             start: nat, data: seq<Byte>, lo: nat, btype: int) {
    lo <= |data| && Stored(f0, owner0, f, owner, chain, start, data[lo..], btype)
  }

  lemma FromOpen(f0: File, owner0: map<nat, nat>, f: File, owner: map<nat, nat>, chain: seq<nat>, start: nat,
                 data: seq<Byte>, lo: nat, btype: int)
    requires StoredFrom(f0, owner0, f, owner, chain, start, data, lo, btype)
    ensures lo <= |data| && Stored(f0, owner0, f, owner, chain, start, data[lo..], btype)
  {
    hide Stored;
  }

  lemma FromMake(f0: File, owner0: map<nat, nat>, f: File, owner: map<nat, nat>, chain: seq<nat>, start: nat,
                 data: seq<Byte>, lo: nat, btype: int)
    requires lo <= |data| && Stored(f0, owner0, f, owner, chain, start, data[lo..], btype)
    ensures StoredFrom(f0, owner0, f, owner, chain, start, data, lo, btype)
  {
    hide Stored;
  }

  lemma FromNone(f0: File, owner0: map<nat, nat>, f: File, owner: map<nat, nat>, data: seq<Byte>, btype: int)
    requires Stored(f0, owner0, f, owner, [], 0, [], btype)
    ensures StoredFrom(f0, owner0, f, owner, [], 0, data, |data|, btype) && 0 < Power(ZBPW)
  {
    hide Stored;
    assert data[|data|..] == [];
  }

  lemma FromFrame(f0: File, owner0: map<nat, nat>, f: File, f': File, owner: map<nat, nat>, chain: seq<nat>,
                  start: nat, data: seq<Byte>, lo: nat, btype: int)
    requires StoredFrom(f0, owner0, f, owner, chain, start, data, lo, btype) && AllSame(f, f', owner.Keys)
    ensures StoredFrom(f0, owner0, f', owner, chain, start, data, lo, btype)
  {
    hide Stored, AllSame;
    StoredFrame(f0, owner0, f, f', owner, chain, start, data[lo..], btype);
  }

  /** All of data is stored. */
  ghost predicate Finished(f0: File, owner0: map<nat, nat>, f: File, owner: map<nat, nat>, chain: seq<nat>,
                           addr: int, data: seq<Byte>, btype: int) {
    0 < addr < Power(ZBPW) && |chain| > 0 && Stored(f0, owner0, f, owner, chain, addr, data, btype)
  }

  /** Some of it is. */
  ghost predicate Partly(f0: File, owner0: map<nat, nat>, f: File, owner: map<nat, nat>, chain: seq<nat>, btype: int) {
    exists start: nat, rest: seq<Byte> :: Stored(f0, owner0, f, owner, chain, start, rest, btype)
  }

  lemma Finish(f0: File, owner0: map<nat, nat>, f: File, owner: map<nat, nat>, chain: seq<nat>, addr: nat,
               data: seq<Byte>, btype: int)
    requires StoredFrom(f0, owner0, f, owner, chain, addr, data, 0, btype) && 0 < addr < Power(ZBPW) && |chain| > 0
    ensures Finished(f0, owner0, f, owner, chain, addr, data, btype)
  {
    hide Stored;
    assert data[0..] == data;
  }

  lemma GiveUp(f0: File, owner0: map<nat, nat>, f: File, owner: map<nat, nat>, chain: seq<nat>, start: nat,
               data: seq<Byte>, lo: nat, btype: int)
    requires StoredFrom(f0, owner0, f, owner, chain, start, data, lo, btype)
    ensures Partly(f0, owner0, f, owner, chain, btype)
  {
    hide Stored;
  }

  lemma FinishedOpen(f0: File, owner0: map<nat, nat>, f: File, owner: map<nat, nat>, chain: seq<nat>, addr: int,
                     data: seq<Byte>, btype: int)
    requires Finished(f0, owner0, f, owner, chain, addr, data, btype)
    ensures 0 < addr < Power(ZBPW) && |chain| > 0 && Holds(f, chain, addr, 0, data) && OfType(f, chain, btype)
    ensures AllSame(f0, f, owner0.Keys) && owner == Owned(owner0, chain, 0)
    ensures Distinct(chain) && Elems(chain) !! owner0.Keys
  {
    hide AllSame, Holds;
  }

  lemma PartlyOpen(f0: File, owner0: map<nat, nat>, f: File, owner: map<nat, nat>, chain: seq<nat>, btype: int)
    requires Partly(f0, owner0, f, owner, chain, btype)
    ensures AllSame(f0, f, owner0.Keys) && owner == Owned(owner0, chain, 0)
    ensures Distinct(chain) && Elems(chain) !! owner0.Keys
  {
    hide AllSame, Holds;
  }

  /** Without an active block the first one comes from the free blocks as well. */
  lemma NeededFirst(r: Records, btype: int, n: nat, k: nat)
    requires Settled(r.blks, r.head, r.duphead, r.free, r.owner.Keys) && (btype == ZDATA || btype == ZDUP)
    ensures var active := HeadFor(r.head, r.duphead, btype);
            && (active != ZNULL ==> Needed(r.blks, active, n, btype) == BlocksFor(SpaceIn(r.blks, active), n, MinSeg(btype)))
            && (active == ZNULL ==>
                  BlocksFor(SpaceIn(r.blks, active), n, MinSeg(btype)) == 1 + BlocksFor(ROOM, n, MinSeg(btype)))
            && SpaceIn(r.blks, active) <= ROOM
            && (k > 0 && n <= k * (ROOM - ZDOVRH) ==> BlocksFor(SpaceIn(r.blks, active), n, MinSeg(btype)) <= k)
  {
    var active := HeadFor(r.head, r.duphead, btype);
    SpaceBound(r, btype);
    if active == ZNULL {
      NeedOne(0, n, btype);
    }
    if k > 0 && n <= k * (ROOM - ZDOVRH) {
      NeedMost(SpaceIn(r.blks, active), n, btype, k);
    }
  }

  lemma SpaceBound(r: Records, btype: int)
    requires Settled(r.blks, r.head, r.duphead, r.free, r.owner.Keys) && (btype == ZDATA || btype == ZDUP)
    ensures var active := HeadFor(r.head, r.duphead, btype);
            SpaceIn(r.blks, active) <= ROOM && (active == ZNULL ==> SpaceIn(r.blks, active) == 0)
  {
  }

  lemma SameSpace(f: File, f': File, S: set<nat>, c: seq<nat>, head: int)
    requires WroteAll(f, f', S, c)
    ensures SpaceIn(f', head) == SpaceIn(f, head)
  {
    hide AllSame;
    assert head in f'.Keys <==> head in f.Keys;
  }

  lemma DataHead(head: int, duphead: int)
    ensures HeadFor(head, duphead, ZDATA) == head && MinSeg(ZDATA) == ZDSGMN
  {
  }

  lemma HeadForIs(head: int, duphead: int, btype: int)
    ensures HeadFor(head, duphead, btype) == if btype == ZDATA then head else duphead
  {
  }

  lemma SettledOpen(f: File, head: int, duphead: int, free: seq<int>, S: set<nat>, btype: int)
    requires Settled(f, head, duphead, free, S) && (btype == ZDATA || btype == ZDUP)
    ensures FileOK(f, S) && FreeOK(f, free)
    ensures var dblk := HeadFor(head, duphead, btype); dblk != ZNULL ==> Ready(f, head, duphead, free, S, btype, dblk)
  {
    hide Used, SegsOK, Counted, ListOK, BlockOK;
    BusyAny(f, S, HeadFor(head, duphead, btype));
  }

  lemma BusyAny(f: File, S: set<nat>, b: int)
    requires BlocksOK(f) && BusyBut(f, S, ZNULL)
    ensures BusyBut(f, S, b) && (b in f ==> Used(f, S, b) > 0)
  {
    hide Used, BlockOK, Addressable;
    NoNull(f);
  }

  lemma FrameNone(f: File, S: set<nat>)
    requires FileOK(f, S)
    ensures AllSame(f, f, S)
  {
    hide SegIn, Size, Next, Payload, BlocksOK, Counted, ListOK;
    forall c | c in S
      ensures SegSame(f, f, c)
    {
      assert SegIn(f, c);
      SegFacts(f, c);
    }
  }

  lemma StoredNone(f0: File, owner0: map<nat, nat>, btype: int)
    requires FileOK(f0, owner0.Keys)
    ensures Stored(f0, owner0, f0, owner0, [], 0, [], btype)
  {
    hide FileOK, AllSame;
    FrameNone(f0, owner0.Keys);
    assert Owned(owner0, [], 0) == owner0;
  }

  lemma StoredFrame(f0: File, owner0: map<nat, nat>, f: File, f': File, owner: map<nat, nat>, chain: seq<nat>,
                    start: nat, rest: seq<Byte>, btype: int)
    requires Stored(f0, owner0, f, owner, chain, start, rest, btype) && AllSame(f, f', owner.Keys)
    ensures Stored(f0, owner0, f', owner, chain, start, rest, btype)
  {
    hide SegIn, Size, Next, Payload, SegSame, Holds, Distinct;
    OwnedKeys(owner0, chain, 0);
    SameTrans(f0, f, f', owner0.Keys, owner.Keys);
    forall c | c in chain
      ensures SegSame(f, f', c) && BlkOf(c) in f' && f'[BlkOf(c)].btype == btype
    {
      assert c in Elems(chain);
      SegSameFacts(f, f', c);
    }
    HoldsFrame(f, f', chain, start, 0, rest);
  }

  /** One more segment in front. */
  lemma StoreStep(f0: File, owner0: map<nat, nat>, f: File, owner: map<nat, nat>, chain: seq<nat>, start: nat,
                  rest: seq<Byte>,
                  btype: int, blk: nat, bytes: seq<Byte>)
    requires Stored(f0, owner0, f, owner, chain, start, rest, btype) && FileOK(f, owner.Keys)
    requires blk in f && f[blk].btype == btype && f[blk].nkeys + ZDOVRH + |bytes| <= ROOM && start < Power(ZBPW)
    ensures BlkOK(f[blk])
    ensures var f', a := f[blk := InsSeg(f[blk], bytes, start)], Address(blk, f[blk].nkeys);
            && Stored(f0, owner0, f', owner[a := 0], [a] + chain, a, bytes + rest, btype) && 0 < a < Power(ZBPW)
  {
    hide SegIn, Size, Next, Payload, SegSame, Holds, FileOK, InsSeg, AllSame, Apart, Address, BlkOf, Power;
    Inserted(f, owner.Keys, blk, bytes, start);
    InsSegInfo(f[blk], bytes, start);
    var f', a := f[blk := InsSeg(f[blk], bytes, start)], Address(blk, f[blk].nkeys);
    StoredFrame(f0, owner0, f, f', owner, chain, start, rest, btype);
    HoldsMore(f', chain, a, 0, rest, bytes);
    OwnedKeys(owner0, chain, 0);
    OwnedMore(owner0, chain, a);
    assert a !in Elems(chain) && Elems([a] + chain) == {a} + Elems(chain);
  }

  lemma OwnedMore(owner0: map<nat, nat>, chain: seq<nat>, a: nat)
    ensures Owned(owner0, [a] + chain, 0) == Owned(owner0, chain, 0)[a := 0]
  {
  }

  lemma StoreReady(f: File, head: int, duphead: int, free: seq<int>, owner: map<nat, nat>, btype: int, dblk: nat,
                   bytes: seq<Byte>, prev: nat)
    requires Ready(f, head, duphead, free, owner.Keys, btype, dblk) && prev < Power(ZBPW)
    requires f[dblk].nkeys + ZDOVRH + |bytes| <= ROOM
    ensures BlkOK(f[dblk])
    ensures var f', a := f[dblk := InsSeg(f[dblk], bytes, prev)], Address(dblk, f[dblk].nkeys);
            && Ready(f', head, duphead, free, owner[a := 0].Keys, btype, dblk) && Settled(f', head, duphead, free, owner[a := 0].Keys)
            && AllBlocks(f', free) == AllBlocks(f, free)
  {
    hide FileOK, InsSeg, Used, Address, Power, Addressable;
    InsertedOK(f, owner.Keys, dblk, bytes, prev);
    InsSegInfo(f[dblk], bytes, prev);
    var f', a := f[dblk := InsSeg(f[dblk], bytes, prev)], Address(dblk, f[dblk].nkeys);
    assert owner[a := 0].Keys == owner.Keys + {a};
    assert f'.Keys == f.Keys;
    FileBlocks(f', owner.Keys + {a});
    BusyAny(f', owner.Keys + {a}, dblk);
  }

  /** Both together: what insdat does for binsdt. */
  lemma StoreFits(f0: File, owner0: map<nat, nat>, f: File, owner: map<nat, nat>, head: int, duphead: int,
                  free: seq<int>,
                  chain: seq<nat>, start: nat, rest: seq<Byte>, btype: int, dblk: nat, bytes: seq<Byte>)
    requires Stored(f0, owner0, f, owner, chain, start, rest, btype)
    requires Ready(f, head, duphead, free, owner.Keys, btype, dblk)
    requires f[dblk].nkeys + ZDOVRH + |bytes| <= ROOM && start < Power(ZBPW) && (btype == ZDATA || btype == ZDUP)
    ensures BlkOK(f[dblk])
    ensures var f', a := f[dblk := InsSeg(f[dblk], bytes, start)], Address(dblk, f[dblk].nkeys);
            && Ready(f', head, duphead, free, owner[a := 0].Keys, btype, dblk) && Settled(f', head, duphead, free, owner[a := 0].Keys)
            && AllBlocks(f', free) == AllBlocks(f, free)
            && Stored(f0, owner0, f', owner[a := 0], [a] + chain, a, bytes + rest, btype) && 0 < a < Power(ZBPW)
  {
    hide FileOK, AllBlocks, InsSeg, Stored, Power, Used, Settled, Address;
    ReadyFacts(f, head, duphead, free, owner.Keys, btype, dblk);
    StoreStep(f0, owner0, f, owner, chain, start, rest, btype, dblk, bytes);
    StoreReady(f, head, duphead, free, owner, btype, dblk, bytes, start);
  }

  lemma FileBlocks(f: File, S: set<nat>)
    requires FileOK(f, S)
    ensures BlocksOK(f) && SegsOK(f, S)
  {
  }

  lemma ReadyFacts(f: File, head: int, duphead: int, free: seq<int>, S: set<nat>, btype: int, dblk: int)
    requires Ready(f, head, duphead, free, S, btype, dblk) && (btype == ZDATA || btype == ZDUP)
    ensures dblk in f && dblk > 0 && 0 <= f[dblk].nkeys <= ROOM
    ensures |f[dblk].data| == ROOM && f[dblk].nxdup == MinSeg(btype)
    ensures f[dblk].btype == btype && f[dblk].nblks == ZNULL && FileOK(f, S) && FreeOK(f, free)
    ensures MinSeg(btype) > 0 && (btype == ZDUP ==> MinSeg(btype) == DKEYSZ)
  {
    hide SegsOK, Counted, ListOK, Used;
    assert BlockOK(dblk, f[dblk]);
  }

  lemma ReadySettled(f: File, head: int, duphead: int, free: seq<int>, S: set<nat>, btype: int, dblk: int)
    requires Ready(f, head, duphead, free, S, btype, dblk) && ROOM - f[dblk].nkeys < ZDOVRH + MinSeg(btype)
    ensures Settled(f, head, duphead, free, S)
  {
    hide FileOK, Used;
  }

  /** The first block of a list. */
  lemma ReadyFirst(f: File, free: seq<int>, head: int, duphead: int, S: set<nat>, btype: int, dblk: int, d: DatBlk)
    requires Settled(f, head, duphead, free, S) && (btype == ZDATA || btype == ZDUP)
    requires HeadFor(head, duphead, btype) == ZNULL
    requires |free| > 0 && dblk == free[0] && dblk !in f && Addressable(dblk) && Empty(d, btype)
    ensures var f' := f[dblk := d];
            && Ready(f', if btype == ZDATA then dblk else head, if btype == ZDATA then duphead else dblk, free[1..], S, btype, dblk)
            && AllSame(f, f', S)
  {
    hide FileOK, Used, AllSame;
    FirstBlock(f, S, dblk, d);
    NotNull(dblk);
    TakeFirst(f, free, d);
  }

  /** Another block in front of the list. */
  lemma ReadyNext(f: File, head: int, duphead: int, free: seq<int>, S: set<nat>, btype: int, dblk: int, nblk: int,
                  d: DatBlk)
    requires Ready(f, head, duphead, free, S, btype, dblk) && (btype == ZDATA || btype == ZDUP)
    requires ROOM - f[dblk].nkeys < ZDOVRH + MinSeg(btype)
    requires |free| > 0 && nblk == free[0] && nblk !in f && Addressable(nblk) && Empty(d, btype)
    ensures var f' := f[nblk := d.(nxblk := dblk)][dblk := f[dblk].(nblks := nblk)];
            && Ready(f', if btype == ZDATA then nblk else head, if btype == ZDATA then duphead else nblk, free[1..], S, btype, nblk)
            && AllSame(f, f', S) && AllBlocks(f', free[1..]) == AllBlocks(f[nblk := d], free[1..])
  {
    hide FileOK, Used, AllSame, ROOM, DKEYSZ;
    ReadySettled(f, head, duphead, free, S, btype, dblk);
    ReadyFacts(f, head, duphead, free, S, btype, dblk);
    NextBlock(f, S, nblk, d, dblk);
    NotNull(nblk);
    TakeFirst(f, free, d);
    var f' := f[nblk := d.(nxblk := dblk)][dblk := f[dblk].(nblks := nblk)];
    assert f'.Keys == f[nblk := d].Keys;
  }

  lemma NotNull(blk: int)
    requires Addressable(blk)
    ensures blk != ZNULL && blk > 0
  {
  }

  lemma SomeBytes(n: nat)
    ensures exists d: seq<Byte> :: |d| == n
  {
    var d: seq<Byte> := Bytes(0, n);
    assert |d| == n;
  }

  lemma TakeFirst(f: File, free: seq<int>, d: DatBlk)
    requires FreeOK(f, free) && |free| > 0
    ensures Elems(free) == {free[0]} + Elems(free[1..])
    ensures FreeOK(f[free[0] := d], free[1..])
  {
    hide Addressable;
    assert free == [free[0]] + free[1..];
  }

  // ---------------------------------------------------------------------
  // Deleting a segment
  // ---------------------------------------------------------------------

  lemma SegmentOpen(f: File, head: int, duphead: int, free: seq<int>, S: set<nat>, blk: nat, offset: nat)
    requires Settled(f, head, duphead, free, S) && Address(blk, offset) in S && offset < ZBLKSZ
    ensures var a := Address(blk, offset);
            && SegIn(f, a) && BlkOf(a) == blk && OffOf(a) == offset && blk in f && LinkOK(f, blk)
            && offset + ZDOVRH <= |f[blk].data| && Size(f, a) == Value(f[blk].data[offset..offset + ZDRSZ]) && ZDRSZ <= ZDOVRH
  {
    hide Value, Used, Address, BlkOf, OffOf, Addressable;
    AddressParts(blk, offset);
    var a := Address(blk, offset);
    assert SegIn(f, a);
    SegFacts(f, a);
  }

  /** After the count was raised: all in order, or the block is empty. */
  lemma ReleasedSettled(f: File, head: int, duphead: int, free: seq<int>, S: set<nat>, blk: nat, offset: nat)
    requires Settled(f, head, duphead, free, S) && Address(blk, offset) in S && offset < ZBLKSZ
    ensures var a := Address(blk, offset);
            SegIn(f, a) && blk in f
            && var f' := f[blk := f[blk].(misc := f[blk].misc + (Size(f, a) + ZDOVRH))];
            && AllSame(f, f', S - {a}) && f'.Keys == f.Keys && AllBlocks(f', free) == AllBlocks(f, free)
            && (f'[blk].misc == ROOM ==> Vacant(f', head, duphead, free, S - {a}, blk))
            && (f'[blk].misc != ROOM ==> Settled(f', head, duphead, free, S - {a}) && exists c :: c in S - {a} && BlkOf(c) == blk)
  {
    hide FileOK, Used, Address, BlkOf, OffOf, SegIn, Size, AllSame;
    SegmentOpen(f, head, duphead, free, S, blk, offset);
    var a := Address(blk, offset);
    var f' := f[blk := f[blk].(misc := f[blk].misc + (Size(f, a) + ZDOVRH))];
    Released(f, S, a);
    FileBlocks(f', S - {a});
    SegsIn(f', S - {a});
    UsedNone(f', S - {a}, blk);
    assert f'.Keys == f.Keys;
  }

  lemma SegsIn(f: File, S: set<nat>)
    requires SegsOK(f, S)
    ensures forall c :: c in S ==> SegIn(f, c)
  {
  }

  /** Settled but for block blk, which has no segments. */
  ghost predicate Vacant(f: File, head: int, duphead: int, free: seq<int>, S: set<nat>, blk: int) {
    && FileOK(f, S) && BusyBut(f, S, blk) && FreeOK(f, free)
    && HeadOK(f, head, ZDATA) && HeadOK(f, duphead, ZDUP)
    && blk in f && Used(f, S, blk) == 0
  }

  lemma UnlinkedIs(f: File, blk: int)
    requires blk in f && LinkOK(f, blk)
    ensures var p, n := f[blk].nblks, f[blk].nxblk;
            (n != ZNULL ==> n in f) && (p != ZNULL ==> p in f)
            && var f1 := if n != ZNULL then f[n := f[n].(nblks := p)] else f;
            Unlinked(f, blk) == (if p != ZNULL then f1[p := f1[p].(nxblk := n)] else f1) - {blk}
  {
  }

  lemma FreedSettled(f: File, head: int, duphead: int, free: seq<int>, S: set<nat>, blk: int)
    requires Vacant(f, head, duphead, free, S, blk)
    ensures var f1 := f[blk := f[blk].(nkeys := 0)];
            && LinkOK(f1, blk) && (f1[blk].nxblk != ZNULL ==> f1[blk].nxblk in f1) && (f1[blk].nblks != ZNULL ==> f1[blk].nblks in f1)
            && var f' := Unlinked(f1, blk);
            && Settled(f', if blk == head then ZNULL else head,
                       if f[blk].btype == ZDUP && duphead == blk then ZNULL else duphead, [blk] + free, S)
            && AllSame(f, f', S) && f'.Keys == f.Keys - {blk} && AllBlocks(f', [blk] + free) == AllBlocks(f, free)
            && forall c :: c in S ==> BlkOf(c) != blk
  {
    hide Used, SegsOK, Counted, AllSame, Unlinked, SegIn, SegSame, BlkOf;
    Emptied(f, S, blk);
    var f1 := f[blk := f[blk].(nkeys := 0)];
    assert LinkOK(f1, blk);
    Freed(f1, S, blk);
    var f' := Unlinked(f1, blk);
    SameTrans(f, f1, f', S, S);
    assert BlockOK(blk, f[blk]);
    NoNull(f1);
    HeadStays(f1, head, ZDATA, blk);
    HeadStays(f1, duphead, ZDUP, blk);
    FreeMore(f, f', free, blk);
    SegsIn(f, S);
    UsedNone(f, S, blk);
    assert f'.Keys == f.Keys - {blk};
  }

  lemma HeadStays(f: File, head: int, btype: int, blk: int)
    requires ListOK(f) && HeadOK(f, head, btype) && blk in f && LinkOK(f, blk) && ZNULL !in f
    ensures head != blk ==> HeadOK(Unlinked(f, blk), head, btype)
  {
    hide Unlinked;
    UnlinkedAt(f, blk, head);
  }

  lemma FreeMore(f: File, f': File, free: seq<int>, blk: int)
    requires FreeOK(f, free) && blk in f && f'.Keys == f.Keys - {blk} && Addressable(blk)
    ensures FreeOK(f', [blk] + free) && AllBlocks(f', [blk] + free) == AllBlocks(f, free)
  {
    hide Addressable;
    assert Elems([blk] + free) == {blk} + Elems(free);
  }

  // ---------------------------------------------------------------------
  // Deleting a chain
  // ---------------------------------------------------------------------

  /** The first i segments of chain are gone, the others hold rest. */
  ghost predicate Deleting(f0: File, f: File, owner0: map<nat, nat>, owner: map<nat, nat>, chain: seq<nat>, i: nat,
                           draddr: nat, rest: seq<Byte>) {
    && i <= |chain| && Distinct(chain) && Elems(chain) <= owner0.Keys && owner == owner0 - Elems(chain[..i])
    && AllSame(f0, f, owner.Keys) && Holds(f, chain[i..], draddr, 0, rest)
  }

  lemma DeletingStart(f: File, head: int, duphead: int, free: seq<int>, owner: map<nat, nat>, chain: seq<nat>,
                      addr: nat, bytes: seq<Byte>)
    requires Settled(f, head, duphead, free, owner.Keys) && Holds(f, chain, addr, 0, bytes)
    requires Distinct(chain) && Elems(chain) <= owner.Keys
    ensures Deleting(f, f, owner, owner, chain, 0, addr, bytes)
  {
    hide FileOK, AllSame, Holds;
    FrameNone(f, owner.Keys);
    assert chain[0..] == chain && Elems(chain[..0]) == {};
    assert owner - {} == owner;
  }

  lemma DeletingNone(f0: File, f: File, owner0: map<nat, nat>, owner: map<nat, nat>, chain: seq<nat>, i: nat,
                     draddr: nat, rest: seq<Byte>)
    requires Deleting(f0, f, owner0, owner, chain, i, draddr, rest)
    ensures AllSame(f0, f, owner.Keys)
  {
  }

  lemma DeletingOpen(f0: File, f: File, owner0: map<nat, nat>, owner: map<nat, nat>, chain: seq<nat>, i: nat,
                     draddr: nat, rest: seq<Byte>, btype: int)
    requires Deleting(f0, f, owner0, owner, chain, i, draddr, rest) && draddr != 0 && OfType(f0, chain, btype)
    ensures i < |chain| && draddr == chain[i] && draddr in owner && SegIn(f, draddr) && Size(f, draddr) <= |rest|
    ensures BlkOf(draddr) in f && f[BlkOf(draddr)].btype == btype
    ensures OffOf(draddr) + ZDOVRH <= |f[BlkOf(draddr)].data| && ZDRSZ <= ZDOVRH
    ensures Next(f, draddr) == Value(f[BlkOf(draddr)].data[OffOf(draddr) + ZDRSZ..OffOf(draddr) + ZDOVRH])
  {
    hide SegSame, BlkOf, OffOf, Value, Size;
    HoldsFirst(f, chain[i..], draddr, 0, rest);
    SegFacts(f, draddr);
    assert draddr in Elems(chain) && draddr !in Elems(chain[..i]);
    assert SegSame(f0, f, draddr);
    SegSameFacts(f0, f, draddr);
  }

  lemma DeletingStep(f0: File, f: File, f': File, owner0: map<nat, nat>, owner: map<nat, nat>,
                     owner': map<nat, nat>, chain: seq<nat>, i: nat, draddr: nat, rest: seq<Byte>)
    requires Deleting(f0, f, owner0, owner, chain, i, draddr, rest) && i < |chain|
    requires owner' == owner - {draddr} && AllSame(f, f', owner'.Keys)
    ensures SegIn(f, draddr) && Size(f, draddr) <= |rest|
    ensures Deleting(f0, f', owner0, owner', chain, i + 1, Next(f, draddr), rest[Size(f, draddr)..])
  {
    hide SegIn, Size, Next, Payload, SegSame, BlkOf, OffOf;
    HoldsFirst(f, chain[i..], draddr, 0, rest);
    assert chain[i..][1..] == chain[i + 1..];
    assert Elems(chain[..i + 1]) == Elems(chain[..i]) + {draddr};
    assert owner' == owner0 - Elems(chain[..i + 1]);
    SameTrans(f0, f, f', owner'.Keys, owner'.Keys);
    forall c | c in chain[i + 1..]
      ensures SegSame(f, f', c)
    {
      assert c in Elems(chain) && c !in Elems(chain[..i + 1]);
    }
    HoldsFrame(f, f', chain[i + 1..], Next(f, draddr), 0, rest[Size(f, draddr)..]);
  }

  lemma DeletingDone(f0: File, f: File, owner0: map<nat, nat>, owner: map<nat, nat>, chain: seq<nat>, i: nat,
                     rest: seq<Byte>)
    requires Deleting(f0, f, owner0, owner, chain, i, 0, rest)
    ensures owner == owner0 - Elems(chain) && AllSame(f0, f, owner.Keys)
  {
    hide SegSame;
    ZeroEnds(f, chain[i..], 0, rest);
    assert chain[..i] == chain;
  }

  /** Address 0 is no segment. */
  lemma ZeroEnds(f: File, chain: seq<nat>, z: nat, rec: seq<Byte>)
    requires Holds(f, chain, 0, z, rec)
    ensures chain == [] && rec == []
  {
  }

  // ---------------------------------------------------------------------
  // Reading
  // ---------------------------------------------------------------------

  lemma RecordOpen(r: Records, addr: nat)
    requires r.Valid() && addr in r.recs
    ensures Settled(r.blks, r.head, r.duphead, r.free, r.owner.Keys) && RecsOK(r.blks, r.recs, r.owner)
    ensures RecOK(r.blks, addr, r.recs[addr], r.owner)
    ensures addr > 0 && |r.recs[addr].chain| > 0 && Holds(r.blks, r.recs[addr].chain, addr, 0, r.recs[addr].bytes)
    ensures OfType(r.blks, r.recs[addr].chain, r.recs[addr].btype) && Distinct(r.recs[addr].chain)
    ensures Elems(r.recs[addr].chain) <= r.owner.Keys
  {
    hide Settled, Holds;
  }

  /** The first segment of a chain, as bytes. */
  lemma ChainOpen(f: File, chain: seq<nat>, a: nat, rest: seq<Byte>)
    requires Holds(f, chain, a, 0, rest) && a != 0
    ensures |chain| > 0 && a == chain[0] && BlkOf(a) in f
    ensures var d, o := f[BlkOf(a)].data, OffOf(a);
            && ZDRSZ <= ZDOVRH && o + ZDOVRH <= |d|
            && var n := Value(d[o..o + ZDRSZ]);
            && o + ZDOVRH + n <= |d| && n <= |rest| && d[o + ZDOVRH..o + ZDOVRH + n] == rest[..n]
            && Holds(f, chain[1..], Value(d[o + ZDRSZ..o + ZDOVRH]), 0, rest[n..])
  {
    hide Value, BlkOf, OffOf;
    HoldsFirst(f, chain, a, 0, rest);
    SegFacts(f, a);
  }

  lemma ReadStep(rec: seq<Byte>, data: seq<Byte>, rest: seq<Byte>, n: nat, sprem: nat)
    requires data + rest == rec && n <= |rest|
    ensures data + rest[..n] + rest[n..] == rec
    ensures sprem <= n ==> data + rest[..sprem] == rec[..|data| + sprem]
  {
  }

  lemma ReadPart(d: seq<Byte>, o: nat, n: nat, k: nat, rest: seq<Byte>)
    requires o + ZDOVRH + n <= |d| && k <= n <= |rest| && d[o + ZDOVRH..o + ZDOVRH + n] == rest[..n]
    ensures d[o + ZDOVRH..o + ZDOVRH + k] == rest[..k]
  {
    assert d[o + ZDOVRH..o + ZDOVRH + k] == d[o + ZDOVRH..o + ZDOVRH + n][..k];
    assert rest[..k] == rest[..n][..k];
  }

  // ---------------------------------------------------------------------
  // Writing over a record
  // ---------------------------------------------------------------------

  /** Nothing but segment a changed. */
  ghost predicate Wrote(f: File, f': File, S: set<nat>, a: nat) {
    && AllSame(f, f', S - {a}) && f'.Keys == f.Keys
    && forall b :: b in f ==> f'[b].btype == f[b].btype && f'[b].nkeys == f[b].nkeys
  }

  lemma WroteTrans(f: File, f': File, f'': File, S: set<nat>, a: nat)
    requires Wrote(f, f', S, a) && Wrote(f', f'', S, a)
    ensures Wrote(f, f'', S, a)
  {
    hide AllSame;
    SameTrans(f, f', f'', S - {a}, S - {a});
  }

  lemma SettledFile(f: File, head: int, duphead: int, free: seq<int>, S: set<nat>)
    requires Settled(f, head, duphead, free, S)
    ensures FileOK(f, S)
  {
  }

  lemma SegmentHere(f: File, a: nat)
    requires SegIn(f, a)
    ensures BlkOf(a) in f && OffOf(a) + ZDOVRH + Size(f, a) <= |f[BlkOf(a)].data| && ZDRSZ <= ZDOVRH
    ensures Size(f, a) == Value(f[BlkOf(a)].data[OffOf(a)..OffOf(a) + ZDRSZ])
    ensures Next(f, a) == Value(f[BlkOf(a)].data[OffOf(a) + ZDRSZ..OffOf(a) + ZDOVRH])
  {
    hide Value, BlkOf, OffOf;
  }

  lemma ShrunkSettled(f: File, f': File, head: int, duphead: int, free: seq<int>, S: set<nat>, a: nat)
    requires Settled(f, head, duphead, free, S) && Shrunk(f, f', S, a)
    ensures Settled(f', head, duphead, free, S) && Wrote(f, f', S, a) && AllBlocks(f', free) == AllBlocks(f, free)
    ensures SegIn(f', a) && BlkOf(a) in f' && BlkOf(a) in f && |f'[BlkOf(a)].data| == |f[BlkOf(a)].data|
  {
    hide FileOK, Used, Size, Next, Payload, BlkOf, OffOf, AllSame;
    ShrunkOK(f, f', S, a);
    SegFacts(f, a);
    SegFacts(f', a);
  }

  /** Nothing but the segments of c changed, and their blocks kept their type. */
  ghost predicate WroteAll(f: File, f': File, S: set<nat>, c: seq<nat>) {
    && AllSame(f, f', S - Elems(c)) && f'.Keys == f.Keys
    && forall b :: b in f ==> f'[b].btype == f[b].btype && f'[b].nkeys == f[b].nkeys
  }

  lemma WroteMore(f: File, f': File, f'': File, S: set<nat>, c: seq<nat>, a: nat)
    requires WroteAll(f, f', S, c) && Wrote(f', f'', S, a) && a in c
    ensures WroteAll(f, f'', S, c)
  {
    hide AllSame;
    assert a in Elems(c);
    SameTrans(f, f', f'', S - Elems(c), S - {a});
  }

  /** The first i segments of c hold the first k bytes of data, and the others
      still what is left of the old record. */
  ghost predicate Copying(f: File, c: seq<nat>, a: nat, i: nat, draddr: nat, data: seq<Byte>, k: nat,
                          rec: seq<Byte>, tail: seq<Byte>) {
    && i <= |c| && k <= |data| && k + |tail| == |rec|
    && Holds(f, c[..i], a, draddr, data[..k]) && Holds(f, c[i..], draddr, 0, tail)
  }

  /** The first i segments of c hold data, and those from j on hold tail. */
  ghost predicate Closed(f: File, c: seq<nat>, a: nat, i: nat, j: nat, draddr: nat, data: seq<Byte>, tail: seq<Byte>) {
    && i <= j <= |c| && Holds(f, c[..i], a, 0, data) && Holds(f, c[j..], draddr, 0, tail)
    && forall m :: i <= m < j ==> SegIn(f, c[m]) && Size(f, c[m]) == 0
  }

  lemma CopyingStart(f: File, S: set<nat>, c: seq<nat>, a: nat, data: seq<Byte>, rec: seq<Byte>)
    requires Holds(f, c, a, 0, rec) && SegsOK(f, S)
    ensures Copying(f, c, a, 0, a, data, 0, rec, rec) && WroteAll(f, f, S, c)
  {
    hide SegIn, Size, Next, Payload;
    assert c[0..] == c;
    forall x | x in S
      ensures SegSame(f, f, x)
    {
      assert SegIn(f, x);
      SegFacts(f, x);
    }
  }

  lemma RestOpen(f: File, S: set<nat>, c: seq<nat>, j: nat, draddr: nat, tail: seq<Byte>)
    requires j <= |c| && Holds(f, c[j..], draddr, 0, tail) && draddr != 0 && Elems(c) <= S
    ensures j < |c| && draddr == c[j] && draddr in c && draddr in S && SegIn(f, draddr) && Size(f, draddr) <= |tail|
    ensures Holds(f, c[j + 1..], Next(f, draddr), 0, tail[Size(f, draddr)..])
  {
    hide SegIn, Size, Next, Payload;
    HoldsFirst(f, c[j..], draddr, 0, tail);
    assert c[j..][1..] == c[j + 1..];
    assert draddr in Elems(c);
  }

  lemma CopyingOpen(f: File, S: set<nat>, c: seq<nat>, a: nat, i: nat, draddr: nat, data: seq<Byte>, k: nat,
                    rec: seq<Byte>, tail: seq<Byte>)
    requires Copying(f, c, a, i, draddr, data, k, rec, tail) && draddr != 0 && Elems(c) <= S
    ensures i < |c| && draddr == c[i] && draddr in c && draddr in S
    ensures SegIn(f, draddr) && Size(f, draddr) <= |tail| && k <= |data|
  {
    hide Holds, SegIn, Size, Next;
    RestOpen(f, S, c, i, draddr, tail);
  }

  lemma ClosedOpen(f: File, S: set<nat>, c: seq<nat>, a: nat, i: nat, j: nat, draddr: nat, data: seq<Byte>,
                   tail: seq<Byte>)
    requires Closed(f, c, a, i, j, draddr, data, tail) && draddr != 0 && Elems(c) <= S
    ensures j < |c| && draddr == c[j] && draddr in c && draddr in S && SegIn(f, draddr) && Size(f, draddr) <= |tail|
  {
    hide Holds, SegIn, Size, Next;
    RestOpen(f, S, c, j, draddr, tail);
  }

  /** A chain without the segment written. */
  lemma PartSame(f: File, f': File, S: set<nat>, cur: nat, part: seq<nat>, a: nat, z: nat, rec: seq<Byte>)
    requires Wrote(f, f', S, cur) && Holds(f, part, a, z, rec) && Elems(part) <= S && cur !in part
    ensures Holds(f', part, a, z, rec)
  {
    hide SegSame, Holds;
    forall x | x in part
      ensures SegSame(f, f', x)
    {
      assert x in Elems(part);
    }
    HoldsFrame(f, f', part, a, z, rec);
  }

  lemma {:induction false} Snoc(f: File, c: seq<nat>, a: nat, m: nat, rec: seq<Byte>, z: nat, bytes: seq<Byte>)
    requires Holds(f, c, a, m, rec) && SegIn(f, m) && Next(f, m) == z && Payload(f, m) == bytes
    ensures Holds(f, c + [m], a, z, rec + bytes)
  {
    hide SegIn, Size, Next, Payload;
    HoldsNone(f, z);
    HoldsMore(f, [], m, z, [], bytes);
    assert [m] + [] == [m] && bytes + [] == bytes;
    HoldsJoin(f, c, a, m, rec, [m], z, bytes);
  }

  /** Both parts of the chain around the segment written stay. */
  lemma AroundSame(f: File, f': File, S: set<nat>, c: seq<nat>, a: nat, i: nat, j: nat, cur: nat, z: nat,
                   front: seq<Byte>, tail: seq<Byte>)
    requires Wrote(f, f', S, cur) && Distinct(c) && Elems(c) <= S && i <= j < |c| && cur == c[j]
    requires Holds(f, c[..i], a, z, front) && Holds(f, c[j..], cur, 0, tail) && cur != 0
    ensures SegIn(f, cur) && Size(f, cur) <= |tail|
    ensures Holds(f', c[..i], a, z, front) && Holds(f', c[j + 1..], Next(f, cur), 0, tail[Size(f, cur)..])
  {
    hide SegSame, Holds, SegIn, Size, Next, Wrote;
    RestOpen(f, S, c, j, cur, tail);
    assert Elems(c[..i]) <= Elems(c) && Elems(c[j + 1..]) <= Elems(c);
    PartSame(f, f', S, cur, c[..i], a, z, front);
    PartSame(f, f', S, cur, c[j + 1..], Next(f, cur), 0, tail[Size(f, cur)..]);
  }

  lemma CopyStep(f: File, f': File, S: set<nat>, c: seq<nat>, a: nat, i: nat, cur: nat, data: seq<Byte>, k: nat,
                 rec: seq<Byte>, tail: seq<Byte>)
    requires Copying(f, c, a, i, cur, data, k, rec, tail) && Distinct(c)
    requires Elems(c) <= S && i < |c| && cur == c[i] && cur != 0
    requires Wrote(f, f', S, cur) && SegIn(f, cur) && SegIn(f', cur) && k + Size(f, cur) <= |data|
    requires Size(f', cur) == Size(f, cur) && Next(f', cur) == Next(f, cur) && Payload(f, cur)[Size(f, cur)..] == []
    requires Payload(f', cur) == data[k..k + Size(f, cur)] + Payload(f, cur)[Size(f, cur)..]
    ensures Size(f, cur) <= |tail|
    ensures Copying(f', c, a, i + 1, Next(f, cur), data, k + Size(f, cur), rec, tail[Size(f, cur)..])
  {
    hide SegSame, Holds, SegIn, Size, Next, Payload, Wrote, Distinct, Elems;
    var n := Size(f, cur);
    AroundSame(f, f', S, c, a, i, i, cur, cur, data[..k], tail);
    assert data[k..k + n] + [] == data[k..k + n];
    Snoc(f', c[..i], a, cur, data[..k], Next(f', cur), data[k..k + n]);
    assert c[..i] + [cur] == c[..i + 1] && data[..k] + data[k..k + n] == data[..k + n];
  }

  lemma CloseStep(f: File, f': File, S: set<nat>, c: seq<nat>, a: nat, i: nat, cur: nat, data: seq<Byte>, k: nat,
                  rec: seq<Byte>, tail: seq<Byte>)
    requires Copying(f, c, a, i, cur, data, k, rec, tail) && Distinct(c)
    requires Elems(c) <= S && i < |c| && cur == c[i] && cur != 0
    requires Wrote(f, f', S, cur) && SegIn(f, cur) && SegIn(f', cur)
    requires Next(f', cur) == 0 && Payload(f', cur) == data[k..|data|] + []
    ensures Size(f, cur) <= |tail|
    ensures Closed(f', c, a, i + 1, i + 1, Next(f, cur), data, tail[Size(f, cur)..])
  {
    hide SegSame, Holds, SegIn, Size, Next, Payload, Wrote, Distinct, Elems;
    AroundSame(f, f', S, c, a, i, i, cur, cur, data[..k], tail);
    Snoc(f', c[..i], a, cur, data[..k], 0, data[k..|data|] + []);
    assert c[..i] + [cur] == c[..i + 1] && data[..k] + (data[k..|data|] + []) == data;
  }

  lemma StrayStep(f: File, f': File, S: set<nat>, c: seq<nat>, a: nat, i: nat, cur: nat, data: seq<Byte>,
                  tail: seq<Byte>)
    requires Closed(f, c, a, i, i, cur, data, tail) && Distinct(c)
    requires Elems(c) <= S && i < |c| && cur == c[i] && cur != 0
    requires Wrote(f, f', S, cur) && SegIn(f, cur) && SegIn(f', cur) && Size(f', cur) == 0
    ensures Size(f, cur) <= |tail|
    ensures Closed(f', c, a, i, i + 1, Next(f, cur), data, tail[Size(f, cur)..])
  {
    hide SegSame, Holds, SegIn, Size, Next, Payload, Wrote, Distinct, Elems;
    AroundSame(f, f', S, c, a, i, i, cur, 0, data, tail);
  }

  /** The last segment of a chain holds the last bytes. */
  lemma {:induction false} TailLast(f: File, c: seq<nat>, a: nat, z: nat, tail: seq<Byte>)
    requires Holds(f, c, a, z, tail) && |c| > 0
    ensures var m := c[|c| - 1]; SegIn(f, m) && Size(f, m) <= |tail| && (|c| == 1 ==> Size(f, m) == |tail|)
    decreases |c|
  {
    hide SegIn, Size, Next, Payload;
    HoldsFirst(f, c, a, z, tail);
    if |c| > 1 {
      TailLast(f, c[1..], Next(f, a), z, tail[Size(f, a)..]);
    } else {
      EmptyHolds(f, c[1..], Next(f, a), z, tail[Size(f, a)..]);
    }
  }

  lemma EmptyHolds(f: File, c: seq<nat>, a: nat, z: nat, rec: seq<Byte>)
    requires Holds(f, c, a, z, rec) && |c| == 0
    ensures rec == []
  {
  }

  lemma LastHeld(f: File, S: set<nat>, c: seq<nat>, a: nat, rec: seq<Byte>)
    requires Holds(f, c, a, 0, rec) && a > 0
    ensures |c| > 0 && SegSame(f, f, c[|c| - 1]) && LastSize(f, c) == Size(f, c[|c| - 1])
  {
    hide Size, Next, Payload, InBlk;
    NotEmpty(f, c, a, rec);
    TailLast(f, c, a, 0, rec);
    SegFacts(f, c[|c| - 1]);
  }

  lemma NotEmpty(f: File, c: seq<nat>, a: nat, rec: seq<Byte>)
    requires Holds(f, c, a, 0, rec) && a > 0
    ensures |c| > 0
  {
  }

  /** It stays as it is while others are written. */
  lemma LastKept(f0: File, f: File, f': File, S: set<nat>, c: seq<nat>, j: nat)
    requires j < |c| && Wrote(f, f', S, c[j]) && Distinct(c) && Elems(c) <= S && SegSame(f0, f, c[|c| - 1])
    ensures j + 1 < |c| ==> SegSame(f0, f', c[|c| - 1])
  {
    hide SegSame;
    if j + 1 < |c| {
      assert c[|c| - 1] in Elems(c);
      SameTrans1(f0, f, f', c[|c| - 1]);
    }
  }

  /** The new bytes end in the last segment, or before the old record does by at
      least that segment. */
  lemma ClosePlace(f0: File, f: File, c: seq<nat>, a: nat, i: nat, cur: nat, data: seq<Byte>, k: nat,
                   rec: seq<Byte>, tail: seq<Byte>)
    requires Copying(f, c, a, i, cur, data, k, rec, tail) && i < |c| && cur == c[i] && SegIn(f, cur)
    requires |data| - k <= Size(f, cur) <= |tail| && (|data| > 0 ==> k < |data|) && SegSame(f0, f, c[|c| - 1])
    ensures |data| <= |rec|
    ensures |data| > 0 ==> (i + 1 < |c| <==> |data| <= |rec| - LastSize(f0, c))
  {
    hide Holds, SegIn, Size, Next, Payload, SegSame;
    SegSameFacts(f0, f, c[|c| - 1]);
    assert c[i..][|c| - i - 1] == c[|c| - 1];
    if i + 1 < |c| {
      HoldsFirst(f, c[i..], cur, 0, tail);
      assert c[i..][1..] == c[i + 1..] && c[i + 1..][|c| - i - 2] == c[|c| - 1];
      TailLast(f, c[i + 1..], Next(f, cur), 0, tail[Size(f, cur)..]);
    } else {
      TailLast(f, c[i..], cur, 0, tail);
    }
    LastSizeIs(f0, c);
  }

  lemma LastSizeIs(f: File, c: seq<nat>)
    requires |c| > 0 && SegIn(f, c[|c| - 1])
    ensures LastSize(f, c) == Size(f, c[|c| - 1])
  {
  }

  lemma ClosedDone(f: File, c: seq<nat>, a: nat, i: nat, j: nat, data: seq<Byte>, tail: seq<Byte>)
    requires Closed(f, c, a, i, j, 0, data, tail)
    ensures j == |c|
  {
    hide SegIn, Size;
    ZeroEnds(f, c[j..], 0, tail);
  }

  lemma CopyingDone(f: File, c: seq<nat>, a: nat, i: nat, data: seq<Byte>, k: nat, rec: seq<Byte>, tail: seq<Byte>)
    requires Copying(f, c, a, i, 0, data, k, rec, tail)
    ensures i == |c| && k == |rec| && Holds(f, c, a, 0, data[..k])
  {
    ZeroEnds(f, c[i..], 0, tail);
    assert c[..i] == c;
  }

  lemma LastIn(c: seq<nat>, S: set<nat>)
    requires |c| > 0 && Elems(c) <= S
    ensures c[|c| - 1] in S
  {
    assert c[|c| - 1] in Elems(c);
  }

  lemma Relinked(f: File, S: set<nat>, a: nat, next: nat)
    requires FileOK(f, S) && a in S && SegIn(f, a) && next < Power(ZBPW)
    ensures BlkOf(a) in f && OffOf(a) + ZDOVRH <= |f[BlkOf(a)].data| && ZDRSZ + ZBPW == ZDOVRH
    ensures var f' := f[BlkOf(a) := f[BlkOf(a)].(data := Splice(f[BlkOf(a)].data, OffOf(a) + ZDRSZ, Bytes(next, ZBPW)))];
            && Shrunk(f, f', S, a) && Size(f', a) == Size(f, a) && Next(f', a) == next && Payload(f', a) == Payload(f, a)
  {
    hide Splice, Value, BlkOf, OffOf, BlocksOK, Counted, ListOK, Bytes, Power;
    var b, o := BlkOf(a), OffOf(a);
    var d, nx := f[b].data, Bytes(next, ZBPW);
    var f' := f[b := f[b].(data := Splice(d, o + ZDRSZ, nx))];
    SpliceIn(d, o + ZDRSZ, nx);
    SpliceOut(d, o + ZDRSZ, nx, o, o + ZDRSZ);
    SpliceOut(d, o + ZDRSZ, nx, o + ZDOVRH, o + ZDOVRH + SizeAt(d, o));
    ValueBytes(next, ZBPW);
    SpliceFrame(f, f', S, a, o + ZDRSZ, nx);
  }

  /** A chain whose last segment leads elsewhere. */
  lemma {:induction false} LastLinked(f: File, f': File, S: set<nat>, c: seq<nat>, a: nat, z: nat, z': nat,
                                      rec: seq<Byte>)
    requires Holds(f, c, a, z, rec) && |c| > 0 && Distinct(c) && Elems(c) <= S && Wrote(f, f', S, c[|c| - 1])
    requires var m := c[|c| - 1]; SegIn(f, m) && SegIn(f', m) && Size(f', m) == Size(f, m) && Next(f', m) == z' && Payload(f', m) == Payload(f, m)
    ensures Holds(f', c, a, z', rec)
    decreases |c|
  {
    hide SegIn, Size, Next, Payload, SegSame;
    HoldsFirst(f, c, a, z, rec);
    if |c| > 1 {
      var n := Size(f, a);
      assert c[1..][|c| - 2] == c[|c| - 1] && Elems(c[1..]) <= Elems(c);
      LastLinked(f, f', S, c[1..], Next(f, a), z, z', rec[n..]);
      assert a in Elems(c) && SegSame(f, f', a);
      SegSameFacts(f, f', a);
    }
  }

  // ---------------------------------------------------------------------
  // The table of records
  // ---------------------------------------------------------------------

  /** Everything that belongs to other records than a stays. */
  ghost predicate OthersKept(f0: File, f: File, owner0: map<nat, nat>, owner: map<nat, nat>, a: nat) {
    && (forall c :: c in owner0 && owner0[c] != 0 && owner0[c] != a ==> c in owner && owner[c] == owner0[c] && SegSame(f0, f, c))
    && (forall c :: c in owner && owner[c] != 0 && owner[c] != a ==> c in owner0 && owner0[c] == owner[c])
  }

  lemma OtherRec(f0: File, f: File, owner0: map<nat, nat>, owner: map<nat, nat>, a: nat, b: nat, r: Rec)
    requires OthersKept(f0, f, owner0, owner, a) && RecOK(f0, b, r, owner0) && a != b
    ensures RecOK(f, b, r, owner)
  {
    hide SegSame, Holds, BlkOf;
    forall c | c in r.chain
      ensures SegSame(f0, f, c) && c in owner && owner[c] == b && BlkOf(c) in f && f[BlkOf(c)].btype == r.btype
    {
      assert c in owner0 && owner0[c] == b;
      SegSameFacts(f0, f, c);
    }
    HoldsFrame(f0, f, r.chain, b, 0, r.bytes);
  }

  /** Record a is new, or other than before. */
  lemma RecsUpdate(f0: File, recs: map<nat, Rec>, owner0: map<nat, nat>, f: File, owner: map<nat, nat>, a: nat, r: Rec)
    requires RecsOK(f0, recs, owner0) && OthersKept(f0, f, owner0, owner, a) && RecOK(f, a, r, owner)
    requires forall c :: c in owner && owner[c] == a ==> c in r.chain
    ensures RecsOK(f, recs[a := r], owner)
  {
    hide SegSame, Holds, OfType, Distinct;
    forall b | b in recs && b != a
      ensures RecOK(f, b, recs[b], owner)
    {
      OtherRec(f0, f, owner0, owner, a, b, recs[b]);
    }
  }

  /** Record a is no longer there. */
  lemma RecsRemove(f0: File, recs: map<nat, Rec>, owner0: map<nat, nat>, f: File, owner: map<nat, nat>, a: nat)
    requires RecsOK(f0, recs, owner0) && OthersKept(f0, f, owner0, owner, a)
    requires forall c :: c in owner ==> owner[c] != a
    ensures RecsOK(f, recs - {a}, owner)
  {
    hide SegSame, Holds, OfType, Distinct;
    forall b | b in recs && b != a
      ensures RecOK(f, b, recs[b], owner)
    {
      OtherRec(f0, f, owner0, owner, a, b, recs[b]);
    }
  }

  lemma ValidMake(r: Records)
    requires Settled(r.blks, r.head, r.duphead, r.free, r.owner.Keys) && RecsOK(r.blks, r.recs, r.owner)
    ensures r.Valid()
  {
    hide Settled, RecsOK;
  }

  lemma TypesKept(f: File, f': File, S: set<nat>, c: seq<nat>, btype: int)
    requires WroteAll(f, f', S, c) && OfType(f, c, btype)
    ensures OfType(f', c, btype)
  {
    hide AllSame;
  }

  /** What bdeldt needs to know of the segments behind the new end. */
  lemma ClosedParts(f: File, owner: map<nat, nat>, c: seq<nat>, a: nat, i: nat, j: nat, draddr: nat,
                    data: seq<Byte>, tail: seq<Byte>, btype: int)
    requires Closed(f, c, a, i, j, draddr, data, tail) && Distinct(c) && Elems(c) <= owner.Keys && OfType(f, c, btype)
    ensures i <= j <= |c| && Holds(f, c[j..], draddr, 0, tail) && Distinct(c[j..])
    ensures Elems(c[j..]) <= owner.Keys && OfType(f, c[j..], btype)
    ensures draddr == 0 ==> j == |c|
  {
    hide Holds, SegIn, Size, BlkOf;
    if draddr == 0 {
      ZeroEnds(f, c[j..], 0, tail);
    }
    assert Elems(c[j..]) <= Elems(c);
  }

  lemma PartsLeft(owner0: map<nat, nat>, owner: map<nat, nat>, c: seq<nat>, m: nat)
    requires m <= |c| && (owner == owner0 - Elems(c[m..]) || (owner == owner0 && m == |c|))
    ensures owner == owner0 - Elems(c[m..])
  {
    if m == |c| {
      assert Elems(c[m..]) == {};
      assert owner0 - {} == owner0;
    }
  }

  lemma SettledSame(f: File, head: int, duphead: int, free: seq<int>, S: set<nat>)
    requires Settled(f, head, duphead, free, S)
    ensures AllSame(f, f, S)
  {
    hide FileOK, AllSame;
    FrameNone(f, S);
  }

  lemma OwnedAt(owner: map<nat, nat>, chain: seq<nat>, a: nat, x: nat)
    ensures x in Owned(owner, chain, a) <==> x in owner || x in chain
    ensures x in chain ==> Owned(owner, chain, a)[x] == a
    ensures x in owner && x !in chain ==> Owned(owner, chain, a)[x] == owner[x]
  {
  }

  lemma CutOwner(owner0: map<nat, nat>, c: seq<nat>, i: nat, m: nat, x: nat)
    requires i <= m <= |c| && Distinct(c)
    ensures var owner := Owned(owner0 - Elems(c[m..]), c[i..m], 0);
            && (x in c[i..m] ==> x in owner && owner[x] == 0)
            && (x in owner && x !in c[i..m] ==> x in owner0 && x !in c[m..] && owner[x] == owner0[x])
            && (x in owner0 && x !in c[i..] ==> x in owner && owner[x] == owner0[x])
  {
    OwnedAt(owner0 - Elems(c[m..]), c[i..m], 0, x);
    Thirds(c, i, m, x);
  }

  lemma Thirds(c: seq<nat>, i: nat, m: nat, x: nat)
    requires i <= m <= |c|
    ensures x in c[i..] <==> x in c[i..m] || x in c[m..]
    ensures x in c <==> x in c[..i] || x in c[i..]
  {
    assert c[i..] == c[i..m] + c[m..] && c == c[..i] + c[i..];
  }

  lemma Halves(c: seq<nat>, i: nat, x: nat)
    requires i <= |c| && Distinct(c)
    ensures x in c[..i] ==> x !in c[i..]
  {
  }

  /** The record was cut: its table entry, and the segments left over. */
  lemma CutRecs(f0: File, f1: File, f2: File, recs: map<nat, Rec>, owner0: map<nat, nat>, owner: map<nat, nat>, a: nat,
                i: nat, j: nat, m: nat, draddr: nat, data: seq<Byte>, tail: seq<Byte>)
    requires RecsOK(f0, recs, owner0) && a in recs
    requires WroteAll(f0, f1, owner0.Keys, recs[a].chain) && OfType(f1, recs[a].chain, recs[a].btype)
    requires Closed(f1, recs[a].chain, a, i, j, draddr, data, tail) && 0 < i <= j <= m <= |recs[a].chain|
    requires owner == Owned(owner0 - Elems(recs[a].chain[m..]), recs[a].chain[i..m], 0)
    requires AllSame(f1, f2, owner0.Keys - Elems(recs[a].chain[m..]))
    ensures RecsOK(f2, recs[a := Rec(recs[a].btype, data, recs[a].chain[..i])], owner)
    ensures LostOnly(owner0, owner, recs[a].chain[i..m])
    ensures m == j <= i + 1 ==> |recs[a].chain[i..m]| <= 1 && forall x :: x in recs[a].chain[i..m] ==> SegIn(f2, x) && Size(f2, x) == 0
  {
    hide *;
    var c := recs[a].chain;
    RecOpen(f0, recs, owner0, a);
    forall x
      ensures (x in owner && owner[x] == 0) <==> (x in c[i..m] || (x in owner0 && owner0[x] == 0))
    {
      CutOwner(owner0, c, i, m, x);
      Thirds(c, i, m, x);
    }
    MakeLostOnly(owner0, owner, c[i..m]);
    CutOthers(f0, f1, f2, recs, owner0, owner, a, i, m);
    CutRec(f1, f2, recs, owner0, owner, a, i, j, m, draddr, data, tail);
    forall x | x in owner && owner[x] == a
      ensures x in c[..i]
    {
      CutOwner(owner0, c, i, m, x);
      OwnerChain(f0, recs, owner0, x);
      Thirds(c, i, m, x);
    }
    RecsUpdate(f0, recs, owner0, f2, owner, a, Rec(recs[a].btype, data, c[..i]));
    CutSizes(f1, f2, owner0.Keys, c, a, i, j, m, draddr, data, tail);
  }

  lemma MakeLostOnly(owner0: map<nat, nat>, owner: map<nat, nat>, lost: seq<nat>)
    requires forall x :: (x in owner && owner[x] == 0) <==> (x in lost || (x in owner0 && owner0[x] == 0))
    ensures LostOnly(owner0, owner, lost)
  {
  }

  lemma LostPart(c: seq<nat>, i: nat, m: nat)
    requires i <= m <= |c|
    ensures (c[i..m] != [] <==> i < m) && forall x :: x in c[i..m] ==> x in c
  {
  }

  lemma RecOpen(f: File, recs: map<nat, Rec>, owner: map<nat, nat>, a: nat)
    requires RecsOK(f, recs, owner) && a in recs
    ensures RecOK(f, a, recs[a], owner) && a > 0 && |recs[a].chain| > 0 && Distinct(recs[a].chain)
    ensures Elems(recs[a].chain) <= owner.Keys && OfType(f, recs[a].chain, recs[a].btype)
    ensures forall c :: c in recs[a].chain ==> c in owner && owner[c] == a
  {
    hide Holds, OfType;
  }

  lemma OwnerChain(f: File, recs: map<nat, Rec>, owner: map<nat, nat>, x: nat)
    requires RecsOK(f, recs, owner)
    ensures x in owner && owner[x] != 0 ==> owner[x] in recs && x in recs[owner[x]].chain
  {
    hide RecOK;
  }

  lemma CutOthers(f0: File, f1: File, f2: File, recs: map<nat, Rec>, owner0: map<nat, nat>, owner: map<nat, nat>,
                  a: nat, i: nat, m: nat)
    requires RecsOK(f0, recs, owner0) && a in recs
    requires WroteAll(f0, f1, owner0.Keys, recs[a].chain) && i <= m <= |recs[a].chain|
    requires owner == Owned(owner0 - Elems(recs[a].chain[m..]), recs[a].chain[i..m], 0)
    requires AllSame(f1, f2, owner0.Keys - Elems(recs[a].chain[m..]))
    ensures OthersKept(f0, f2, owner0, owner, a)
  {
    hide RecsOK, SegSame, Owned, Distinct;
    var c := recs[a].chain;
    RecOpen(f0, recs, owner0, a);
    forall x | x in owner0 && owner0[x] != 0 && owner0[x] != a
      ensures x in owner && owner[x] == owner0[x] && SegSame(f0, f2, x)
    {
      CutOwner(owner0, c, i, m, x);
      Thirds(c, i, m, x);
      assert x !in Elems(c) && x !in Elems(c[m..]);
      SameTrans1(f0, f1, f2, x);
    }
    forall x | x in owner && owner[x] != 0 && owner[x] != a
      ensures x in owner0 && owner0[x] == owner[x]
    {
      CutOwner(owner0, c, i, m, x);
    }
  }

  lemma SameTrans1(f: File, f': File, f'': File, x: nat)
    requires SegSame(f, f', x) && SegSame(f', f'', x)
    ensures SegSame(f, f'', x)
  {
    hide SegIn, Size, Next, Payload;
  }

  lemma CutRec(f1: File, f2: File, recs: map<nat, Rec>, owner0: map<nat, nat>, owner: map<nat, nat>, a: nat,
               i: nat, j: nat, m: nat, draddr: nat, data: seq<Byte>, tail: seq<Byte>)
    requires a in recs && a > 0 && OfType(f1, recs[a].chain, recs[a].btype) && Distinct(recs[a].chain)
    requires Closed(f1, recs[a].chain, a, i, j, draddr, data, tail) && 0 < i <= j <= m <= |recs[a].chain|
    requires forall c :: c in recs[a].chain ==> c in owner0 && owner0[c] == a
    requires owner == Owned(owner0 - Elems(recs[a].chain[m..]), recs[a].chain[i..m], 0)
    requires AllSame(f1, f2, owner0.Keys - Elems(recs[a].chain[m..]))
    ensures RecOK(f2, a, Rec(recs[a].btype, data, recs[a].chain[..i]), owner)
  {
    hide SegSame, Owned, Holds, SegIn, Size, BlkOf;
    var c := recs[a].chain;
    forall x | x in c[..i]
      ensures x in owner && owner[x] == a && SegSame(f1, f2, x) && BlkOf(x) in f2 && f2[BlkOf(x)].btype == recs[a].btype
    {
      CutOwner(owner0, c, i, m, x);
      Thirds(c, i, m, x);
      Halves(c, i, x);
      SegSameFacts(f1, f2, x);
    }
    HoldsFrame(f1, f2, c[..i], a, 0, data);
  }

  lemma CutSizes(f1: File, f2: File, S: set<nat>, c: seq<nat>, a: nat, i: nat, j: nat, m: nat, draddr: nat,
                 data: seq<Byte>, tail: seq<Byte>)
    requires Closed(f1, c, a, i, j, draddr, data, tail) && i <= j <= m <= |c| && Elems(c) <= S && Distinct(c)
    requires AllSame(f1, f2, S - Elems(c[m..]))
    ensures m == j <= i + 1 ==> |c[i..m]| <= 1 && forall x :: x in c[i..m] ==> SegIn(f2, x) && Size(f2, x) == 0
  {
    hide Holds, SegIn, Size, Next, Payload, BlkOf;
    forall x | x in c[i..m] && m == j
      ensures SegIn(f2, x) && Size(f2, x) == 0
    {
      var n :| i <= n < m && c[n] == x;
      assert x in Elems(c) && x !in Elems(c[m..]);
      SegSameFacts(f1, f2, x);
    }
  }

  lemma CutSettled(f: File, head: int, duphead: int, free: seq<int>, owner0: map<nat, nat>, o: map<nat, nat>,
                   owner: map<nat, nat>,
                   c: seq<nat>, i: nat, m: nat)
    requires i <= m <= |c| && Distinct(c) && Elems(c) <= owner0.Keys
    requires o == owner0 - Elems(c[m..]) && owner == Owned(o, c[i..m], 0)
    requires Settled(f, head, duphead, free, o.Keys)
    ensures Settled(f, head, duphead, free, owner.Keys)
  {
    hide Settled;
    OwnedKeys(o, c[i..m], 0);
    forall x | x in Elems(c[i..m])
      ensures x in o
    {
      Thirds(c, i, m, x);
      Halves(c, m, x);
      assert x in c[..m] by {
        assert c[..m] == c[..i] + c[i..m];
      }
      assert x in Elems(c);
    }
    assert owner.Keys == o.Keys;
  }

  /** Both together. */
  lemma CutTable(f0: File, f1: File, f2: File, head: int, duphead: int, free: seq<int>, recs: map<nat, Rec>,
                 owner0: map<nat, nat>, o: map<nat, nat>, a: nat, i: nat, j: nat, m: nat, draddr: nat, data: seq<Byte>, tail: seq<Byte>)
    requires RecsOK(f0, recs, owner0) && a in recs
    requires WroteAll(f0, f1, owner0.Keys, recs[a].chain) && OfType(f1, recs[a].chain, recs[a].btype)
    requires Closed(f1, recs[a].chain, a, i, j, draddr, data, tail) && 0 < i <= j <= m <= |recs[a].chain|
    requires o == owner0 - Elems(recs[a].chain[m..]) && AllSame(f1, f2, o.Keys)
    requires Settled(f2, head, duphead, free, o.Keys)
    ensures var c := recs[a].chain; var owner := Owned(o, c[i..m], 0);
            && RecsOK(f2, recs[a := Rec(recs[a].btype, data, c[..i])], owner) && Settled(f2, head, duphead, free, owner.Keys)
            && LostOnly(owner0, owner, c[i..m])
            && (m == j <= i + 1 ==> |c[i..m]| <= 1 && forall x :: x in c[i..m] ==> SegIn(f2, x) && Size(f2, x) == 0)
  {
    hide *;
    var c := recs[a].chain;
    var owner := Owned(o, c[i..m], 0);
    assert o.Keys == owner0.Keys - Elems(c[m..]);
    RecOpen(f0, recs, owner0, a);
    CutRecs(f0, f1, f2, recs, owner0, owner, a, i, j, m, draddr, data, tail);
    CutSettled(f2, head, duphead, free, owner0, o, owner, c, i, m);
  }

  // ---------------------------------------------------------------------
  // A record that grew
  // ---------------------------------------------------------------------

  lemma WroteTypes(f: File, f': File, S: set<nat>, a: nat, c: seq<nat>, btype: int)
    requires Wrote(f, f', S, a) && OfType(f, c, btype)
    ensures OfType(f', c, btype)
  {
    hide AllSame;
  }

  lemma OwnedTwice(owner: map<nat, nat>, chain: seq<nat>, a: nat)
    ensures Owned(Owned(owner, chain, 0), chain, a) == Owned(owner, chain, a)
  {
  }

  lemma ChainApart(chain: seq<nat>, S: set<nat>)
    requires Elems(chain) !! S
    ensures forall c :: c in chain ==> c !in S
  {
    assert forall c :: c in chain <==> c in Elems(chain);
  }

  lemma LastApart(c: seq<nat>, chain: seq<nat>, S: set<nat>)
    requires |c| > 0 && Elems(c) <= S && Elems(chain) !! S
    ensures c[|c| - 1] !in chain
  {
    var x := c[|c| - 1];
    assert x in Elems(c);
    assert x in chain <==> x in Elems(chain);
  }

  lemma LastType(f: File, S: set<nat>, c: seq<nat>, dblk: nat, offset: nat, btype: int)
    requires FileOK(f, S) && OfType(f, c, btype) && |c| > 0 && Elems(c) <= S
    requires Address(dblk, offset) == c[|c| - 1] && offset < ZBLKSZ
    ensures dblk in f && f[dblk].btype == btype && (btype == ZDATA || btype == ZDUP)
  {
    hide Address, BlkOf, SegsOK, Counted, ListOK, BlkOK;
    AddressParts(dblk, offset);
    assert c[|c| - 1] in c;
    assert BlockOK(dblk, f[dblk]);
  }

  lemma ZeroFits()
    ensures 0 < Power(ZBPW)
  {
  }

  lemma PartKept(f: File, f': File, S: set<nat>, c: seq<nat>, a: nat, z: nat, rec: seq<Byte>, btype: int)
    requires AllSame(f, f', S) && Holds(f, c, a, z, rec) && OfType(f, c, btype) && Elems(c) <= S
    ensures Holds(f', c, a, z, rec) && OfType(f', c, btype)
  {
    hide SegSame, Holds, BlkOf;
    forall x | x in c
      ensures SegSame(f, f', x) && BlkOf(x) in f' && f'[BlkOf(x)].btype == btype
    {
      assert x in Elems(c);
      SegSameFacts(f, f', x);
    }
    HoldsFrame(f, f', c, a, z, rec);
  }

  /** Everything outside the record is as before all three steps. */
  lemma GrownOthers(f0: File, f1: File, f2: File, f3: File, recs: map<nat, Rec>, owner0: map<nat, nat>,
                    owner: map<nat, nat>,
                    chain: seq<nat>, a: nat, v: nat)
    requires RecsOK(f0, recs, owner0) && a in recs
    requires WroteAll(f0, f1, owner0.Keys, recs[a].chain) && |recs[a].chain| > 0
    requires AllSame(f1, f2, owner0.Keys)
    requires Wrote(f2, f3, Owned(owner0, chain, 0).Keys, recs[a].chain[|recs[a].chain| - 1])
    requires owner == Owned(owner0, chain, v) && Elems(chain) !! owner0.Keys && (v == 0 || v == a)
    ensures OthersKept(f0, f3, owner0, owner, a)
  {
    hide RecsOK, SegSame, Owned, Distinct;
    var c := recs[a].chain;
    RecOpen(f0, recs, owner0, a);
    forall x | x in owner0 && owner0[x] != 0 && owner0[x] != a
      ensures x in owner && owner[x] == owner0[x] && SegSame(f0, f3, x)
    {
      OwnedAt(owner0, chain, v, x);
      OwnedAt(owner0, chain, 0, x);
      assert x !in Elems(c) && x !in Elems(chain) && x != c[|c| - 1];
      SameTrans1(f0, f1, f2, x);
      SameTrans1(f0, f2, f3, x);
    }
    forall x | x in owner && owner[x] != 0 && owner[x] != a
      ensures x in owner0 && owner0[x] == owner[x]
    {
      OwnedAt(owner0, chain, v, x);
    }
  }

  lemma GrownRecs(f0: File, f1: File, f2: File, f3: File, recs: map<nat, Rec>, owner0: map<nat, nat>,
                  owner: map<nat, nat>,
                  chain: seq<nat>, a: nat, data: seq<Byte>)
    requires RecsOK(f0, recs, owner0) && a in recs
    requires WroteAll(f0, f1, owner0.Keys, recs[a].chain) && |recs[a].chain| > 0
    requires AllSame(f1, f2, owner0.Keys)
    requires Wrote(f2, f3, Owned(owner0, chain, 0).Keys, recs[a].chain[|recs[a].chain| - 1])
    requires owner == Owned(owner0, chain, a) && Elems(chain) !! owner0.Keys && Distinct(chain)
    requires Holds(f3, recs[a].chain + chain, a, 0, data)
    requires OfType(f3, recs[a].chain, recs[a].btype) && OfType(f3, chain, recs[a].btype)
    ensures RecsOK(f3, recs[a := Rec(recs[a].btype, data, recs[a].chain + chain)], owner)
    ensures LostOnly(owner0, owner, [])
  {
    hide RecsOK, SegSame, Owned, Holds, AllSame, BlkOf, Wrote, WroteAll;
    var c := recs[a].chain;
    RecOpen(f0, recs, owner0, a);
    GrownOthers(f0, f1, f2, f3, recs, owner0, owner, chain, a, a);
    forall x
      ensures x in c + chain ==> x in owner && owner[x] == a
      ensures x in owner && owner[x] == a ==> x in c + chain
      ensures x in owner && owner[x] == 0 <==> x in owner0 && owner0[x] == 0
    {
      OwnedAt(owner0, chain, a, x);
      OwnerChain(f0, recs, owner0, x);
      assert x in chain <==> x in Elems(chain);
    }
    DistinctBoth(c, chain, owner0.Keys);
    RecsUpdate(f0, recs, owner0, f3, owner, a, Rec(recs[a].btype, data, c + chain));
  }

  lemma DistinctBoth(c: seq<nat>, d: seq<nat>, S: set<nat>)
    requires Distinct(c) && Distinct(d) && Elems(c) <= S && Elems(d) !! S
    ensures Distinct(c + d)
  {
    forall i, j | 0 <= i < j < |c + d|
      ensures (c + d)[i] != (c + d)[j]
    {
      assert i < |c| ==> c[i] in Elems(c);
      assert j >= |c| ==> d[j - |c|] in Elems(d);
    }
  }

  lemma SameRecs(f0: File, f1: File, f2: File, f3: File, recs: map<nat, Rec>, owner0: map<nat, nat>,
                 owner: map<nat, nat>,
                 chain: seq<nat>, a: nat, data: seq<Byte>)
    requires RecsOK(f0, recs, owner0) && a in recs
    requires WroteAll(f0, f1, owner0.Keys, recs[a].chain) && |recs[a].chain| > 0
    requires AllSame(f1, f2, owner0.Keys) && Wrote(f2, f3, owner.Keys, recs[a].chain[|recs[a].chain| - 1])
    requires owner == Owned(owner0, chain, 0) && Elems(chain) !! owner0.Keys
    requires Holds(f3, recs[a].chain, a, 0, data) && OfType(f3, recs[a].chain, recs[a].btype)
    ensures RecsOK(f3, recs[a := Rec(recs[a].btype, data, recs[a].chain)], owner)
    ensures LostOnly(owner0, owner, chain)
  {
    hide RecsOK, SegSame, Owned, Holds, AllSame, BlkOf, Wrote, WroteAll, OfType, Distinct;
    var c := recs[a].chain;
    RecOpen(f0, recs, owner0, a);
    GrownOthers(f0, f1, f2, f3, recs, owner0, owner, chain, a, 0);
    forall x
      ensures x in c ==> x in owner && owner[x] == a
      ensures x in owner && owner[x] == a ==> x in c
      ensures x in owner && owner[x] == 0 <==> x in chain || (x in owner0 && owner0[x] == 0)
    {
      OwnedAt(owner0, chain, 0, x);
      OwnerChain(f0, recs, owner0, x);
      assert x in chain <==> x in Elems(chain);
    }
    RecsUpdate(f0, recs, owner0, f3, owner, a, Rec(recs[a].btype, data, c));
  }

  // ---------------------------------------------------------------------
  // Records that come and go
  // ---------------------------------------------------------------------

  lemma ValidOpen(r: Records)
    requires r.Valid()
    ensures Settled(r.blks, r.head, r.duphead, r.free, r.owner.Keys) && RecsOK(r.blks, r.recs, r.owner)
  {
    hide Settled, RecsOK;
  }

  /** Segments without owner do not matter to the records. */
  lemma KeepRecs(f0: File, recs: map<nat, Rec>, owner0: map<nat, nat>, f: File, owner: map<nat, nat>,
                 chain: seq<nat>, z: nat)
    requires RecsOK(f0, recs, owner0) && AllSame(f0, f, owner0.Keys) && z == 0
    requires owner == Owned(owner0, chain, z) && Elems(chain) !! owner0.Keys
    ensures RecsOK(f, recs, owner)
  {
    hide SegSame, Holds, OfType, Distinct, Owned;
    forall x
      ensures x in owner <==> x in owner0 || x in chain
      ensures x in owner0 ==> x !in chain && owner[x] == owner0[x]
      ensures x in owner && x !in owner0 ==> owner[x] == 0
    {
      OwnedAt(owner0, chain, 0, x);
      assert x in chain <==> x in Elems(chain);
    }
    assert OthersKept(f0, f, owner0, owner, 0);
    forall b | b in recs
      ensures RecOK(f, b, recs[b], owner)
    {
      OtherRec(f0, f, owner0, owner, 0, b, recs[b]);
    }
  }

  lemma OwnedBack(owner: map<nat, nat>, chain: seq<nat>)
    requires Elems(chain) !! owner.Keys
    ensures Owned(owner, chain, 0) - Elems(chain) == owner
    ensures Owned(owner, [], 0) == owner && Elems<nat>([]) !! owner.Keys
  {
    forall x
      ensures x in Owned(owner, chain, 0) - Elems(chain) <==> x in owner
    {
      OwnedAt(owner, chain, 0, x);
      assert x in chain <==> x in Elems(chain);
    }
    assert forall x :: x in owner ==> Owned(owner, chain, 0)[x] == owner[x] by {
      forall x | x in owner
        ensures Owned(owner, chain, 0)[x] == owner[x]
      {
        OwnedAt(owner, chain, 0, x);
        assert x in chain <==> x in Elems(chain);
      }
    }
  }

  /** The segments decide which blocks are in use and how many bytes are free. */
  lemma BlocksBack(f0: File, head0: int, duphead0: int, free0: seq<int>, f: File, head: int, duphead: int,
                   free: seq<int>, S: set<nat>)
    requires Settled(f0, head0, duphead0, free0, S) && Settled(f, head, duphead, free, S) && AllSame(f0, f, S)
    ensures f.Keys == f0.Keys && forall b :: b in f ==> f[b].misc == f0[b].misc
  {
    hide Used, AllSame, SegsOK, ListOK, BlockOK, HeadOK;
    forall b
      ensures b in f <==> b in f0
      ensures b in f ==> b in f0 && f[b].misc == f0[b].misc
    {
      AllSameUsed(f0, f, S, b);
      UsedInside(f0, S, b);
      UsedInside(f, S, b);
      BusyAny(f0, S, b);
      BusyAny(f, S, b);
      assert b in f ==> Exactly(f, S, b);
      assert b in f0 ==> Exactly(f0, S, b);
    }
  }

  lemma UsedInside(f: File, S: set<nat>, b: int)
    requires SegsOK(f, S)
    ensures Used(f, S, b) > 0 ==> b in f
  {
    hide Used, Size, BlkOK, InBlk, BlkOf;
    UsedNone(f, S, b);
    if Used(f, S, b) > 0 {
      var c :| c in S && BlkOf(c) == b;
      assert SegIn(f, c);
    }
  }

  lemma RecHere(f: File, recs: map<nat, Rec>, owner: map<nat, nat>, a: nat)
    requires RecsOK(f, recs, owner)
    ensures a in recs ==> a in owner
  {
    hide RecsOK, SegIn, Size, Next, Payload;
    if a in recs {
      RecOpen(f, recs, owner, a);
      HoldsFirst(f, recs[a].chain, a, 0, recs[a].bytes);
      assert a in recs[a].chain;
    }
  }

  lemma NewRec(f0: File, recs: map<nat, Rec>, owner0: map<nat, nat>, f: File, chain: seq<nat>, a: nat,
               data: seq<Byte>, btype: int)
    requires RecsOK(f0, recs, owner0) && AllSame(f0, f, owner0.Keys) && Elems(chain) !! owner0.Keys && Distinct(chain)
    requires a > 0 && |chain| > 0 && Holds(f, chain, a, 0, data) && OfType(f, chain, btype)
    ensures a !in recs && RecsOK(f, recs[a := Rec(btype, data, chain)], Owned(owner0, chain, a))
    ensures forall c :: c in Owned(owner0, chain, a) && Owned(owner0, chain, a)[c] == 0 ==> c in owner0 && owner0[c] == 0
  {
    hide RecsOK, SegSame, OfType, Distinct, Owned, SegIn, Size, Payload, Next;
    var owner := Owned(owner0, chain, a);
    HoldsFirst(f, chain, a, 0, data);
    assert a in Elems(chain);
    RecHere(f0, recs, owner0, a);
    forall x
      ensures x in owner <==> x in owner0 || x in chain
      ensures x in owner0 ==> x !in chain && owner[x] == owner0[x]
      ensures x in chain ==> owner[x] == a
      ensures x in owner && owner[x] == a ==> x in chain
    {
      OwnedAt(owner0, chain, a, x);
      OwnerChain(f0, recs, owner0, x);
      assert x in chain <==> x in Elems(chain);
    }
    RecsUpdate(f0, recs, owner0, f, owner, a, Rec(btype, data, chain));
  }

  lemma GoneRec(f0: File, recs: map<nat, Rec>, owner0: map<nat, nat>, f: File, owner: map<nat, nat>, a: nat)
    requires RecsOK(f0, recs, owner0) && a in recs
    requires owner == owner0 - Elems(recs[a].chain) && AllSame(f0, f, owner.Keys)
    ensures RecsOK(f, recs - {a}, owner)
    ensures forall c :: c in owner ==> c in owner0 && owner[c] == owner0[c] && owner[c] != a
  {
    hide RecsOK, SegSame, OfType, Distinct, Holds;
    var c := recs[a].chain;
    RecOpen(f0, recs, owner0, a);
    forall x
      ensures x in owner <==> x in owner0 && x !in c
      ensures x in owner ==> owner[x] == owner0[x] && owner[x] != a
    {
      OwnerChain(f0, recs, owner0, x);
      assert x in c <==> x in Elems(c);
    }
    RecsRemove(f0, recs, owner0, f, owner, a);
  }

  // ---------------------------------------------------------------------
  // A shortened record
  // ---------------------------------------------------------------------

  /** A record in two segments that is cut to one byte: its second segment stays in
      use, without bytes and without a record. */
  method CutRecord() returns (r: Records, ghost lost: seq<nat>)
    ensures r.Valid() && |lost| == 1 && lost[0] in r.owner && r.owner[lost[0]] == 0
    ensures SegIn(r.blks, lost[0]) && Size(r.blks, lost[0]) == 0
    ensures forall a :: a in r.recs ==> lost[0] !in r.recs[a].chain
  {
    FirstBlocks();
    Segmented();
    hide *;
    r := new Records([1, 2]);
    var data := Bytes(0, ROOM - ZDOVRH + 1);
    var a := r.Insert(data, false);
    RecordOpen(r, a);
    ghost var f, c := r.blks, r.recs[a].chain;
    LastSmall(f, c);
    ghost var owner0 := r.owner;
    var stored;
    stored, lost := r.UpdateData(a, [0]);
    LostHas(owner0, r.owner, lost);
    LostOne(r, lost);
  }

  lemma FirstBlocks()
    ensures FreeOK(map[], [1, 2])
  {
    assert Power(4) == 256 * Power(3) && Power(3) == 256 * Power(2) && Power(2) == 256 * Power(1) && Power(1) == 256 * Power(0);
    PowerGrows(ZBPW);
  }

  lemma PowerGrows(n: nat)
    ensures n >= 4 ==> Power(n) >= Power(4)
  {
    if n > 4 {
      PowerGrows(n - 1);
    }
  }

  lemma Segmented()
    ensures ROOM - ZDOVRH + 1 <= |[1, 2]| * (ROOM - ZDOVRH) && ROOM - ZDOVRH >= 1 && ZDATA != ZDUP && ZNULL == -1
  {
  }

  lemma LastSmall(f: File, c: seq<nat>)
    ensures LastSize(f, c) <= ROOM - ZDOVRH
  {
    if |c| > 0 && SegIn(f, c[|c| - 1]) {
      SegFacts(f, c[|c| - 1]);
    }
  }

  lemma LostHas(owner0: map<nat, nat>, owner: map<nat, nat>, lost: seq<nat>)
    requires LostOnly(owner0, owner, lost)
    ensures |lost| > 0 ==> lost[0] in owner && owner[lost[0]] == 0
  {
  }

  lemma LostOne(r: Records, lost: seq<nat>)
    requires r.Valid() && |lost| == 1 && lost[0] in r.owner && r.owner[lost[0]] == 0
    ensures forall a :: a in r.recs ==> lost[0] !in r.recs[a].chain
  {
    hide Settled;
    forall a | a in r.recs
      ensures lost[0] !in r.recs[a].chain
    {
      RecOpen(r.blks, r.recs, r.owner, a);
    }
  }
}
