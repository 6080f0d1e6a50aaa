/** block, bulock, btsync, brdsup and bwrsup for one process, on its cache.

    What each of them does to the file and to the process's copies is one step of
    the protocol in Shared.dfy: Lock is its Lock and Relock, Unlock its Unlock
    and Release (LockStep, UnlockStep). */
module Locking {
  import opened Constants
  import opened Blocks
  import opened Lru
  import opened Seqs
  import opened Caching
  import Context
  import opened Shared

  class Handle {
    const cache: Cache
    const shared: bool
    var lckcnt: int
    var scroot: int
    var snfree: int
    var sfreep: int
    var sblkmx: int
    var smod: int

    constructor (c: Cache, inShared: bool, root: int)
      ensures cache == c && shared == inShared && lckcnt == 0 && scroot == root && smod == 0
    {
      cache := c;
      shared := inShared;
      lckcnt, scroot, snfree, sfreep, sblkmx, smod := 0, root, 0, ZNULL, 0, 0;
    }

    ghost predicate Valid()
      reads this, cache, cache.cntrl, cache.memrec
    {
      cache.Valid() && ZSUPER in cache.disk && 0 <= lckcnt && 0 <= smod && cache.Busy() <= {scroot}
    }

    ghost function Copies(): Words
      reads `sblkmx, `snfree, `sfreep
    {
      Words(sblkmx, snfree, sfreep)
    }

    ghost function File(): map<int, Block>
      requires cache.cntrl.Length == cache.memrec.Length
      reads this, cache, cache.cntrl, cache.memrec
    {
      cache.File()
    }

    /** brdsup, for a file of the right version. */
    method ReadSuper()
      requires Valid()
      modifies this, cache`lruh, cache`lrut, cache`queue, cache`disk, cache.cntrl, cache.memrec
      ensures Valid() && File() == old(File()) && ZSUPER in File() && Copies() == WordsOf(File()[ZSUPER])
      ensures cache.disk.Keys == old(cache.disk.Keys) && cache.Busy() == old(cache.Busy())
      ensures lckcnt == old(lckcnt) && scroot == old(scroot) && smod == old(smod)
      ensures old(cache.disk == File()) ==> cache.disk == File()
    {
      hide Where, View, Wired, Chain, Full, SlotsOK, SameSlots, SlotOK, Held, SetInfo;
      OneBusy(cache, scroot);
      var i := cache.ReadBlock(ZSUPER);
      if old(cache.disk) == File() {
        NearerSame(old(cache.disk), cache.disk);
      }
      snfree := cache.memrec[i].misc;
      sfreep := cache.memrec[i].nxblk;
      sblkmx := cache.memrec[i].nblks;
    }

    /** bwrsup. */
    method WriteSuper()
      requires Valid()
      modifies cache`lruh, cache`lrut, cache`queue, cache`disk, cache.cntrl, cache.memrec
      ensures Valid() && ZSUPER in old(File()) && cache.disk.Keys == old(cache.disk.Keys)
      ensures File() == old(File())[ZSUPER := WithWords(old(File()[ZSUPER]), Copies())]
      ensures cache.disk[ZSUPER] == File()[ZSUPER] && cache.Busy() == old(cache.Busy())
      ensures SameKeys(old(File()[ZSUPER]), File()[ZSUPER]) && WordsOf(File()[ZSUPER]) == Copies()
      ensures File()[ZSUPER].btype == ZROOT
      ensures old(cache.disk == File()) ==> cache.disk == File()
    {
      hide Where, View, Wired, Chain, Full, SlotsOK, SameSlots, SlotOK, Held, SetInfo;
      OneBusy(cache, scroot);
      ghost var file := File();
      var i := cache.ReadBlock(ZSUPER);
      var nkeys := cache.memrec[i].nkeys;
      ghost var d0, d1 := old(cache.disk), cache.disk;
      cache.Update(ZSUPER, SetInfo(cache.memrec[i], ZROOT, snfree, sfreep, nkeys, sblkmx, ZNULL), 1);
      ghost var d2 := cache.disk;
      cache.WriteBlock(ZSUPER);
      OneBusy(cache, scroot);
      WordsBack(file[ZSUPER], Copies());
      if d0 == file {
        NearerSame(d0, d1);
        NearerSame(d1, d2);
        DiskIs(d2, ZSUPER, File()[ZSUPER], cache.disk);
      }
    }

    /** btsync: the file on disk is what the process saw, with its allocator words
        if it changed them, and its cache is empty. */
    method Sync()
      requires Valid()
      modifies this`smod, cache`lruh, cache`lrut, cache`queue, cache`disk, cache.cntrl, cache.memrec
      ensures Valid() && File() == cache.disk && cache.Busy() == {} && smod == 0 && ZSUPER in old(File())
      ensures cache.disk == if old(smod) == 0 then old(File())
                            else old(File())[ZSUPER := WithWords(old(File()[ZSUPER]), Copies())]
      ensures SameKeys(old(File()[ZSUPER]), cache.disk[ZSUPER])
      ensures old(smod) != 0 ==> WordsOf(cache.disk[ZSUPER]) == Copies()
      ensures forall i :: 0 <= i < cache.cntrl.Length ==> cache.cntrl[i].inmem == -1
    {
      hide Where, View, Wired, Chain, Full, SlotsOK, SameSlots, SlotOK, Held, SetInfo;
      OneBusy(cache, scroot);
      cache.WriteAll();
      if smod != 0 {
        WriteSuper();
        smod := 0;
      }
      NoNegative(cache.cntrl[..], cache.memrec[..], cache.disk);
      cache.InitControl();
    }

    /** block, once the file lock is granted: the first call refreshes the copies
        from the file, nested calls only count. */
    method Lock()
      requires Valid() && (shared && scroot != ZNULL ==> scroot in cache.disk)
      modifies this, cache`lruh, cache`lrut, cache`queue, cache`disk, cache.cntrl, cache.memrec
      ensures Valid() && File() == old(File()) && lckcnt == old(lckcnt) + 1
      ensures smod == old(smod) && scroot == old(scroot)
      ensures old(lckcnt) > 0 || !shared || scroot == ZNULL ==>
                Copies() == old(Copies()) && cache.disk == old(cache.disk) && cache.Busy() == old(cache.Busy())
      ensures old(lckcnt) == 0 && shared && scroot != ZNULL ==>
                ZSUPER in File() && Copies() == WordsOf(File()[ZSUPER]) && cache.Busy() == old(cache.Busy()) + {scroot}
      ensures old(cache.disk == File()) ==> cache.disk == File()
    {
      hide Where, View, Wired, Chain, Full, SlotsOK, SameSlots, SlotOK, Held, SetInfo;
      if lckcnt > 0 {
        lckcnt := lckcnt + 1;
      } else {
        if shared && scroot != ZNULL {
          ReadSuper();
          WireRoot();
        }
        lckcnt := 1;
      }
    }

    /** The current root is read and wired. */
    method WireRoot()
      requires Valid() && scroot in cache.disk
      modifies cache`lruh, cache`lrut, cache`queue, cache`disk, cache.cntrl, cache.memrec
      ensures Valid() && File() == old(File()) && cache.Busy() == old(cache.Busy()) + {scroot}
      ensures old(cache.disk == File()) ==> cache.disk == File()
    {
      hide Where, View, Wired, Chain, Full, SlotsOK, SameSlots, SlotOK, Held, SetInfo;
      OneBusy(cache, scroot);
      ghost var d := cache.disk;
      var _ := cache.ReadBlock(scroot);
      if d == File() {
        NearerSame(d, cache.disk);
      }
      cache.SetBusy(scroot, true);
      if d == File() {
        NearerSame(d, cache.disk);
      }
    }

    /** bulock: the last one writes everything out and forgets it. */
    method Unlock()
      requires Valid()
      modifies this`smod, this`lckcnt, cache`lruh, cache`lrut, cache`queue, cache`disk, cache.cntrl, cache.memrec
      ensures Valid() && lckcnt == if old(lckcnt) > 0 then old(lckcnt) - 1 else 0
      ensures old(lckcnt) != 1 ==>
                File() == old(File()) && cache.disk == old(cache.disk) && smod == old(smod) && cache.Busy() == old(cache.Busy())
      ensures ZSUPER in old(File()) && ZSUPER in File() && SameKeys(old(File()[ZSUPER]), File()[ZSUPER])
      ensures old(lckcnt) == 1 && old(smod) != 0 ==> WordsOf(File()[ZSUPER]) == Copies()
      ensures old(lckcnt) == 1 ==>
                && ZSUPER in old(File()) && smod == 0 && cache.Busy() == {}
                && cache.disk == (if old(smod) == 0 then old(File())
                                  else old(File())[ZSUPER := WithWords(old(File()[ZSUPER]), Copies())])
                && File() == cache.disk && forall i :: 0 <= i < cache.cntrl.Length ==> cache.cntrl[i].inmem == -1
    {
      hide Where, View, Wired, Chain, Full, SlotsOK, SameSlots, SlotOK, Held, SetInfo;
      OneBusy(cache, scroot);
      if lckcnt > 1 {
        lckcnt := lckcnt - 1;
      } else if lckcnt == 1 {
        Sync();
        lckcnt := 0;
      }
    }
  }

  lemma OneBusy(c: Cache, root: int)
    requires c.Valid() && c.Busy() <= {root}
    ensures |c.Busy()| <= 1 < c.cntrl.Length && c.cntrl.Length == c.memrec.Length
    ensures c.File().Keys == c.disk.Keys
  {
    Subset(c.Busy(), {root});
    assert forall b :: b in c.File() <==> b in c.disk;
  }

  // ---------------------------------------------------------------------
  // A handle as a process of the protocol
  // ---------------------------------------------------------------------

  /** The handle is process p: it counts its locks, sees the file and has copies of
      the allocator words as p does. */
  ghost predicate Plays(h: Handle, s: State, p: nat)
    reads h, h.cache, h.cache.cntrl, h.cache.memrec
  {
    && h.Valid() && h.shared && p < |s.procs| && h.cache.disk == s.disk && h.File() == Seen(s.procs[p], s.disk)
    && h.lckcnt == s.procs[p].lckcnt && h.smod == s.procs[p].smod
    && (h.lckcnt > 0 ==> h.Copies() == s.procs[p].words)
  }

  /** The state after block(). */
  ghost function Locked(s: State, p: nat): State
    requires Invariant(s) && p < |s.procs|
  {
    var q := s.procs[p];
    if q.lckcnt > 0 then s.(procs := s.procs[p := q.(lckcnt := q.lckcnt + 1)])
    else
      var super := Seen(q, s.disk)[ZSUPER];
      s.(owner := p, procs := s.procs[p := q.(lckcnt := 1, cached := q.cached[ZSUPER := super], words := WordsOf(super))])
  }

  /** The state after bulock(). */
  ghost function Unlocked(s: State, p: nat): State
    requires Invariant(s) && Holds(s, p)
  {
    var q := s.procs[p];
    if q.lckcnt > 1 then s.(procs := s.procs[p := q.(lckcnt := q.lckcnt - 1)])
    else
      s.(disk := Synced(q, s.disk), owner := NOBODY,
         procs := s.procs[p := q.(lckcnt := 0, cached := map[], dirty := {}, smod := 0)],
         latest := if q.smod == 0 then s.latest else s.latest[ZSUPER := WithWords(s.latest[ZSUPER], s.words)])
  }

  /** A process that waits for the lock gets it when nobody has it; then block is
      the Lock step, and Relock for the holder. */
  method LockStep(h: Handle, ghost s: State, ghost p: nat)
    requires Invariant(s) && Plays(h, s, p) && (s.owner == NOBODY || s.owner == p)
    requires h.scroot != ZNULL && h.scroot in h.cache.disk
    modifies h, h.cache`lruh, h.cache`lrut, h.cache`queue, h.cache`disk, h.cache.cntrl, h.cache.memrec
    ensures Next(s, if s.owner == p then Relock(p) else Lock(p), Locked(s, p)) && Plays(h, Locked(s, p), p)
  {
    hide *;
    PlaysFacts(h, s, p);
    LockedFacts(s, p);
    h.Lock();
    MakePlays(h, Locked(s, p), p);
  }

  /** bulock by the holder is the Unlock step, and Release for its last lock. */
  method UnlockStep(h: Handle, ghost s: State, ghost p: nat)
    requires Invariant(s) && Plays(h, s, p) && s.owner == p
    modifies h`smod, h`lckcnt, h.cache`lruh, h.cache`lrut, h.cache`queue, h.cache`disk, h.cache.cntrl, h.cache.memrec
    ensures Holds(s, p) && Plays(h, Unlocked(s, p), p)
    ensures Next(s, if old(h.lckcnt) > 1 then Unlock(p) else Release(p), Unlocked(s, p))
  {
    hide *;
    PlaysFacts(h, s, p);
    UnlockedFacts(s, p);
    h.Unlock();
    MakePlays(h, Unlocked(s, p), p);
  }

  lemma PlaysFacts(h: Handle, s: State, p: nat)
    requires Plays(h, s, p) && Invariant(s)
    ensures h.Valid() && h.shared && p < |s.procs| && h.cache.disk == s.disk && h.File() == Seen(s.procs[p], s.disk)
    ensures h.lckcnt == s.procs[p].lckcnt && h.smod == s.procs[p].smod
    ensures (h.lckcnt > 0 ==> h.Copies() == s.procs[p].words)
    ensures s.owner == NOBODY ==> h.File() == h.cache.disk
  {
    hide Context.AllocOK;
  }

  lemma MakePlays(h: Handle, s: State, p: nat)
    requires h.Valid() && h.shared && p < |s.procs| && h.cache.disk == s.disk && h.File() == Seen(s.procs[p], s.disk)
    requires h.lckcnt == s.procs[p].lckcnt && h.smod == s.procs[p].smod
    requires (h.lckcnt > 0 ==> h.Copies() == s.procs[p].words)
    ensures Plays(h, s, p)
  {
  }

  lemma LockedFacts(s: State, p: nat)
    requires Invariant(s) && p < |s.procs| && (s.owner == NOBODY || s.owner == p)
    ensures Next(s, if s.owner == p then Relock(p) else Lock(p), Locked(s, p))
    ensures var s', q := Locked(s, p), s.procs[p];
            && |s'.procs| == |s.procs| && s'.disk == s.disk && Seen(s'.procs[p], s'.disk) == Seen(q, s.disk)
            && s'.procs[p].lckcnt == q.lckcnt + 1 && s'.procs[p].smod == q.smod
            && ZSUPER in Seen(q, s.disk)
            && s'.procs[p].words == (if q.lckcnt > 0 then q.words else WordsOf(Seen(q, s.disk)[ZSUPER]))
            && (q.lckcnt > 0 <==> s.owner == p)
  {
    hide Context.AllocOK;
    var q := s.procs[p];
    if q.lckcnt == 0 {
      assert Idle(q);
      assert Seen(Locked(s, p).procs[p], s.disk) == Seen(q, s.disk);
    }
  }

  lemma UnlockedFacts(s: State, p: nat)
    requires Invariant(s) && p < |s.procs| && s.owner == p
    ensures Holds(s, p) && s.procs[p].lckcnt >= 1 && ZSUPER in Seen(s.procs[p], s.disk)
    ensures Next(s, if s.procs[p].lckcnt > 1 then Unlock(p) else Release(p), Unlocked(s, p))
    ensures var s', q := Unlocked(s, p), s.procs[p];
            && |s'.procs| == |s.procs| && s'.procs[p].lckcnt == q.lckcnt - 1 && s'.procs[p].words == q.words
            && (q.lckcnt > 1 ==> s'.procs[p].smod == q.smod && s'.disk == s.disk && Seen(s'.procs[p], s'.disk) == Seen(q, s.disk))
            && (q.lckcnt == 1 ==>
                && s'.procs[p].smod == 0 && Seen(s'.procs[p], s'.disk) == s'.disk
                && s'.disk == (if q.smod == 0 then Seen(q, s.disk)
                               else Seen(q, s.disk)[ZSUPER := WithWords(Seen(q, s.disk)[ZSUPER], q.words)]))
  {
    hide Context.AllocOK, Synced, WithWords, WordsOf, SetInfo;
    var q := s.procs[p];
    assert Holding(s, q);
    SyncedIs(s, q);
    NoneCached(q.(lckcnt := 0, cached := map[], dirty := {}, smod := 0), Synced(q, s.disk));
  }

  lemma NoneCached(q: Process, disk: map<int, Block>)
    requires q.cached == map[]
    ensures Seen(q, disk) == disk
  {
  }
}
