/** Shared mode: any number of processes with a cache each over one file, and
    one lock (src-lib/bsemap.c, btsync in src-lib/btcls.c, src-lib/bsuper.c).

    A process changes blocks and allocator words in its own memory only.  The
    state below also carries what all processes together should be seeing: the
    latest image of every block and the latest allocator words.  Invariant is
    kept by every step of every process in any order; what the protocol promises
    follows from it. */
module Shared {
  import opened Constants
  import opened Blocks
  import opened Seqs
  import opened Trees
  import opened Context

  /** The allocator words: blocks in the file, free blocks, first free block. */
  datatype Words = Words(sblkmx: int, snfree: int, sfreep: int)

  /** One process: its lock count, the blocks in its cache, the ones it changed,
      its copy of the allocator words, and whether it changed those. */
  datatype Process = Process(lckcnt: nat, cached: map<int, Block>, dirty: set<int>, words: Words, smod: nat)

  datatype State = State(disk: map<int, Block>, owner: int, procs: seq<Process>,
                         latest: map<int, Block>, words: Words, free: seq<int>, used: set<int>)

  /** No process holds the lock. */
  const NOBODY: int := -1

  /** The allocator words in the super root's image (brdsup). */
  function WordsOf(b: Block): Words {
    Words(b.nblks, b.misc, b.nxblk)
  }

  /** The super root's image with the words in it (bwrsup). */
  function WithWords(b: Block, w: Words): Block {
    SetInfo(b, ZROOT, w.snfree, w.sfreep, b.nkeys, w.sblkmx, ZNULL)
  }

  /** What a process sees: its cache, and the file behind it. */
  ghost function Seen(p: Process, disk: map<int, Block>): map<int, Block> {
    disk + p.cached
  }

  datatype Step =
    | Lock(p: nat)                          // block(), from an unlocked state
    | Relock(p: nat)                        // block(), nested
    | Load(p: nat, b: int)                  // brdblk, a miss
    | Evict(p: nat, b: int)                 // bgtslt, with the flush of bwrblk
    | Change(p: nat, b: int, img: Block)    // any in-place change
    | Extend(p: nat, img: Block)            // bgtfre at the end of the file
    | TakeFree(p: nat)                      // bgtfre from the free list
    | GiveBack(p: nat, b: int)              // bmkfre
    | Unlock(p: nat)                        // bulock, nested
    | Release(p: nat)                       // bulock, with btsync

  ghost predicate Holds(s: State, p: nat) {
    p < |s.procs| && s.owner == p
  }

  /** btsync: dirty blocks and, if they changed, the allocator words. */
  ghost function Synced(p: Process, disk: map<int, Block>): map<int, Block>
    requires ZSUPER in disk && p.dirty <= p.cached.Keys
  {
    var flushed := disk + map b | b in p.dirty :: p.cached[b];
    if p.smod == 0 then flushed else flushed[ZSUPER := WithWords(flushed[ZSUPER], p.words)]
  }

  /** A process without the lock has an empty cache and nothing unsaved. */
  ghost predicate Idle(p: Process) {
    p.lckcnt == 0 && p.cached == map[] && p.dirty == {} && p.smod == 0
  }

  /** The holder sees the latest state, part of it only in its memory. */
  ghost predicate Holding(s: State, p: Process) {
    && p.lckcnt >= 1
    && p.dirty <= p.cached.Keys && p.cached.Keys <= s.disk.Keys
    && (forall b :: b in p.cached && b !in p.dirty ==> p.cached[b] == s.disk[b])
    && Seen(p, s.disk) == s.latest
    && p.words == s.words
    && (p.smod == 0 && ZSUPER in s.latest ==> WordsOf(s.latest[ZSUPER]) == s.words)
  }

  ghost predicate Invariant(s: State) {
    && ZSUPER in s.disk && ZSUPER in s.latest && ZSUPER in s.used && s.disk.Keys == s.latest.Keys
    && (s.owner == NOBODY || 0 <= s.owner < |s.procs|)
    && (forall i :: 0 <= i < |s.procs| && i != s.owner ==> Idle(s.procs[i]))
    && (if s.owner == NOBODY then s.disk == s.latest && WordsOf(s.disk[ZSUPER]) == s.words
        else Holding(s, s.procs[s.owner]))
    && AllocOK(s.latest, s.words.sblkmx, s.words.sfreep, s.words.snfree, s.free, multiset(s.used))
  }
  /** One step of one process.  The last four fields of the state, which no
      process can see, record what the step means for everybody. */
  ghost predicate Next(s: State, step: Step, s': State)
    requires Invariant(s)
  {
    match step
    case Lock(p) =>
      && p < |s.procs| && s.owner == NOBODY && s.procs[p].lckcnt == 0
      && var super := Seen(s.procs[p], s.disk)[ZSUPER];
         var q := s.procs[p].(lckcnt := 1, cached := s.procs[p].cached[ZSUPER := super], words := WordsOf(super));
         s' == s.(owner := p, procs := s.procs[p := q])
    case Relock(p) =>
      && Holds(s, p) && s' == s.(procs := s.procs[p := s.procs[p].(lckcnt := s.procs[p].lckcnt + 1)])
    case Load(p, b) =>
      && Holds(s, p) && b in s.disk && b !in s.procs[p].cached
      && s' == s.(procs := s.procs[p := s.procs[p].(cached := s.procs[p].cached[b := s.disk[b]])])
    case Evict(p, b) =>
      && Holds(s, p) && b in s.procs[p].cached
      && var q := s.procs[p];
         s' == s.(disk := if b in q.dirty then s.disk[b := q.cached[b]] else s.disk,
                  procs := s.procs[p := q.(cached := q.cached - {b}, dirty := q.dirty - {b})])
    case Change(p, b, img) =>
      && Holds(s, p) && b in s.procs[p].cached && b in s.used
      && (b == ZSUPER ==> WordsOf(img) == WordsOf(s.procs[p].cached[b]))
      && var q := s.procs[p];
         s' == s.(procs := s.procs[p := q.(cached := q.cached[b := img], dirty := q.dirty + {b})],
                  latest := s.latest[b := img])
    case Extend(p, img) =>
      && Holds(s, p) && s.procs[p].words.sfreep == ZNULL
      && var q, b := s.procs[p], s.procs[p].words.sblkmx;
         s' == s.(disk := s.disk[b := img],
                  procs := s.procs[p := q.(cached := q.cached[b := img], dirty := q.dirty - {b},
                                           words := q.words.(sblkmx := b + 1), smod := q.smod + 1)],
                  latest := s.latest[b := img], words := s.words.(sblkmx := s.words.sblkmx + 1), used := s.used + {b})
    case TakeFree(p) =>
      && Holds(s, p) && s.procs[p].words.sfreep in s.procs[p].cached
      && var q, b := s.procs[p], s.procs[p].words.sfreep;
         && q.cached[b].btype == ZFREE
         && s' == s.(procs := s.procs[p := q.(words := q.words.(sfreep := q.cached[b].nxblk, snfree := q.words.snfree - 1),
                                              smod := q.smod + 1)],
                     words := s.words.(sfreep := if |s.free| > 1 then s.free[1] else ZNULL, snfree := s.words.snfree - 1),
                     free := if |s.free| > 0 then s.free[1..] else [], used := s.used + {b})
    case GiveBack(p, b) =>
      && Holds(s, p) && b in s.procs[p].cached && b in s.used && b != ZSUPER
      && var q := s.procs[p];
         var img := SetInfo(q.cached[b], ZFREE, 0, q.words.sfreep, 0, 0, ZNULL);
         s' == s.(procs := s.procs[p := q.(cached := q.cached[b := img], dirty := q.dirty + {b},
                                           words := q.words.(sfreep := b, snfree := q.words.snfree + 1), smod := q.smod + 1)],
                  latest := s.latest[b := img], words := s.words.(sfreep := b, snfree := s.words.snfree + 1),
                  free := [b] + s.free, used := s.used - {b})
    case Unlock(p) =>
      && Holds(s, p) && s.procs[p].lckcnt > 1
      && s' == s.(procs := s.procs[p := s.procs[p].(lckcnt := s.procs[p].lckcnt - 1)])
    case Release(p) =>
      && Holds(s, p) && s.procs[p].lckcnt == 1
      && s' == s.(disk := Synced(s.procs[p], s.disk), owner := NOBODY,
                  procs := s.procs[p := s.procs[p].(lckcnt := 0, cached := map[], dirty := {}, smod := 0)],
                  latest := if s.procs[p].smod == 0 then s.latest
                            else s.latest[ZSUPER := WithWords(s.latest[ZSUPER], s.words)])
  }


  // ---------------------------------------------------------------------
  // Allocation, on values
  // ---------------------------------------------------------------------

  lemma AllocExtend(s: Store, w: Words, free: seq<int>, used: set<int>, img: Block)
    requires AllocOK(s, w.sblkmx, w.sfreep, w.snfree, free, multiset(used)) && w.sfreep == ZNULL
    ensures w.sblkmx !in s && w.sblkmx !in used && 0 <= w.sblkmx
    ensures AllocOK(s[w.sblkmx := img], w.sblkmx + 1, w.sfreep, w.snfree, free, multiset(used + {w.sblkmx}))
  {
    var b := w.sblkmx;
    NoFree(s, w.sfreep, free);
    if b in used {
      UsedNotFree(s, multiset(used), free, b);
    }
    var s' := s[b := img];
    assert s'.Keys == s.Keys + {b};
    assert multiset(s'.Keys) == multiset(s.Keys) + multiset{b};
    assert multiset(used + {b}) == multiset(used) + multiset{b};
  }

  lemma NoFree(s: Store, head: int, free: seq<int>)
    requires FreeList(s, head, free) && head == ZNULL && ZNULL !in s
    ensures free == []
  {
  }

  lemma AllocTake(s: Store, w: Words, free: seq<int>, used: set<int>)
    requires AllocOK(s, w.sblkmx, w.sfreep, w.snfree, free, multiset(used)) && w.sfreep in s
    ensures |free| > 0 && w.sfreep == free[0] && w.sfreep !in used && s[w.sfreep].btype == ZFREE
    ensures s[w.sfreep].nxblk == if |free| > 1 then free[1] else ZNULL
    ensures AllocOK(s, w.sblkmx, s[w.sfreep].nxblk, w.snfree - 1, free[1..], multiset(used + {w.sfreep}))
  {
    var b := w.sfreep;
    assert free[0] in free;
    FreeNotUsed(s, multiset(used), free, b);
    assert FreeList(s, s[b].nxblk, free[1..]);
    assert free == [free[0]] + free[1..];
    assert multiset(free) == multiset{b} + multiset(free[1..]);
    assert multiset(used + {b}) == multiset(used) + multiset{b};
  }

  lemma AllocGive(s: Store, w: Words, free: seq<int>, used: set<int>, b: int, img: Block)
    requires AllocOK(s, w.sblkmx, w.sfreep, w.snfree, free, multiset(used)) && b in used
    requires img.btype == ZFREE && img.nxblk == w.sfreep
    ensures b in s
    ensures AllocOK(s[b := img], w.sblkmx, b, w.snfree + 1, [b] + free, multiset(used - {b}))
  {
    UsedNotFree(s, multiset(used), free, b);
    var s' := s[b := img];
    forall x | x in free
      ensures x in s && x != b
    {
      FreeNotUsed(s, multiset(used), free, x);
    }
    FreeListFrame(s, s', w.sfreep, free);
    assert ([b] + free)[1..] == free;
    assert multiset([b] + free) == multiset{b} + multiset(free);
    assert s'.Keys == s.Keys;
    assert multiset(used) == multiset(used - {b}) + multiset{b};
  }

  lemma AllocChange(s: Store, w: Words, free: seq<int>, used: set<int>, b: int, img: Block)
    requires AllocOK(s, w.sblkmx, w.sfreep, w.snfree, free, multiset(used)) && b in used
    ensures b in s && AllocOK(s[b := img], w.sblkmx, w.sfreep, w.snfree, free, multiset(used))
  {
    UsedNotFree(s, multiset(used), free, b);
    AllocFrame(s, s[b := img], w.sblkmx, w.sfreep, w.snfree, free, multiset(used));
  }

  // ---------------------------------------------------------------------
  // Every step keeps the invariant
  // ---------------------------------------------------------------------

  lemma SeenChange(q: Process, q': Process, disk: map<int, Block>, b: int, img: Block)
    requires b in disk && q'.cached == q.cached[b := img]
    ensures Seen(q', disk) == Seen(q, disk)[b := img]
  {
    assert disk + q.cached[b := img] == (disk + q.cached)[b := img];
  }

  lemma KeepLock(s: State, p: nat, s': State)
    requires Invariant(s) && Next(s, Lock(p), s')
    ensures Invariant(s')
  {
    hide AllocOK;
    assert Seen(s.procs[p], s.disk) == s.disk;
    assert s.disk + map[ZSUPER := s.disk[ZSUPER]] == s.disk;
    assert s.procs[p].cached[ZSUPER := s.disk[ZSUPER]] == map[ZSUPER := s.disk[ZSUPER]];
  }

  lemma KeepCount(s: State, p: nat, s': State)
    requires Invariant(s) && (Next(s, Relock(p), s') || Next(s, Unlock(p), s'))
    ensures Invariant(s')
  {
    hide AllocOK;
    assert Seen(s'.procs[p], s'.disk) == Seen(s.procs[p], s.disk);
  }

  lemma LoadSeen(q: Process, disk: map<int, Block>, b: int)
    requires b in disk && b !in q.cached
    ensures Seen(q.(cached := q.cached[b := disk[b]]), disk) == Seen(q, disk)
  {
  }

  lemma EvictSeen(q: Process, disk: map<int, Block>, b: int)
    requires b in q.cached && q.cached.Keys <= disk.Keys
    requires b in q.dirty || q.cached[b] == disk[b]
    ensures var disk' := if b in q.dirty then disk[b := q.cached[b]] else disk;
            disk'.Keys == disk.Keys && Seen(q.(cached := q.cached - {b}, dirty := q.dirty - {b}), disk') == Seen(q, disk)
  {
    assert b in q.cached.Keys;
  }

  lemma ExtendSeen(q: Process, q': Process, disk: map<int, Block>, b: int, img: Block)
    requires q'.cached == q.cached[b := img]
    ensures Seen(q', disk[b := img]) == Seen(q, disk)[b := img]
  {
    assert disk[b := img] + q.cached[b := img] == (disk + q.cached)[b := img];
  }

  lemma NewKey(m: map<int, Block>, disk: map<int, Block>, b: int, img: Block)
    requires m.Keys == disk.Keys
    ensures m[b := img].Keys == disk[b := img].Keys
  {
  }

  /** btsync leaves on disk what the process saw, with its allocator words. */
  lemma SyncedIs(s: State, q: Process)
    requires Holding(s, q) && ZSUPER in s.disk
    ensures ZSUPER in Seen(q, s.disk) && q.dirty <= q.cached.Keys
    ensures var seen := Seen(q, s.disk);
            Synced(q, s.disk) == if q.smod == 0 then seen else seen[ZSUPER := WithWords(seen[ZSUPER], q.words)]
  {
    hide WithWords, WordsOf;
    FlushedIsSeen(s.disk, q.cached, q.dirty);
    assert s.disk + (map b | b in q.dirty :: q.cached[b]) == Seen(q, s.disk);
  }

  /** Writing the words leaves the table of roots alone, which is what the keys of
      the super root are. */
  lemma WordsBack(b: Block, w: Words)
    ensures WordsOf(WithWords(b, w)) == w && SameKeys(b, WithWords(b, w))
    ensures WithWords(b, w).btype == ZROOT && WithWords(b, w).nxdup == ZNULL
  {
  }

  /** What the last unlock leaves on disk. */
  lemma ReleaseDisk(s: State, p: nat)
    requires Invariant(s) && p < |s.procs| && s.owner == p
    ensures ZSUPER in s.disk && ZSUPER in s.latest && s.procs[p].dirty <= s.procs[p].cached.Keys
    ensures var latest := if s.procs[p].smod == 0 then s.latest else s.latest[ZSUPER := WithWords(s.latest[ZSUPER], s.words)];
            && Synced(s.procs[p], s.disk) == latest && latest.Keys == s.latest.Keys && WordsOf(latest[ZSUPER]) == s.words
            && SameKeys(s.latest[ZSUPER], latest[ZSUPER])
  {
    hide AllocOK, Seen, Synced, WithWords, WordsOf;
    SyncedIs(s, s.procs[p]);
    WordsBack(s.latest[ZSUPER], s.words);
  }

  lemma KeepLoad(s: State, p: nat, b: int, s': State)
    requires Invariant(s) && (Next(s, Load(p, b), s') || Next(s, Evict(p, b), s'))
    ensures Invariant(s')
  {
    hide AllocOK, Seen;
    var q := s.procs[p];
    if Next(s, Load(p, b), s') {
      LoadSeen(q, s.disk, b);
    } else {
      EvictSeen(q, s.disk, b);
    }
  }

  lemma KeepChange(s: State, p: nat, b: int, img: Block, s': State)
    requires Invariant(s) && Next(s, Change(p, b, img), s')
    ensures Invariant(s')
  {
    hide AllocOK;
    var q := s.procs[p];
    SeenChange(q, s'.procs[p], s.disk, b, img);
    AllocChange(s.latest, s.words, s.free, s.used, b, img);
    assert s.latest[b] == q.cached[b];
    assert s'.latest.Keys == s.latest.Keys;
  }

  lemma KeepExtend(s: State, p: nat, img: Block, s': State)
    requires Invariant(s) && Next(s, Extend(p, img), s')
    ensures Invariant(s') && s.words.sblkmx !in s.used && s'.used == s.used + {s.words.sblkmx}
  {
    hide AllocOK, Seen;
    var q, b := s.procs[p], s.procs[p].words.sblkmx;
    AllocExtend(s.latest, s.words, s.free, s.used, img);
    ExtendSeen(q, s'.procs[p], s.disk, b, img);
    NewKey(s.latest, s.disk, b, img);
  }

  lemma KeepTake(s: State, p: nat, s': State)
    requires Invariant(s) && Next(s, TakeFree(p), s')
    ensures Invariant(s') && s.words.sfreep !in s.used && s'.used == s.used + {s.words.sfreep}
  {
    hide AllocOK;
    var q, b := s.procs[p], s.procs[p].words.sfreep;
    assert s.latest[b] == q.cached[b];
    AllocTake(s.latest, s.words, s.free, s.used);
    assert Seen(s'.procs[p], s'.disk) == Seen(q, s.disk);
  }

  lemma KeepGive(s: State, p: nat, b: int, s': State)
    requires Invariant(s) && Next(s, GiveBack(p, b), s')
    ensures Invariant(s')
  {
    hide AllocOK, Seen;
    var q := s.procs[p];
    var img := SetInfo(q.cached[b], ZFREE, 0, q.words.sfreep, 0, 0, ZNULL);
    SeenChange(q, s'.procs[p], s.disk, b, img);
    AllocGive(s.latest, s.words, s.free, s.used, b, img);
    assert s'.latest.Keys == s.latest.Keys;
  }

  lemma FlushedIsSeen(disk: map<int, Block>, cached: map<int, Block>, dirty: set<int>)
    requires dirty <= cached.Keys <= disk.Keys
    requires forall b :: b in cached && b !in dirty ==> cached[b] == disk[b]
    ensures disk + (map b | b in dirty :: cached[b]) == disk + cached
  {
    var f := map b | b in dirty :: cached[b];
    forall b | b in disk
      ensures (disk + f)[b] == (disk + cached)[b]
    {
    }
    assert (disk + f).Keys == (disk + cached).Keys;
  }

  lemma KeepRelease(s: State, p: nat, s': State)
    requires Invariant(s) && Next(s, Release(p), s')
    ensures Invariant(s')
  {
    hide AllocOK, Seen, Synced, WithWords, WordsOf;
    var q := s.procs[p];
    ReleaseDisk(s, p);
    if q.smod != 0 {
      AllocChange(s.latest, s.words, s.free, s.used, ZSUPER, WithWords(s.latest[ZSUPER], s.words));
    }
  }

  /** The invariant holds after any step of any process. */
  lemma Keeps(s: State, step: Step, s': State)
    requires Invariant(s) && Next(s, step, s')
    ensures Invariant(s')
  {
    hide *;
    match step
    case Lock(p) => KeepLock(s, p, s');
    case Relock(p) => KeepCount(s, p, s');
    case Unlock(p) => KeepCount(s, p, s');
    case Load(p, b) => KeepLoad(s, p, b, s');
    case Evict(p, b) => KeepLoad(s, p, b, s');
    case Change(p, b, img) => KeepChange(s, p, b, img, s');
    case Extend(p, img) => KeepExtend(s, p, img, s');
    case TakeFree(p) => KeepTake(s, p, s');
    case GiveBack(p, b) => KeepGive(s, p, b, s');
    case Release(p) => KeepRelease(s, p, s');
  }

  // ---------------------------------------------------------------------
  // Whole runs
  // ---------------------------------------------------------------------

  /** Any interleaving of steps, from the first state on. */
  ghost predicate Run(ss: seq<State>, ts: seq<Step>) {
    |ss| == |ts| + 1 && forall i :: 0 <= i < |ts| ==> Invariant(ss[i]) ==> Next(ss[i], ts[i], ss[i + 1])
  }

  lemma {:induction false} RunKeeps(ss: seq<State>, ts: seq<Step>, n: nat)
    requires Run(ss, ts) && Invariant(ss[0]) && n <= |ts|
    ensures forall i :: 0 <= i <= n ==> Invariant(ss[i])
  {
    hide Invariant, Next;
    if n > 0 {
      RunKeeps(ss, ts, n - 1);
      assert Invariant(ss[n - 1]);
      Keeps(ss[n - 1], ts[n - 1], ss[n]);
    }
  }

  /** A file in order, and processes that have just opened it. */
  lemma Opened(disk: map<int, Block>, procs: seq<Process>, free: seq<int>, used: set<int>)
    requires ZSUPER in disk && ZSUPER in used && forall i :: 0 <= i < |procs| ==> Idle(procs[i])
    requires var w := WordsOf(disk[ZSUPER]); AllocOK(disk, w.sblkmx, w.sfreep, w.snfree, free, multiset(used))
    ensures Invariant(State(disk, NOBODY, procs, disk, WordsOf(disk[ZSUPER]), free, used))
  {
  }

  /** btcrt leaves such a file. */
  method Created(ghost procs: seq<Process>) returns (ix: Index, ghost s: State)
    requires forall i :: 0 <= i < |procs| ==> Idle(procs[i])
    ensures fresh(ix) && ix.Valid() && ix.Contents() == map[]
    ensures Invariant(s) && s.disk == ix.store && s.owner == NOBODY && s.procs == procs && s.used == {ZSUPER, ix.scroot}
    ensures s.words == Words(ix.sblkmx, ix.snfree, ix.sfreep) && s.free == ix.free
  {
    ix := new Index();
    ghost var used := {ZSUPER, ix.scroot};
    s := State(ix.store, NOBODY, procs, ix.store, WordsOf(ix.store[ZSUPER]), ix.free, used);
    assert ix.Owned() == multiset(used);
    Opened(ix.store, procs, ix.free, used);
  }

  /** At any time of any run: a process without the lock has nothing in its
      cache, and while nobody has the lock the file is up to date. */
  lemma NothingUnsaved(ss: seq<State>, ts: seq<Step>, i: nat)
    requires Run(ss, ts) && Invariant(ss[0]) && i < |ss|
    ensures forall p :: 0 <= p < |ss[i].procs| && p != ss[i].owner ==> ss[i].procs[p].cached == map[]
    ensures ss[i].owner == NOBODY ==> ss[i].disk == ss[i].latest && ZSUPER in ss[i].disk
                                      && WordsOf(ss[i].disk[ZSUPER]) == ss[i].words
  {
    RunKeeps(ss, ts, i);
    assert Invariant(ss[i]);
  }

  /** Whoever holds the lock sees what all earlier holders did. */
  lemma HolderSees(ss: seq<State>, ts: seq<Step>, i: nat)
    requires Run(ss, ts) && Invariant(ss[0]) && i < |ss| && ss[i].owner != NOBODY
    ensures 0 <= ss[i].owner < |ss[i].procs|
    ensures var q := ss[i].procs[ss[i].owner]; Seen(q, ss[i].disk) == ss[i].latest && q.words == ss[i].words
  {
    RunKeeps(ss, ts, i);
    assert Invariant(ss[i]);
  }

  /** Whatever the last unlock writes, the table of roots in block 0 is the one all
      processes saw, and its words are the latest ones. */
  lemma ReleaseKeeps(s: State, p: nat, s': State)
    requires Invariant(s) && Next(s, Release(p), s')
    ensures ZSUPER in s.latest && ZSUPER in s'.disk && s'.disk == s'.latest
    ensures SameKeys(s.latest[ZSUPER], s'.disk[ZSUPER])
    ensures s'.disk[ZSUPER].misc == s.words.snfree && s'.disk[ZSUPER].nxblk == s.words.sfreep
    ensures s'.disk[ZSUPER].nblks == s.words.sblkmx
    ensures forall b :: b in s.latest && b != ZSUPER ==> b in s'.disk && s'.disk[b] == s.latest[b]
  {
    hide AllocOK, Seen, Synced, WithWords;
    ReleaseDisk(s, p);
  }

  lemma StepTable(s: State, step: Step, s': State)
    requires Invariant(s) && Next(s, step, s') && !(step.Change? && step.b == ZSUPER)
    ensures ZSUPER in s.latest && ZSUPER in s'.latest && SameKeys(s.latest[ZSUPER], s'.latest[ZSUPER])
  {
    hide AllocOK, Seen, Synced, WithWords, WordsOf, Holding, Idle;
    match step
    case Release(p) => ReleaseDisk(s, p);
    case Extend(p, img) => KeepExtend(s, p, img, s');
    case _ =>
  }

  /** Only a change to block 0 itself changes the table of roots, however often the
      allocator words are written over in between. */
  lemma {:induction false} TableStays(ss: seq<State>, ts: seq<Step>, i: nat, j: nat)
    requires Run(ss, ts) && Invariant(ss[0]) && i <= j <= |ts|
    requires forall k :: i <= k < j ==> !(ts[k].Change? && ts[k].b == ZSUPER)
    ensures ZSUPER in ss[i].latest && ZSUPER in ss[j].latest && SameKeys(ss[i].latest[ZSUPER], ss[j].latest[ZSUPER])
    decreases j
  {
    hide Next, AllocOK, Holding, Idle;
    RunKeeps(ss, ts, i);
    assert Invariant(ss[i]);
    if i < j {
      TableStays(ss, ts, i, j - 1);
      RunKeeps(ss, ts, j - 1);
      assert Invariant(ss[j - 1]);
      StepTable(ss[j - 1], ts[j - 1], ss[j]);
    }
  }

  /** Step i of the run hands out block b. */
  ghost predicate HandsOut(ss: seq<State>, ts: seq<Step>, i: nat, b: int)
    requires i < |ts| && i < |ss|
  {
    match ts[i]
    case Extend(_, _) => b == ss[i].words.sblkmx
    case TakeFree(_) => b == ss[i].words.sfreep
    case _ => false
  }

  lemma HandedOut(ss: seq<State>, ts: seq<Step>, i: nat, b: int)
    requires Run(ss, ts) && Invariant(ss[0]) && i < |ts| && HandsOut(ss, ts, i, b)
    ensures b !in ss[i].used && b in ss[i + 1].used
  {
    hide Invariant, Next, AllocOK;
    RunKeeps(ss, ts, i);
    assert Invariant(ss[i]);
    match ts[i]
    case Extend(p, img) => KeepExtend(ss[i], p, img, ss[i + 1]);
    case TakeFree(p) => KeepTake(ss[i], p, ss[i + 1]);
    case _ =>
  }

  lemma StepUsed(s: State, step: Step, s': State, b: int)
    requires Invariant(s) && Next(s, step, s') && b in s.used
    requires !(step.GiveBack? && step.b == b)
    ensures b in s'.used
  {
    hide AllocOK, Holding, Synced, WithWords, WordsOf, Idle;
  }

  lemma {:induction false} StaysUsed(ss: seq<State>, ts: seq<Step>, i: nat, j: nat, b: int)
    requires Run(ss, ts) && Invariant(ss[0]) && i <= j <= |ts| && b in ss[i].used
    requires forall k :: i <= k < j ==> !(ts[k].GiveBack? && ts[k].b == b)
    ensures b in ss[j].used
    decreases j
  {
    hide Invariant, Next;
    if i < j {
      StaysUsed(ss, ts, i, j - 1, b);
      RunKeeps(ss, ts, j - 1);
      assert Invariant(ss[j - 1]);
      StepUsed(ss[j - 1], ts[j - 1], ss[j], b);
    }
  }

  /** No block is handed out twice, by whichever processes, without having been
      given back in between. */
  lemma NotTwice(ss: seq<State>, ts: seq<Step>, i: nat, j: nat, b: int)
    requires Run(ss, ts) && Invariant(ss[0]) && i < j < |ts|
    requires HandsOut(ss, ts, i, b) && HandsOut(ss, ts, j, b)
    ensures exists k :: i < k < j && ts[k].GiveBack? && ts[k].b == b
  {
    hide Run, Invariant, HandsOut;
    HandedOut(ss, ts, i, b);
    HandedOut(ss, ts, j, b);
    if forall k :: i < k < j ==> !(ts[k].GiveBack? && ts[k].b == b) {
      StaysUsed(ss, ts, i + 1, j, b);
    }
  }
}
