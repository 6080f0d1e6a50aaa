/** The block cache: brdblk, bgtslt, bwrblk, bqadd, bqmove, bqhead, bsetbs, the
    flush of btsync and initcntrl, on arrays of slots.

    View is the file as the library sees it: a block's slot if it has one, its
    image on disk if not.  Every routine says what it does to View, so the cache
    itself is invisible; the tree routines are modelled on View (Context.dfy). */
module Caching {
  import opened Constants
  import opened Blocks
  import opened Lru
  import opened Seqs

  /** The first slot that holds a block; the number of slots when there is none. */
  ghost function Where(c: seq<Control>, b: int): (i: nat)
    ensures i <= |c| && (i < |c| ==> c[i].inmem == b)
    ensures forall j :: 0 <= j < i ==> c[j].inmem != b
  {
    if |c| == 0 then 0 else if c[0].inmem == b then 0 else 1 + Where(c[1..], b)
  }

  ghost function View(c: seq<Control>, m: seq<Block>, disk: map<int, Block>): map<int, Block>
    requires |c| == |m|
  {
    map b | b in disk :: if Where(c, b) < |c| then m[Where(c, b)] else disk[b]
  }

  /** No block is in two slots, a clean slot equals disk, an empty slot is clean
      and free. */
  ghost predicate SlotsOK(c: seq<Control>, m: seq<Block>, disk: map<int, Block>) {
    && |c| == |m|
    && (forall b :: b in disk ==> 0 <= b)
    && (forall i :: 0 <= i < |c| ==> SlotOK(c[i], m[i], disk))
    && (forall i, j :: 0 <= i < j < |c| ==> c[i].inmem < 0 || c[i].inmem != c[j].inmem)
  }

  ghost predicate SlotOK(k: Control, b: Block, disk: map<int, Block>) {
    if k.inmem < 0 then k.inmem == -1 && k.writes == 0 && !k.busy
    else k.inmem in disk && 0 <= k.writes && (k.writes == 0 ==> b == disk[k.inmem])
  }

  /** The blocks wired down. */
  ghost function Wired(c: seq<Control>): set<int> {
    set i | 0 <= i < |c| && c[i].busy :: c[i].inmem
  }

  lemma WhereIs(c: seq<Control>, m: seq<Block>, disk: map<int, Block>, i: nat)
    requires SlotsOK(c, m, disk) && i < |c| && c[i].inmem >= 0
    ensures Where(c, c[i].inmem) == i
    ensures c[i].inmem in View(c, m, disk) && View(c, m, disk)[c[i].inmem] == m[i]
  {
    assert SlotOK(c[i], m[i], disk);
  }

  lemma WhereSame(c: seq<Control>, c': seq<Control>, b: int)
    requires |c'| == |c| && forall i :: 0 <= i < |c| ==> c'[i].inmem == c[i].inmem
    ensures Where(c', b) == Where(c, b)
  {
    hide *;
    WhereFirst(c, b);
    WhereFirst(c', b);
  }

  lemma WhereFirst(c: seq<Control>, b: int)
    ensures Where(c, b) <= |c| && (Where(c, b) < |c| ==> c[Where(c, b)].inmem == b)
    ensures forall j :: 0 <= j < Where(c, b) ==> c[j].inmem != b
  {
  }

  lemma ViewAt(c: seq<Control>, m: seq<Block>, disk: map<int, Block>, b: int)
    requires |c| == |m|
    ensures b in View(c, m, disk) <==> b in disk
    ensures b in disk ==> View(c, m, disk)[b] == if Where(c, b) < |c| then m[Where(c, b)] else disk[b]
  {
    WhereFirst(c, b);
  }

  /** Links of the list do not matter to the view. */
  lemma SameView(c: seq<Control>, c': seq<Control>, m: seq<Block>, disk: map<int, Block>)
    requires SlotsOK(c, m, disk) && SameSlots(c, c')
    ensures SlotsOK(c', m, disk) && View(c', m, disk) == View(c, m, disk) && Wired(c') == Wired(c)
    ensures forall b :: Where(c', b) == Where(c, b)
  {
    hide Where, View, Wired;
    forall i | 0 <= i < |c|
      ensures SlotOK(c'[i], m[i], disk) && c'[i].inmem == c[i].inmem && c'[i].busy == c[i].busy
    {
      assert SlotOK(c[i], m[i], disk);
    }
    SlotsSame(c, c');
    WiredSame(c, c');
    forall b
      ensures b in View(c', m, disk) <==> b in View(c, m, disk)
      ensures b in View(c, m, disk) ==> View(c', m, disk)[b] == View(c, m, disk)[b]
    {
      ViewAt(c, m, disk, b);
      ViewAt(c', m, disk, b);
    }
    assert View(c', m, disk) == View(c, m, disk);
  }

  /** Fewer wired blocks than slots: some slot is not wired. */
  lemma {:induction false} WiredBound(c: seq<Control>, m: seq<Block>, disk: map<int, Block>)
    requires SlotsOK(c, m, disk) && forall i :: 0 <= i < |c| ==> c[i].busy
    ensures |Wired(c)| >= |c|
    decreases |c|
  {
    if |c| > 0 {
      var n := |c| - 1;
      var c', m' := c[..n], m[..n];
      forall i | 0 <= i < n
        ensures SlotOK(c'[i], m'[i], disk)
      {
        assert SlotOK(c[i], m[i], disk);
      }
      WiredBound(c', m', disk);
      assert SlotOK(c[n], m[n], disk);
      forall x | x in Wired(c')
        ensures x in Wired(c) && x != c[n].inmem
      {
        var i :| 0 <= i < n && c'[i].busy && c'[i].inmem == x;
        assert SlotOK(c[i], m[i], disk);
        assert c[i].busy && c[i].inmem == x;
      }
      assert c[n].inmem in Wired(c);
      assert Wired(c) >= Wired(c') + {c[n].inmem};
      Subset(Wired(c') + {c[n].inmem}, Wired(c));
    }
  }

  lemma FreeSlot(c: seq<Control>, m: seq<Block>, disk: map<int, Block>)
    requires SlotsOK(c, m, disk) && |Wired(c)| < |c|
    ensures exists i :: 0 <= i < |c| && !c[i].busy
  {
    if forall i :: 0 <= i < |c| ==> c[i].busy {
      WiredBound(c, m, disk);
    }
  }

  /** Writing a slot to disk. */
  lemma Written(c: seq<Control>, m: seq<Block>, disk: map<int, Block>, i: nat, disk': map<int, Block>)
    requires SlotsOK(c, m, disk) && i < |c|
    requires c[i].writes != 0 ==> disk' == disk[c[i].inmem := m[i]]
    requires c[i].writes == 0 ==> disk' == disk
    ensures var c' := c[i := c[i].(writes := 0)];
            && SlotsOK(c', m, disk') && View(c', m, disk') == View(c, m, disk) && Wired(c') == Wired(c)
            && disk'.Keys == disk.Keys
  {
    hide Where, View, Wired;
    var c' := c[i := c[i].(writes := 0)];
    assert SlotOK(c[i], m[i], disk);
    forall j | 0 <= j < |c|
      ensures SlotOK(c'[j], m[j], disk') && c'[j].inmem == c[j].inmem && c'[j].busy == c[j].busy
    {
      assert SlotOK(c[j], m[j], disk);
    }
    assert disk'.Keys == disk.Keys;
    forall b
      ensures b in View(c', m, disk') <==> b in View(c, m, disk)
      ensures b in View(c, m, disk) ==> View(c', m, disk')[b] == View(c, m, disk)[b]
    {
      WhereSame(c, c', b);
      WhereFirst(c, b);
      ViewAt(c, m, disk, b);
      ViewAt(c', m, disk', b);
      WrittenAt(c, m, i, b);
    }
    assert View(c', m, disk') == View(c, m, disk);
    WiredSame(c, c');
  }

  lemma WrittenAt(c: seq<Control>, m: seq<Block>, i: nat, b: int)
    requires |c| == |m| && i < |c|
    ensures c[i].inmem == b ==> Where(c, b) < |c|
  {
    WhereFirst(c, b);
  }

  /** A clean slot that is not wired takes a block that is in no slot. */
  lemma Loaded(c: seq<Control>, m: seq<Block>, disk: map<int, Block>, i: nat, b: int)
    requires SlotsOK(c, m, disk) && i < |c| && c[i].writes == 0 && !c[i].busy
    requires b in disk && Where(c, b) == |c|
    ensures var c', m' := c[i := c[i].(inmem := b)], m[i := disk[b]];
            && SlotsOK(c', m', disk) && View(c', m', disk) == View(c, m, disk) && Wired(c') == Wired(c)
            && Where(c', b) == i && m'[i] == View(c, m, disk)[b]
  {
    hide Where, View, Wired;
    var c', m' := c[i := c[i].(inmem := b)], m[i := disk[b]];
    WhereFirst(c, b);
    forall j | 0 <= j < |c|
      ensures SlotOK(c'[j], m'[j], disk)
    {
      assert SlotOK(c[j], m[j], disk);
    }
    WhereFirst(c', b);
    ViewAt(c, m, disk, b);
    forall x
      ensures x in View(c', m', disk) <==> x in View(c, m, disk)
      ensures x in View(c, m, disk) ==> View(c', m', disk)[x] == View(c, m, disk)[x]
    {
      ViewAt(c, m, disk, x);
      ViewAt(c', m', disk, x);
      if x in disk {
        LoadedAt(c, m, disk, i, b, x);
      }
    }
    assert View(c', m', disk) == View(c, m, disk);
    WiredSame(c, c');
  }

  /** One block of the file while slot i changes hands. */
  lemma LoadedAt(c: seq<Control>, m: seq<Block>, disk: map<int, Block>, i: nat, b: int, x: int)
    requires SlotsOK(c, m, disk) && i < |c| && c[i].writes == 0 && b in disk && Where(c, b) == |c| && x in disk
    ensures var c', m' := c[i := c[i].(inmem := b)], m[i := disk[b]];
            (if Where(c', x) < |c'| then m'[Where(c', x)] else disk[x])
            == if Where(c, x) < |c| then m[Where(c, x)] else disk[x]
  {
    hide Where, View, Wired;
    var c' := c[i := c[i].(inmem := b)];
    WhereFirst(c, x);
    WhereFirst(c', x);
    assert SlotOK(c[i], m[i], disk);
    var w, w' := Where(c, x), Where(c', x);
    if x != b {
      if w < |c| && w != i {
        assert c'[w].inmem == x;
      }
      if w' < |c| {
        assert w' != i && c[w'].inmem == x;
      }
    }
  }

  /** A resident block gets a new image. */
  lemma Stored(c: seq<Control>, m: seq<Block>, disk: map<int, Block>, i: nat, img: Block, k: nat)
    requires SlotsOK(c, m, disk) && i < |c| && c[i].inmem >= 0
    ensures var c', m' := c[i := c[i].(writes := c[i].writes + k)], m[i := img];
            && (k > 0 || c[i].writes > 0 ==> SlotsOK(c', m', disk)) && View(c', m', disk) == View(c, m, disk)[c[i].inmem := img]
            && Wired(c') == Wired(c) && Where(c', c[i].inmem) == i
  {
    hide Where, View, Wired;
    var c', m' := c[i := c[i].(writes := c[i].writes + k)], m[i := img];
    assert SlotOK(c[i], m[i], disk);
    forall j | 0 <= j < |c|
      ensures c'[j].inmem == c[j].inmem && (j != i || k > 0 || c[i].writes > 0 ==> SlotOK(c'[j], m'[j], disk))
    {
      assert SlotOK(c[j], m[j], disk);
    }
    WhereIs(c, m, disk, i);
    WhereSame(c, c', c[i].inmem);
    forall x
      ensures x in View(c', m', disk) <==> x in View(c, m, disk)[c[i].inmem := img]
      ensures x in View(c', m', disk) ==> View(c', m', disk)[x] == View(c, m, disk)[c[i].inmem := img][x]
    {
      ViewAt(c, m, disk, x);
      ViewAt(c', m', disk, x);
      WhereSame(c, c', x);
      WhereFirst(c, x);
    }
    assert View(c', m', disk) == View(c, m, disk)[c[i].inmem := img];
    WiredSame(c, c');
  }

  /** A clean slot that differs from disk is what the invariant rules out. */
  lemma StoredClean(c: seq<Control>, m: seq<Block>, disk: map<int, Block>, i: nat, img: Block)
    requires SlotsOK(c, m, disk) && i < |c| && c[i].inmem >= 0 && c[i].writes == 0
    ensures SlotsOK(c, m[i := img], disk) <==> img == m[i]
    ensures c[i].inmem in disk && disk[c[i].inmem] == m[i]
  {
    assert SlotOK(c[i], m[i], disk);
    assert SlotsOK(c, m[i := img], disk) ==> SlotOK(c[i], m[i := img][i], disk);
    if img == m[i] {
      assert m[i := img] == m;
    }
  }

  lemma NoneCopied(t: Block, f: Block, ts: nat, fs: nat)
    requires ts <= ZMXKEY && fs <= ZMXKEY
    ensures CopyKeys(t, f, ts, fs, 0) == t <==> t.link[ts] == f.link[fs]
  {
    var b := CopyKeys(t, f, ts, fs, 0);
    assert b.key == t.key;
    assert b.link == t.link[ts := f.link[fs]];
    if b == t {
      assert b.link[ts] == f.link[fs];
    }
  }

  lemma WiredSame(c: seq<Control>, c': seq<Control>)
    requires |c'| == |c|
    requires forall i :: 0 <= i < |c| ==> c'[i].busy == c[i].busy && (c[i].busy ==> c'[i].inmem == c[i].inmem)
    ensures Wired(c') == Wired(c)
  {
  }

  lemma WiredChange(c: seq<Control>, m: seq<Block>, disk: map<int, Block>, i: nat, busy: bool)
    requires SlotsOK(c, m, disk) && i < |c| && c[i].inmem >= 0
    ensures var c' := c[i := c[i].(busy := busy)];
            && SlotsOK(c', m, disk) && View(c', m, disk) == View(c, m, disk)
            && Wired(c') == (if busy then Wired(c) + {c[i].inmem} else Wired(c) - {c[i].inmem})
  {
    hide Where, View, Wired;
    var c' := c[i := c[i].(busy := busy)];
    forall j | 0 <= j < |c|
      ensures SlotOK(c'[j], m[j], disk) && c'[j].inmem == c[j].inmem
    {
      assert SlotOK(c[j], m[j], disk);
    }
    forall x
      ensures x in View(c', m, disk) <==> x in View(c, m, disk)
      ensures x in View(c, m, disk) ==> View(c', m, disk)[x] == View(c, m, disk)[x]
    {
      ViewAt(c, m, disk, x);
      ViewAt(c', m, disk, x);
      WhereSame(c, c', x);
    }
    assert View(c', m, disk) == View(c, m, disk);
    forall x
      ensures x in Wired(c') <==> if busy then x in Wired(c) || x == c[i].inmem else x in Wired(c) && x != c[i].inmem
    {
      WiredAt(c, c', i, busy, x);
    }
  }

  lemma WiredAt(c: seq<Control>, c': seq<Control>, i: nat, busy: bool, x: int)
    requires i < |c| && c' == c[i := c[i].(busy := busy)]
    requires forall j, k :: 0 <= j < k < |c| ==> c[j].inmem < 0 || c[j].inmem != c[k].inmem
    requires c[i].inmem >= 0
    ensures x in Wired(c') <==> if busy then x in Wired(c) || x == c[i].inmem else x in Wired(c) && x != c[i].inmem
  {
    if x in Wired(c) {
      var j :| 0 <= j < |c| && c[j].busy && c[j].inmem == x;
      assert j != i ==> c'[j].busy && c'[j].inmem == x;
    }
    if busy {
      assert c'[i].busy && c'[i].inmem == c[i].inmem;
    }
    if x in Wired(c') {
      var j :| 0 <= j < |c'| && c'[j].busy && c'[j].inmem == x;
      assert j != i ==> c[j].busy && c[j].inmem == x;
    }
  }

  class Cache {
    const cntrl: array<Control>
    const memrec: array<Block>
    var lruh: int
    var lrut: int
    var disk: map<int, Block>
    ghost var queue: seq<int>       // the slots from least to most recently used

    ghost predicate Valid()
      reads this, cntrl, memrec
    {
      && cntrl.Length == memrec.Length >= 3
      && SlotsOK(cntrl[..], memrec[..], disk)
      && Chain(cntrl[..], lruh, lrut, queue) && Full(cntrl.Length, queue)
    }

    /** The file as seen through the cache. */
    ghost function File(): map<int, Block>
      requires cntrl.Length == memrec.Length
      reads this, cntrl, memrec
    {
      View(cntrl[..], memrec[..], disk)
    }

    ghost function Busy(): set<int>
      reads this, cntrl
    {
      Wired(cntrl[..])
    }

    /** The block's slot has changes that are not on disk. */
    ghost predicate Dirty(blk: int)
      reads this, cntrl
    {
      Resident(blk) && cntrl[Where(cntrl[..], blk)].writes > 0
    }

    ghost predicate Resident(blk: int)
      reads this, cntrl
    {
      Where(cntrl[..], blk) < cntrl.Length
    }

    /** initcntrl: all slots empty, in the list in order of their numbers. */
    method InitControl()
      requires cntrl.Length == memrec.Length >= 3 && forall b :: b in disk ==> 0 <= b
      modifies this`lruh, this`lrut, this`queue, cntrl
      ensures Valid() && File() == disk && Busy() == {}
      ensures queue == CountUp(cntrl.Length) && forall i :: 0 <= i < cntrl.Length ==> cntrl[i].inmem == -1
    {
      lrut := -1;
      lruh := -1;
      queue := [];
      var i := 0;
      while i < cntrl.Length
        invariant 0 <= i <= cntrl.Length
        invariant queue == CountUp(i)
        invariant Chain(cntrl[..], lruh, lrut, queue)
        invariant forall k :: 0 <= k < i ==> cntrl[k].inmem == -1 && !cntrl[k].busy && cntrl[k].writes == 0
        invariant i > 0 ==> lruh >= 0
      {
        ghost var c := cntrl[..];
        cntrl[i] := cntrl[i].(inmem := -1, busy := false, writes := 0);
        ChainSame(c, cntrl[..], lruh, lrut, queue);
        CountUpAt(i);
        QueueAdd(i);
        i := i + 1;
      }
      CountUpAt(i);
      AllEmpty(cntrl[..], memrec[..], disk);
    }

    /** bqadd: a slot joins the end of the list. */
    method QueueAdd(idx: int)
      requires 0 <= idx < cntrl.Length && Chain(cntrl[..], lruh, lrut, queue) && idx !in queue
      modifies this`lruh, this`lrut, this`queue, cntrl
      ensures Chain(cntrl[..], lruh, lrut, queue) && queue == old(queue) + [idx]
      ensures SameSlots(old(cntrl[..]), cntrl[..])
    {
      ghost var c, h, t := cntrl[..], lruh, lrut;
      if lruh < 0 {
        lruh := idx;
      } else {
        cntrl[lrut] := cntrl[lrut].(lrunxt := idx);
      }
      lrut := idx;
      cntrl[idx] := cntrl[idx].(lrunxt := -1);
      ChainAdd(c, cntrl[..], h, t, queue, idx);
      queue := queue + [idx];
    }

    /** bqmove: a slot becomes the most recently used one. */
    method QueueMove(idx: int)
      requires 0 <= idx < cntrl.Length
      requires Chain(cntrl[..], lruh, lrut, queue) && Full(cntrl.Length, queue)
      modifies this`lruh, this`lrut, this`queue, cntrl
      ensures Chain(cntrl[..], lruh, lrut, queue) && Full(cntrl.Length, queue) && lrut == idx
      ensures SameSlots(old(cntrl[..]), cntrl[..])
      ensures idx in old(queue) && queue == MoveToEnd(old(queue), Position(old(queue), idx))
    {
      assert idx in queue;
      ghost var c, h, t, q := cntrl[..], lruh, lrut, queue;
      ghost var j := Position(queue, idx);
      if idx == lrut {
        assert j == |q| - 1;
        assert MoveToEnd(q, j) == q;
        return;
      }
      assert j < |q| - 1;
      if idx == lruh {
        assert j == 0;
        lruh := cntrl[idx].lrunxt;
      } else {
        var i := lruh;
        ghost var k := 0;
        while i >= 0 && cntrl[i].lrunxt != idx
          invariant 0 <= k < j && i == q[k]
          decreases j - k
        {
          assert c[q[k]].lrunxt == q[k + 1];
          i := cntrl[i].lrunxt;
          k := k + 1;
        }
        assert c[q[k]].lrunxt == q[k + 1];
        assert k == j - 1;
        cntrl[i] := cntrl[i].(lrunxt := cntrl[idx].lrunxt);
      }
      cntrl[lrut] := cntrl[lrut].(lrunxt := idx);
      cntrl[idx] := cntrl[idx].(lrunxt := -1);
      lrut := idx;
      ChainMove(c, cntrl[..], h, t, q, j);
      MoveKeeps(cntrl.Length, q, j);
      queue := MoveToEnd(q, j);
    }

    /** The head of the list goes to its end: one pass of bqhead. */
    method MoveHead(ghost q: seq<int>, ghost k: nat)
      requires Chain(cntrl[..], lruh, lrut, queue) && Full(cntrl.Length, queue)
      requires k < |q| == cntrl.Length && queue == Rotate(q, k)
      modifies this`lruh, this`lrut, this`queue, cntrl
      ensures Chain(cntrl[..], lruh, lrut, queue) && Full(cntrl.Length, queue) && queue == Rotate(q, k + 1)
      ensures SameSlots(old(cntrl[..]), cntrl[..])
    {
      hide Chain, Full, SameSlots, Rotate, MoveToEnd, Position;
      RotateStep(q, k);
      FirstHead(cntrl[..], lruh, lrut, queue);
      FirstPlace(cntrl[..], lruh, lrut, queue);
      QueueMove(lruh);
    }

    /** bqhead: the least recently used slot that is not wired.  The wired ones
        before it become the most recently used. */
    method QueueHead() returns (idx: int)
      requires Chain(cntrl[..], lruh, lrut, queue) && Full(cntrl.Length, queue)
      requires exists i :: 0 <= i < cntrl.Length && !cntrl[i].busy
      modifies this`lruh, this`lrut, this`queue, cntrl
      ensures 0 <= idx < cntrl.Length && !cntrl[idx].busy
      ensures Chain(cntrl[..], lruh, lrut, queue) && Full(cntrl.Length, queue)
      ensures SameSlots(old(cntrl[..]), cntrl[..])
      ensures exists k :: 0 <= k < |old(queue)| && idx == old(queue)[k] && queue == Rotate(old(queue), k)
                && forall j :: 0 <= j < k ==> old(cntrl[..])[old(queue)[j]].busy
    {
      hide Chain, Full, SameSlots, Rotate, MoveToEnd, Position;
      ghost var c, q := cntrl[..], queue;
      ghost var free: int :| 0 <= free < |c| && !c[free].busy;
      ghost var last := Place(cntrl.Length, q, free);
      ghost var k: nat := 0;
      idx := lruh;
      FirstHead(c, lruh, lrut, q);
      AllSlots(c);
      while idx >= 0 && cntrl[idx].busy
        invariant 0 <= k <= last && queue == Rotate(q, k) && idx == lruh == q[k]
        invariant Chain(cntrl[..], lruh, lrut, queue) && Full(cntrl.Length, queue)
        invariant SameSlots(c, cntrl[..])
        invariant forall j :: 0 <= j < k ==> c[q[j]].busy
        decreases last - k
      {
        BusyStill(c, cntrl[..], q, k);
        ghost var c1 := cntrl[..];
        MoveHead(q, k);
        SlotsTrans(c, c1, cntrl[..]);
        k := k + 1;
        idx := lruh;
        FirstHead(cntrl[..], lruh, lrut, queue);
        RotateHead(q, k);
      }
      BusyStill(c, cntrl[..], q, k);
    }

    /** n passes of that loop over a list of wired slots only: the head is wired
        again, so the loop goes on. */
    method QueueSpin(n: nat) returns (ghost k: nat)
      requires Chain(cntrl[..], lruh, lrut, queue) && Full(cntrl.Length, queue) && cntrl.Length > 0
      requires forall i :: 0 <= i < cntrl.Length ==> cntrl[i].busy
      modifies this`lruh, this`lrut, this`queue, cntrl
      ensures Chain(cntrl[..], lruh, lrut, queue) && Full(cntrl.Length, queue)
      ensures 0 <= lruh < cntrl.Length && forall i :: 0 <= i < cntrl.Length ==> cntrl[i].busy
      ensures SameSlots(old(cntrl[..]), cntrl[..]) && k < cntrl.Length && queue == Rotate(old(queue), k)
    {
      hide Chain, Full, SameSlots, Rotate, MoveToEnd, Position;
      ghost var c, q := cntrl[..], queue;
      FirstHead(c, lruh, lrut, q);
      AllSlots(c);
      var pass := 0;
      k := 0;
      while pass < n
        invariant 0 <= pass <= n && k < |q| == cntrl.Length && queue == Rotate(q, k)
        invariant Chain(cntrl[..], lruh, lrut, queue) && Full(cntrl.Length, queue)
        invariant SameSlots(c, cntrl[..])
      {
        ghost var c1 := cntrl[..];
        MoveHead(q, k);
        SlotsTrans(c, c1, cntrl[..]);
        RoundTrip(q);
        pass := pass + 1;
        k := if k + 1 == cntrl.Length then 0 else k + 1;
      }
      FirstHead(cntrl[..], lruh, lrut, queue);
      AllBusy(c, cntrl[..]);
    }

    /** bwrblk: the block's slot goes to disk if it was written to. */
    method WriteBlock(blk: int)
      requires SlotsOK(cntrl[..], memrec[..], disk) && Resident(blk)
      modifies this`disk, cntrl
      ensures SlotsOK(cntrl[..], memrec[..], disk) && cntrl.Length == memrec.Length
      ensures File() == old(View(cntrl[..], memrec[..], disk)) && Busy() == old(Busy())
      ensures disk.Keys == old(disk.Keys)
      ensures var c, i := old(cntrl[..]), Where(old(cntrl[..]), blk); cntrl[..] == c[i := c[i].(writes := 0)]
      ensures blk in disk ==> blk in File() && disk[blk] == File()[blk]
      ensures old(Chain(cntrl[..], lruh, lrut, queue)) ==> Chain(cntrl[..], lruh, lrut, queue)
      ensures forall b :: b in disk && b != blk ==> disk[b] == old(disk)[b]
    {
      hide Where, View, Wired, Chain, SlotsOK, SlotOK;
      SlotsLength(cntrl[..], memrec[..], disk);
      ghost var c, d := cntrl[..], disk;
      var i := 0;
      while i < cntrl.Length && cntrl[i].inmem != blk
        invariant 0 <= i <= cntrl.Length && forall j :: 0 <= j < i ==> cntrl[j].inmem != blk
      {
        i := i + 1;
      }
      WhereFirst(c, blk);
      assert c[Where(c, blk)].inmem == blk;
      assert i == Where(c, blk);
      if cntrl[i].writes != 0 {
        disk := disk[blk := memrec[i]];
      }
      cntrl[i] := cntrl[i].(writes := 0);
      Written(c, memrec[..], d, i, disk);
      WrittenDisk(c, memrec[..], d, i, disk);
      if Chain(c, lruh, lrut, queue) {
        ChainSame(c, cntrl[..], lruh, lrut, queue);
      }
      assert cntrl[..] == c[i := c[i].(writes := 0)];
    }

    /** The choice of a slot: the first empty one, or the least recently used one
        that is not wired. */
    method ChooseSlot() returns (idx: int)
      requires Valid() && |Busy()| < cntrl.Length
      modifies this`lruh, this`lrut, this`queue, cntrl
      ensures 0 <= idx < cntrl.Length && !cntrl[idx].busy
      ensures Chain(cntrl[..], lruh, lrut, queue) && Full(cntrl.Length, queue) && SameSlots(old(cntrl[..]), cntrl[..])
      ensures Victim(old(cntrl[..]), old(queue), idx, queue)
    {
      hide Where, View, Wired, Chain, Full, SlotsOK, SameSlots, SlotOK, Victim, Rotate;
      idx := -1;
      var i := 0;
      while i < cntrl.Length && idx < 0
        invariant 0 <= i <= cntrl.Length && forall j :: 0 <= j < i ==> cntrl[j].inmem >= 0
        invariant idx < 0 || (idx == i < cntrl.Length && cntrl[idx].inmem < 0)
      {
        if cntrl[i].inmem < 0 {
          idx := i;
        } else {
          i := i + 1;
        }
      }
      ghost var c, m, d, q := cntrl[..], memrec[..], disk, queue;
      if idx < 0 {
        FreeSlot(c, m, d);
        QueueSlots(c, lruh, lrut, q);
        idx := QueueHead();
        ghost var k: nat :| k < |q| && idx == q[k] && queue == Rotate(q, k) && forall j :: 0 <= j < k ==> c[q[j]].busy;
        VictimOldest(c, q, k, idx, queue);
      } else {
        VictimEmpty(c, q, idx);
        AllSlots(c);
        SlotAt(c, m, d, idx);
      }
    }

    /** bgtslt: an empty slot, or the least recently used one that is not wired,
        written out. */
    method GetSlot() returns (idx: int)
      requires Valid() && |Busy()| < cntrl.Length
      modifies this`lruh, this`lrut, this`queue, this`disk, cntrl
      ensures Valid() && 0 <= idx < cntrl.Length && !cntrl[idx].busy && cntrl[idx].writes == 0
      ensures File() == old(File()) && Busy() == old(Busy()) && disk.Keys == old(disk.Keys)
      ensures forall b :: old(Where(cntrl[..], b)) == Where(cntrl[..], b)
      ensures Nearer(old(disk), disk, old(File()))
      ensures Held(old(cntrl[..]), cntrl[..])
      ensures Victim(old(cntrl[..]), old(queue), idx, queue) && OthersSame(old(cntrl[..]), cntrl[..], idx)
    {
      hide Where, View, Wired, Chain, Full, SlotsOK, SameSlots, SlotOK, Victim, OthersSame;
      ghost var c, m, d := cntrl[..], memrec[..], disk;
      idx := ChooseSlot();
      SameView(c, cntrl[..], m, d);
      OthersLinks(c, cntrl[..], idx);
      ghost var c1 := cntrl[..];
      SlotAt(c1, m, disk, idx);
      if cntrl[idx].inmem >= 0 {
        WriteBlock(cntrl[idx].inmem);
        ChainSame(c1, cntrl[..], lruh, lrut, queue);
        SlotsSame(c1, cntrl[..]);
      }
      OthersOne(c1, cntrl[..], idx);
      OthersTrans(c, c1, cntrl[..], idx);
      MakeNearer(d, disk, File());
      HeldTrans(c, c1, cntrl[..], idx);
    }

    /** brdblk: the block's slot, loaded if need be, and now the most recently
        used one. */
    method ReadBlock(blk: int) returns (idx: int)
      requires Valid() && blk in disk && (Resident(blk) || |Busy()| < cntrl.Length)
      modifies this`lruh, this`lrut, this`queue, this`disk, cntrl, memrec
      ensures Valid() && 0 <= idx < cntrl.Length && cntrl[idx].inmem == blk >= 0 && Resident(blk)
      ensures File() == old(File()) && Busy() == old(Busy()) && disk.Keys == old(disk.Keys)
      ensures blk in File() && memrec[idx] == File()[blk] && lrut == idx
      ensures Held(old(cntrl[..]), cntrl[..])
      ensures forall b :: b in Busy() && old(Dirty(b)) ==> Dirty(b)
      ensures Nearer(old(disk), disk, old(File()))
      ensures old(Resident(blk)) ==> SameSlots(old(cntrl[..]), cntrl[..]) && memrec[..] == old(memrec[..])
      ensures old(Resident(blk)) ==> UsedLast(old(queue), idx, queue)
      ensures !old(Resident(blk)) ==> exists q :: Victim(old(cntrl[..]), old(queue), idx, q) && UsedLast(q, idx, queue)
      ensures OthersSame(old(cntrl[..]), cntrl[..], idx)
      ensures forall j :: 0 <= j < cntrl.Length && j != idx ==> memrec[j] == old(memrec[j])
      ensures cntrl[idx].writes > 0 ==> old(Dirty(blk))
    {
      hide Where, View, Wired, Chain, Full, SlotsOK, SameSlots, SlotOK, Held, Victim, OthersSame, Position, MoveToEnd;
      idx := -1;
      var i := 0;
      ghost var c, m0, d0 := cntrl[..], memrec[..], disk;
      while i < cntrl.Length && idx < 0
        invariant 0 <= i <= cntrl.Length
        invariant if idx < 0 then forall j :: 0 <= j < i ==> cntrl[j].inmem != blk else idx == i < cntrl.Length && cntrl[i].inmem == blk
      {
        if cntrl[i].inmem == blk {
          idx := i;
        } else {
          i := i + 1;
        }
      }
      WhereFirst(c, blk);
      HeldSame(c);
      MakeNearer(d0, disk, File());
      if idx < 0 {
        i := GetSlot();
        ghost var c1, m1 := cntrl[..], memrec[..];
        memrec[i] := disk[blk];
        cntrl[i] := cntrl[i].(inmem := blk);
        assert cntrl[..] == c1[i := c1[i].(inmem := blk)] && memrec[..] == m1[i := disk[blk]];
        Loaded(c1, m1, disk, i, blk);
        ChainSame(c1, cntrl[..], lruh, lrut, queue);
        HeldMore(c, c1, cntrl[..], i);
        OthersOne(c1, cntrl[..], i);
        OthersTrans(c, c1, cntrl[..], i);
        idx := i;
      } else {
        OthersOne(c, c, idx);
      }
      ghost var c2, q2 := cntrl[..], queue;
      QueueMove(idx);
      OthersLinks(c2, cntrl[..], idx);
      OthersTrans(c, c2, cntrl[..], idx);
      assert UsedLast(q2, idx, queue);
      SameView(c2, cntrl[..], memrec[..], disk);
      SlotLike(c2, cntrl[..], idx);
      HeldSlots(c, c2, cntrl[..]);
      NoNegative(cntrl[..], memrec[..], disk);
      WhereIs(cntrl[..], memrec[..], disk, idx);
      HeldDirty(c, m0, d0, cntrl[..], memrec[..], disk);
    }

    /** bsetbs: wiring a block down, or releasing it. */
    method SetBusy(blk: int, busy: bool)
      requires Valid() && blk in disk && (Resident(blk) || |Busy()| < cntrl.Length)
      modifies this`lruh, this`lrut, this`queue, this`disk, cntrl, memrec
      ensures Valid() && File() == old(File()) && disk.Keys == old(disk.Keys)
      ensures Busy() == if busy then old(Busy()) + {blk} else old(Busy()) - {blk}
      ensures Nearer(old(disk), disk, old(File()))
      ensures Resident(blk) && (busy ==> 0 <= Where(cntrl[..], blk) < cntrl.Length && cntrl[Where(cntrl[..], blk)].busy)
      ensures old(Resident(blk)) ==> Settled(old(cntrl[..]), cntrl[..]) && memrec[..] == old(memrec[..])
    {
      hide Where, View, Wired, Chain, Full, SlotsOK, SameSlots, SlotOK, Settled, Held;
      ghost var c0 := cntrl[..];
      var idx := ReadBlock(blk);
      ghost var c := cntrl[..];
      cntrl[idx] := cntrl[idx].(busy := busy);
      assert cntrl[..] == c[idx := c[idx].(busy := busy)];
      WiredChange(c, memrec[..], disk, idx, busy);
      ChainSame(c, cntrl[..], lruh, lrut, queue);
      SlotAt(cntrl[..], memrec[..], disk, idx);
      SettledBusy(c0, c, cntrl[..], idx, busy);
    }

    /** What a routine that changes a block in place does: brdblk, the change, and
        at least one more write counted. */
    method Update(blk: int, img: Block, count: nat)
      requires Valid() && blk in disk && (Resident(blk) || |Busy()| < cntrl.Length) && (count > 0 || Dirty(blk))
      modifies this`lruh, this`lrut, this`queue, this`disk, cntrl, memrec
      ensures Valid() && File() == old(File())[blk := img] && Busy() == old(Busy()) && disk.Keys == old(disk.Keys)
      ensures Nearer(old(disk), disk, old(File()))
      ensures Dirty(blk) && Held(Except(old(cntrl[..]), blk), Except(cntrl[..], blk))
    {
      hide Where, View, Wired, Chain, Full, SlotsOK, SameSlots, SlotOK;
      ghost var c0 := cntrl[..];
      var idx := ReadBlock(blk);
      ghost var c, m := cntrl[..], memrec[..];
      SlotAt(c, m, disk, idx);
      StillDirty(c0, c, idx, blk);
      memrec[idx] := img;
      cntrl[idx] := cntrl[idx].(writes := cntrl[idx].writes + count);
      assert cntrl[..] == c[idx := c[idx].(writes := c[idx].writes + count)] && memrec[..] == m[idx := img];
      Stored(c, m, disk, idx, img, count);
      ChainSame(c, cntrl[..], lruh, lrut, queue);
      SlotAt(cntrl[..], memrec[..], disk, idx);
      HeldExcept(old(cntrl[..]), c, cntrl[..], idx, blk);
    }

    /** bcpybk's way to two blocks: the to-block is wired down while the from-block
        is read, so that both are in memory in the end. */
    method ReadBoth(t: int, f: int) returns (tidx: int, fidx: int)
      requires Valid() && t in disk && f in disk && t != f
      requires Resident(t) || |Busy()| < cntrl.Length
      requires f in Busy() || |Busy() + {t}| < cntrl.Length
      modifies this`lruh, this`lrut, this`queue, this`disk, cntrl, memrec
      ensures Valid() && File() == old(File()) && Busy() == old(Busy()) - {t} && disk.Keys == old(disk.Keys)
      ensures 0 <= tidx < cntrl.Length && 0 <= fidx < cntrl.Length
      ensures cntrl[tidx].inmem == t >= 0 && cntrl[fidx].inmem == f >= 0
      ensures old(Dirty(t)) <==> cntrl[tidx].writes > 0
    {
      hide Where, View, Wired, Chain, Full, SlotsOK, SameSlots, SlotOK, CopyKeys, Settled, Held;
      ghost var c0 := cntrl[..];
      BusyResident(c0, memrec[..], disk, f);
      tidx := ReadBlock(t);
      ghost var c1 := cntrl[..];
      WhereIs(c1, memrec[..], disk, tidx);
      SetBusy(t, true);
      ghost var c2, m2, d2 := cntrl[..], memrec[..], disk;
      HeldWired(c0, c1, c2, t, f);
      BusyResident(c2, memrec[..], disk, f);
      fidx := ReadBlock(f);
      ghost var c3 := cntrl[..];
      KeptSlot(c1, c2, m2, d2, c3, memrec[..], disk, tidx, t);
      SlotAt(c3, memrec[..], disk, fidx);
      SetBusy(t, false);
      SettledAt(c3, cntrl[..], tidx);
      SettledAt(c3, cntrl[..], fidx);
      StillDirty(c0, c1, tidx, t);
    }

    /** bcpybk.  A copy of no keys changes a link without counting a write: in a
        clean slot that link is lost unless it was the same before. */
    method CopyBlock(t: int, f: int, ts: nat, fs: nat, n: nat)
      requires Valid() && t in disk && f in disk && t != f && ts + n <= ZMXKEY && fs + n <= ZMXKEY
      requires Resident(t) || |Busy()| < cntrl.Length
      requires f in Busy() || |Busy() + {t}| < cntrl.Length
      modifies this`lruh, this`lrut, this`queue, this`disk, cntrl, memrec
      ensures t in old(File()) && f in old(File()) && t in File()
      ensures File() == old(File())[t := CopyKeys(old(File()[t]), old(File()[f]), ts, fs, n)]
      ensures Busy() == old(Busy()) - {t} && disk.Keys == old(disk.Keys)
      ensures Valid() <==> n > 0 || old(Dirty(t)) || old(File()[t]).link[ts] == old(File()[f]).link[fs]
      ensures if n > 0 || old(Dirty(t)) then Dirty(t) else !Dirty(t) && disk[t] == old(File()[t])
    {
      hide Where, View, Wired, Chain, Full, SlotsOK, SameSlots, SlotOK, CopyKeys, Settled, Held;
      var tidx, fidx := ReadBoth(t, f);
      ghost var c4, m := cntrl[..], memrec[..];
      WhereIs(c4, m, disk, tidx);
      WhereIs(c4, m, disk, fidx);
      SlotAt(c4, m, disk, tidx);
      memrec[tidx] := CopyKeys(memrec[tidx], memrec[fidx], ts, fs, n);
      cntrl[tidx] := cntrl[tidx].(writes := cntrl[tidx].writes + n);
      assert cntrl[..] == c4[tidx := c4[tidx].(writes := c4[tidx].writes + n)];
      assert memrec[..] == m[tidx := CopyKeys(m[tidx], m[fidx], ts, fs, n)];
      Stored(c4, m, disk, tidx, CopyKeys(m[tidx], m[fidx], ts, fs, n), n);
      if c4[tidx].writes + n == 0 {
        StoredClean(c4, m, disk, tidx, CopyKeys(m[tidx], m[fidx], ts, fs, n));
        assert cntrl[..] == c4;
        NoneCopied(m[tidx], m[fidx], ts, fs);
      }
      ChainSame(c4, cntrl[..], lruh, lrut, queue);
    }

    /** The end-of-file part of bgtfre: a slot becomes a new block and is written
        at once.  The new block holds whatever the slot held. */
    method Append(blk: int)
      requires Valid() && blk !in disk && 0 <= blk && |Busy()| < cntrl.Length
      modifies this`lruh, this`lrut, this`queue, this`disk, cntrl, memrec
      ensures Valid() && blk in File() && File() == old(File())[blk := File()[blk]] && Busy() == old(Busy())
      ensures disk.Keys == old(disk.Keys) + {blk} && disk[blk] == File()[blk]
    {
      hide Where, View, Wired, Chain, Full, SlotsOK, SameSlots, SlotOK;
      var idx := GetSlot();
      ghost var c0 := cntrl[..];
      QueueMove(idx);
      SameView(c0, cntrl[..], memrec[..], disk);
      SlotLike(c0, cntrl[..], idx);
      ghost var c, m, d := cntrl[..], memrec[..], disk;
      cntrl[idx] := cntrl[idx].(inmem := blk);
      cntrl[idx] := cntrl[idx].(writes := 1);
      if cntrl[idx].writes != 0 {  // bwrblk finds this slot
        disk := disk[blk := memrec[idx]];
      }
      cntrl[idx] := cntrl[idx].(writes := 0);
      assert cntrl[..] == c[idx := c[idx].(inmem := blk)] && memrec[..] == m;
      Appended(c, m, d, idx, blk);
      ChainSame(c, cntrl[..], lruh, lrut, queue);
    }

    /** The loop of btsync: every slot goes to disk if it was written to. */
    method WriteAll()
      requires Valid()
      modifies this`disk, cntrl
      ensures Valid() && File() == old(File()) == disk && Busy() == old(Busy()) && disk.Keys == old(disk.Keys)
      ensures forall b :: old(Resident(b)) ==> Resident(b)
    {
      hide Where, View, Wired, Chain, Full, SlotsOK, SameSlots, SlotOK;
      ghost var c0 := cntrl[..];
      var i := 0;
      while i < cntrl.Length
        invariant 0 <= i <= cntrl.Length && SlotsOK(cntrl[..], memrec[..], disk)
        invariant File() == old(File()) && Busy() == old(Busy()) && disk.Keys == old(disk.Keys)
        invariant forall j :: 0 <= j < cntrl.Length ==> cntrl[..][j] == c0[j].(writes := cntrl[j].writes)
        invariant forall j :: 0 <= j < i ==> cntrl[j].writes == 0
      {
        ghost var c := cntrl[..];
        FirstClean(c, memrec[..], disk, i);
        WriteBlock(cntrl[i].inmem);
        i := i + 1;
      }
      AllClean(cntrl[..], memrec[..], disk);
      ChainSame(c0, cntrl[..], lruh, lrut, queue);
      SlotsSame(c0, cntrl[..]);
    }
  }

  ghost function CountUp(n: nat): seq<int> {
    if n == 0 then [] else CountUp(n - 1) + [n - 1]
  }

  lemma {:induction false} CountUpAt(n: nat)
    ensures |CountUp(n)| == n && (forall k :: 0 <= k < n ==> CountUp(n)[k] == k)
    ensures Full(n, CountUp(n)) && n !in CountUp(n)
    ensures CountUp(n + 1) == CountUp(n) + [n]
  {
    if n > 0 {
      CountUpAt(n - 1);
    }
    forall i | 0 <= i < n
      ensures i in CountUp(n)
    {
      assert CountUp(n)[i] == i;
    }
  }

  lemma FirstPlace(c: seq<Control>, head: int, tail: int, q: seq<int>)
    requires Chain(c, head, tail, q) && |q| > 0
    ensures head == q[0] && 0 <= head < |c| && Position(q, head) == 0
  {
  }

  lemma FirstHead(c: seq<Control>, head: int, tail: int, q: seq<int>)
    requires Chain(c, head, tail, q) && Full(|c|, q) && |c| > 0
    ensures |q| == |c| && head == q[0] && Rotate(q, 0) == q && forall k :: 0 <= k < |q| ==> 0 <= q[k] < |c|
  {
  }

  ghost function Place(n: int, q: seq<int>, i: int): (k: nat)
    requires Full(n, q) && 0 <= i < n
    ensures k < |q| && q[k] == i
  {
    Position(q, i)
  }

  lemma RoundTrip(q: seq<int>)
    ensures Rotate(q, |q|) == Rotate(q, 0)
  {
  }

  lemma AllSlots(c: seq<Control>)
    ensures SameSlots(c, c)
  {
  }

  lemma SlotsTrans(c: seq<Control>, c1: seq<Control>, c2: seq<Control>)
    requires SameSlots(c, c1) && SameSlots(c1, c2)
    ensures SameSlots(c, c2)
  {
    assert forall i :: 0 <= i < |c| ==> c1[i] == c[i].(lrunxt := c1[i].lrunxt);
  }

  lemma BusyStill(c: seq<Control>, c1: seq<Control>, q: seq<int>, k: nat)
    requires SameSlots(c, c1) && k < |q| && 0 <= q[k] < |c|
    ensures |c1| == |c| && c1[q[k]].busy == c[q[k]].busy
  {
  }

  lemma AllBusy(c: seq<Control>, c1: seq<Control>)
    requires SameSlots(c, c1) && forall i :: 0 <= i < |c| ==> c[i].busy
    ensures |c1| == |c| && forall i :: 0 <= i < |c1| ==> c1[i].busy
  {
  }

  lemma QueueSlots(c: seq<Control>, head: int, tail: int, q: seq<int>)
    requires Chain(c, head, tail, q)
    ensures forall k :: 0 <= k < |q| ==> 0 <= q[k] < |c|
  {
  }

  lemma RotateHead(q: seq<int>, k: nat)
    requires k < |q|
    ensures Rotate(q, k)[0] == q[k]
  {
  }

  lemma AllEmpty(c: seq<Control>, m: seq<Block>, disk: map<int, Block>)
    requires |c| == |m| && forall b :: b in disk ==> 0 <= b
    requires forall k :: 0 <= k < |c| ==> c[k].inmem == -1 && !c[k].busy && c[k].writes == 0
    ensures SlotsOK(c, m, disk) && View(c, m, disk) == disk && Wired(c) == {}
  {
    forall b | b in disk
      ensures Where(c, b) == |c|
    {
      WhereFirst(c, b);
    }
  }

  lemma SlotsLength(c: seq<Control>, m: seq<Block>, disk: map<int, Block>)
    requires SlotsOK(c, m, disk)
    ensures |c| == |m|
  {
  }

  lemma NoNegative(c: seq<Control>, m: seq<Block>, disk: map<int, Block>)
    requires SlotsOK(c, m, disk)
    ensures forall b :: b in disk ==> 0 <= b
  {
  }

  /** Wired slots keep their block and their count of writes. */
  ghost predicate Held(c: seq<Control>, c': seq<Control>) {
    |c'| == |c| && forall i :: 0 <= i < |c| && c[i].busy ==>
      c'[i].busy && c'[i].inmem == c[i].inmem && c'[i].writes == c[i].writes
  }

  lemma HeldTrans(c: seq<Control>, c1: seq<Control>, c2: seq<Control>, idx: nat)
    requires c1 == c || SameSlots(c, c1)
    requires idx < |c1| && !c1[idx].busy && |c2| == |c1|
    requires forall i :: 0 <= i < |c1| && i != idx ==>
               c2[i].busy == c1[i].busy && c2[i].inmem == c1[i].inmem && c2[i].writes == c1[i].writes
    ensures Held(c, c2)
  {
    if c1 != c {
      assert forall i :: 0 <= i < |c| ==> c1[i].busy == c[i].busy && c1[i].inmem == c[i].inmem && c1[i].writes == c[i].writes;
    }
  }

  /** The slots with one block's out of sight. */
  ghost function Except(c: seq<Control>, blk: int): seq<Control> {
    seq(|c|, i requires 0 <= i < |c| => if c[i].inmem == blk then c[i].(busy := false) else c[i])
  }

  lemma HeldExcept(c: seq<Control>, c1: seq<Control>, c2: seq<Control>, idx: nat, blk: int)
    requires Held(c, c1) && idx < |c1| && c1[idx].inmem == blk && |c2| == |c1|
    requires forall i :: 0 <= i < |c1| && i != idx ==> c2[i] == c1[i]
    requires c2[idx].inmem == blk
    ensures Held(Except(c, blk), Except(c2, blk))
  {
  }

  lemma HeldSame(c: seq<Control>)
    ensures Held(c, c)
  {
  }

  lemma HeldMore(c: seq<Control>, c1: seq<Control>, c2: seq<Control>, idx: nat)
    requires Held(c, c1) && idx < |c1| && !c1[idx].busy && |c2| == |c1|
    requires forall i :: 0 <= i < |c1| && i != idx ==> c2[i] == c1[i]
    ensures Held(c, c2)
  {
  }

  lemma HeldSlots(c: seq<Control>, c1: seq<Control>, c2: seq<Control>)
    requires Held(c, c1) && SameSlots(c1, c2)
    ensures Held(c, c2)
    ensures c1 == c ==> SameSlots(c, c2)
  {
    assert forall i :: 0 <= i < |c1| ==> c2[i].busy == c1[i].busy && c2[i].inmem == c1[i].inmem && c2[i].writes == c1[i].writes;
  }

  lemma SlotLike(c: seq<Control>, c': seq<Control>, i: nat)
    requires SameSlots(c, c') && i < |c|
    ensures |c'| == |c| && c'[i].inmem == c[i].inmem && c'[i].busy == c[i].busy && c'[i].writes == c[i].writes
  {
  }

  lemma HeldDirty(c: seq<Control>, m: seq<Block>, disk: map<int, Block>, c': seq<Control>, m': seq<Block>,
                  disk': map<int, Block>)
    requires SlotsOK(c, m, disk) && SlotsOK(c', m', disk') && Held(c, c')
    ensures forall b :: b in Wired(c) && Where(c, b) < |c| && c[Where(c, b)].writes > 0
              ==> Where(c', b) < |c'| && c'[Where(c', b)].writes > 0
  {
    hide Where, Wired;
    forall b | b in Wired(c) && Where(c, b) < |c| && c[Where(c, b)].writes > 0
      ensures Where(c', b) < |c'| && c'[Where(c', b)].writes > 0
    {
      BusyResident(c, m, disk, b);
      WhereFirst(c, b);
      var i := Where(c, b);
      assert SlotOK(c[i], m[i], disk);
      WhereIs(c', m', disk', i);
    }
  }

  /** Slots keep their blocks and counts of writes. */
  ghost predicate Settled(c: seq<Control>, c': seq<Control>) {
    |c'| == |c| && forall i :: 0 <= i < |c| ==> c'[i].inmem == c[i].inmem && c'[i].writes == c[i].writes
  }

  lemma SettledBusy(c0: seq<Control>, c: seq<Control>, c': seq<Control>, i: nat, busy: bool)
    requires i < |c| && c' == c[i := c[i].(busy := busy)]
    ensures SameSlots(c0, c) ==> Settled(c0, c')
  {
    if SameSlots(c0, c) {
      assert forall j :: 0 <= j < |c0| ==> c[j].inmem == c0[j].inmem && c[j].writes == c0[j].writes;
    }
  }

  lemma SettledAt(c: seq<Control>, c': seq<Control>, i: nat)
    requires Settled(c, c') && i < |c|
    ensures |c'| == |c| && c'[i].inmem == c[i].inmem && c'[i].writes == c[i].writes
  {
  }

  lemma BusyResident(c: seq<Control>, m: seq<Block>, disk: map<int, Block>, b: int)
    requires SlotsOK(c, m, disk)
    ensures b in Wired(c) ==> Where(c, b) < |c| && c[Where(c, b)].busy
  {
    if b in Wired(c) {
      var i :| 0 <= i < |c| && c[i].busy && c[i].inmem == b;
      assert SlotOK(c[i], m[i], disk);
      WhereIs(c, m, disk, i);
    }
  }

  lemma HeldWired(c0: seq<Control>, c1: seq<Control>, c2: seq<Control>, t: int, f: int)
    requires Wired(c1) == Wired(c0) && Wired(c2) == Wired(c1) + {t}
    ensures f in Wired(c0) ==> f in Wired(c2)
    ensures Wired(c2) == Wired(c0) + {t} && Wired(c2) - {t} == Wired(c0) - {t}
  {
  }

  lemma KeptSlot(c1: seq<Control>, c2: seq<Control>, m2: seq<Block>, disk2: map<int, Block>, c3: seq<Control>,
                 m: seq<Block>, disk: map<int, Block>, i: nat, t: int)
    requires i < |c1| && c1[i].inmem == t >= 0 && Settled(c1, c2) && Held(c2, c3)
    requires Where(c2, t) < |c2| && c2[Where(c2, t)].busy
    requires SlotsOK(c2, m2, disk2) && SlotsOK(c3, m, disk)
    ensures i < |c3| && c3[i].inmem == t && c3[i].writes == c1[i].writes && Where(c3, t) == i
  {
    WhereIs(c2, m2, disk2, i);
    WhereIs(c3, m, disk, i);
  }

  lemma StillDirty(c0: seq<Control>, c1: seq<Control>, i: nat, t: int)
    requires |c1| == |c0| && i < |c1| && c1[i].inmem == t
    requires Where(c0, t) < |c0| ==> SameSlots(c0, c1)
    requires Where(c1, t) == i
    ensures Where(c0, t) < |c0| ==> c1[i].writes == c0[Where(c0, t)].writes
  {
    if Where(c0, t) < |c0| {
      assert forall j :: 0 <= j < |c0| ==> c1[j].inmem == c0[j].inmem && c1[j].writes == c0[j].writes;
      WhereSame(c0, c1, t);
    }
  }

  lemma SlotAt(c: seq<Control>, m: seq<Block>, disk: map<int, Block>, i: nat)
    requires SlotsOK(c, m, disk) && i < |c|
    ensures c[i].inmem >= 0 ==> Where(c, c[i].inmem) == i && c[i].inmem in disk
    ensures c[i].inmem < 0 ==> c[i].writes == 0 && !c[i].busy
    ensures c[i].writes >= 0
  {
    assert SlotOK(c[i], m[i], disk);
    if c[i].inmem >= 0 {
      WhereIs(c, m, disk, i);
    }
  }

  /** The disk came closer to the file as it is seen. */
  ghost predicate Nearer(disk: map<int, Block>, disk': map<int, Block>, file: map<int, Block>) {
    disk'.Keys == disk.Keys && forall b :: b in disk ==> disk'[b] == disk[b] || (b in file && disk'[b] == file[b])
  }

  lemma MakeNearer(disk: map<int, Block>, disk': map<int, Block>, file: map<int, Block>)
    requires disk'.Keys == disk.Keys
    requires forall b :: b in disk ==> disk'[b] == disk[b] || (b in file && disk'[b] == file[b])
    ensures Nearer(disk, disk', file)
  {
  }

  lemma NearerSame(disk: map<int, Block>, disk': map<int, Block>)
    requires Nearer(disk, disk', disk)
    ensures disk' == disk
  {
    forall b | b in disk'
      ensures b in disk && disk'[b] == disk[b]
    {
      assert b in disk'.Keys;
    }
    assert disk'.Keys == disk.Keys;
  }

  lemma DiskIs(d: map<int, Block>, k: int, img: Block, disk: map<int, Block>)
    requires k in d && disk.Keys == d.Keys && disk[k] == img
    requires forall b :: b in disk && b != k ==> disk[b] == d[b]
    ensures disk == d[k := img]
  {
  }

  lemma WrittenDisk(c: seq<Control>, m: seq<Block>, disk: map<int, Block>, i: nat, disk': map<int, Block>)
    requires SlotsOK(c, m, disk) && i < |c|
    requires c[i].writes != 0 ==> disk' == disk[c[i].inmem := m[i]]
    requires c[i].writes == 0 ==> disk' == disk
    ensures c[i].inmem in disk' ==> c[i].inmem in View(c, m, disk) && disk'[c[i].inmem] == View(c, m, disk)[c[i].inmem]
    ensures forall b :: b in disk && b != c[i].inmem ==> disk'[b] == disk[b]
  {
    assert SlotOK(c[i], m[i], disk);
    if c[i].inmem >= 0 {
      WhereIs(c, m, disk, i);
    }
  }

  lemma SlotsSame(c: seq<Control>, c': seq<Control>)
    requires |c'| == |c| && forall i :: 0 <= i < |c| ==> c'[i].inmem == c[i].inmem
    ensures forall b :: Where(c', b) == Where(c, b)
  {
    forall b
      ensures Where(c', b) == Where(c, b)
    {
      WhereSame(c, c', b);
    }
  }

  /** A slot becomes a block that was in no slot and not on disk. */
  lemma Appended(c: seq<Control>, m: seq<Block>, disk: map<int, Block>, i: nat, b: int)
    requires SlotsOK(c, m, disk) && i < |c| && c[i].writes == 0 && !c[i].busy && b !in disk && 0 <= b
    ensures var c', disk' := c[i := c[i].(inmem := b)], disk[b := m[i]];
            && SlotsOK(c', m, disk') && View(c', m, disk') == View(c, m, disk)[b := m[i]] && Wired(c') == Wired(c)
            && disk'.Keys == disk.Keys + {b}
  {
    hide Where, View, Wired;
    var c', disk' := c[i := c[i].(inmem := b)], disk[b := m[i]];
    forall j | 0 <= j < |c|
      ensures SlotOK(c'[j], m[j], disk') && (j != i ==> c[j].inmem != b)
    {
      assert SlotOK(c[j], m[j], disk);
    }
    forall x
      ensures x in View(c', m, disk') <==> x in View(c, m, disk)[b := m[i]]
      ensures x in View(c', m, disk') ==> View(c', m, disk')[x] == View(c, m, disk)[b := m[i]][x]
    {
      ViewAt(c, m, disk, x);
      ViewAt(c', m, disk', x);
      if x in disk {
        AppendedAt(c, m, disk, i, b, x);
      }
    }
    assert View(c', m, disk') == View(c, m, disk)[b := m[i]];
    WiredSame(c, c');
  }

  lemma AppendedAt(c: seq<Control>, m: seq<Block>, disk: map<int, Block>, i: nat, b: int, x: int)
    requires SlotsOK(c, m, disk) && i < |c| && c[i].writes == 0 && b !in disk && x in disk && 0 <= b
    ensures var c' := c[i := c[i].(inmem := b)];
            (if Where(c', x) < |c'| then m[Where(c', x)] else disk[x])
            == if Where(c, x) < |c| then m[Where(c, x)] else disk[x]
  {
    hide Where, View, Wired;
    var c' := c[i := c[i].(inmem := b)];
    WhereFirst(c, x);
    WhereFirst(c', x);
    assert SlotOK(c[i], m[i], disk);
    var w, w' := Where(c, x), Where(c', x);
    if w < |c| && w != i {
      assert c'[w].inmem == x;
    }
    if w' < |c| {
      assert w' != i && c[w'].inmem == x;
    }
  }

  /** In btsync the slot written for entry i is i itself, or an empty one. */
  lemma FirstClean(c: seq<Control>, m: seq<Block>, disk: map<int, Block>, i: nat)
    requires SlotsOK(c, m, disk) && i < |c|
    ensures var w := Where(c, c[i].inmem); w < |c| && (w == i || (c[w].writes == 0 && c[i].writes == 0))
  {
    WhereFirst(c, c[i].inmem);
    assert SlotOK(c[i], m[i], disk);
    if c[i].inmem >= 0 {
      WhereIs(c, m, disk, i);
    } else {
      var w := Where(c, c[i].inmem);
      assert SlotOK(c[w], m[w], disk);
    }
  }

  lemma AllClean(c: seq<Control>, m: seq<Block>, disk: map<int, Block>)
    requires SlotsOK(c, m, disk) && forall i :: 0 <= i < |c| ==> c[i].writes == 0
    ensures View(c, m, disk) == disk
  {
    forall b | b in disk
      ensures View(c, m, disk)[b] == disk[b]
    {
      var w := Where(c, b);
      if w < |c| {
        assert SlotOK(c[w], m[w], disk);
      }
    }
  }
}
