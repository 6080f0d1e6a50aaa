/** The control entries of the cache slots, and the least recently used list
    that runs through them (src-lib/btque.c). */
module Lru {

  /** Control entry of a slot: the block in it (-1 for none), whether it is wired
      down, whether it differs from the file, and the next slot in the list. */
  datatype Control = Control(inmem: int, busy: bool, writes: int, lrunxt: int)

  /** The list from head to tail is q: each slot in it once, chained in order. */
  ghost predicate Chain(c: seq<Control>, head: int, tail: int, q: seq<int>) {
    && (forall k :: 0 <= k < |q| ==> 0 <= q[k] < |c|)
    && (forall j, k :: 0 <= j < k < |q| ==> q[j] != q[k])
    && (if |q| == 0 then head == -1 && tail == -1 else head == q[0] && tail == q[|q| - 1] && c[tail].lrunxt == -1)
    && (forall k :: 0 <= k < |q| - 1 ==> c[q[k]].lrunxt == q[k + 1])
  }

  /** The list holds every slot. */
  ghost predicate Full(n: int, q: seq<int>) {
    |q| == n && forall i :: 0 <= i < n ==> i in q
  }

  /** A slot moved to the end of the list. */
  ghost function MoveToEnd(q: seq<int>, j: nat): seq<int>
    requires j < |q|
  {
    q[..j] + q[j + 1..] + [q[j]]
  }

  /** The list without its first k slots, which go to the end. */
  ghost function Rotate(q: seq<int>, k: nat): seq<int>
    requires k <= |q|
  {
    q[k..] + q[..k]
  }

  ghost function Position(q: seq<int>, i: int): nat
    requires i in q
    ensures Position(q, i) < |q| && q[Position(q, i)] == i
  {
    if q[0] == i then 0 else 1 + Position(q[1..], i)
  }

  /** Only the links of the list may differ. */
  ghost predicate SameSlots(c: seq<Control>, c': seq<Control>) {
    |c'| == |c| && forall i :: 0 <= i < |c| ==> c'[i] == c[i].(lrunxt := c'[i].lrunxt)
  }

  /** All slots but one keep their block, their wiring and their count of writes. */
  ghost predicate OthersSame(c: seq<Control>, c': seq<Control>, idx: int) {
    |c'| == |c| && forall i :: 0 <= i < |c| && i != idx ==> c'[i] == c[i].(lrunxt := c'[i].lrunxt)
  }

  /** The slot that makes room: the first empty one, or else the first one in the
      list that is not wired, the wired ones before it going to the end. */
  ghost predicate Victim(c: seq<Control>, q: seq<int>, idx: int, q': seq<int>) {
    if exists i :: 0 <= i < |c| && c[i].inmem < 0 then
      0 <= idx < |c| && c[idx].inmem < 0 && (forall i :: 0 <= i < idx ==> c[i].inmem >= 0) && q' == q
    else
      exists k :: 0 <= k < |q| && idx == q[k] && q' == Rotate(q, k) && forall j :: 0 <= j < k ==> WiredSlot(c, q[j])
  }

  ghost predicate WiredSlot(c: seq<Control>, i: int) {
    0 <= i < |c| && c[i].busy
  }

  /** The list after a slot was used. */
  ghost predicate UsedLast(q: seq<int>, idx: int, q': seq<int>) {
    idx in q && q' == MoveToEnd(q, Position(q, idx))
  }

  lemma VictimEmpty(c: seq<Control>, q: seq<int>, idx: int)
    requires 0 <= idx < |c| && c[idx].inmem < 0 && (forall i :: 0 <= i < idx ==> c[i].inmem >= 0)
    ensures Victim(c, q, idx, q)
  {
  }

  lemma VictimOldest(c: seq<Control>, q: seq<int>, k: nat, idx: int, q': seq<int>)
    requires (forall i :: 0 <= i < |c| ==> c[i].inmem >= 0) && k < |q| && idx == q[k] && q' == Rotate(q, k)
    requires forall j :: 0 <= j < k ==> 0 <= q[j] < |c| && c[q[j]].busy
    ensures Victim(c, q, idx, q')
  {
  }

  /** Every slot that is not wired was used after the one that makes room. */
  lemma LeastRecent(c: seq<Control>, q: seq<int>, idx: int, q': seq<int>, i: int)
    requires Victim(c, q, idx, q') && (forall j :: 0 <= j < |c| ==> c[j].inmem >= 0) && Full(|c|, q)
    requires (forall j, k :: 0 <= j < k < |q| ==> q[j] != q[k]) && 0 <= i < |c| && !c[i].busy
    ensures idx in q && i in q && Position(q, idx) <= Position(q, i)
  {
    hide Rotate;
    var k :| 0 <= k < |q| && idx == q[k] && forall j :: 0 <= j < k ==> WiredSlot(c, q[j]);
    assert q[Position(q, idx)] == q[k];
    assert !WiredSlot(c, q[Position(q, i)]);
  }

  lemma OthersTrans(c: seq<Control>, c1: seq<Control>, c2: seq<Control>, idx: int)
    requires OthersSame(c, c1, idx) && OthersSame(c1, c2, idx)
    ensures OthersSame(c, c2, idx)
  {
    assert forall i :: 0 <= i < |c| && i != idx ==> c1[i] == c[i].(lrunxt := c1[i].lrunxt);
  }

  lemma OthersLinks(c: seq<Control>, c': seq<Control>, idx: int)
    requires SameSlots(c, c')
    ensures OthersSame(c, c', idx)
  {
  }

  lemma OthersOne(c: seq<Control>, c': seq<Control>, idx: int)
    requires |c'| == |c| && forall i :: 0 <= i < |c| && i != idx ==> c'[i] == c[i]
    ensures OthersSame(c, c', idx)
  {
  }

  /** Appending a slot. */
  lemma ChainAdd(c: seq<Control>, c': seq<Control>, head: int, tail: int, q: seq<int>, idx: int)
    requires Chain(c, head, tail, q) && 0 <= idx < |c| && idx !in q
    requires |c'| == |c| && c'[idx].lrunxt == -1
    requires |q| > 0 ==> c'[tail].lrunxt == idx
    requires forall i :: 0 <= i < |c| && i != idx && (|q| > 0 ==> i != tail) ==> c'[i].lrunxt == c[i].lrunxt
    ensures Chain(c', if |q| == 0 then idx else head, idx, q + [idx])
  {
    var q' := q + [idx];
    forall k | 0 <= k < |q'| - 1
      ensures c'[q'[k]].lrunxt == q'[k + 1]
    {
      if k < |q| - 1 {
        assert q[k] != q[|q| - 1];
        assert c[q[k]].lrunxt == q[k + 1];
      }
    }
  }

  /** What bqmove writes when slot idx is at place j, but not at the end. */
  lemma ChainMove(c: seq<Control>, c': seq<Control>, head: int, tail: int, q: seq<int>, j: nat)
    requires Chain(c, head, tail, q) && j < |q| - 1 && |c'| == |c|
    requires c'[q[j]].lrunxt == -1
    requires c'[tail].lrunxt == q[j]
    requires j > 0 && q[j - 1] != tail ==> c'[q[j - 1]].lrunxt == c[q[j]].lrunxt
    requires forall i :: 0 <= i < |c| && i != q[j] && i != tail && (j > 0 ==> i != q[j - 1]) ==> c'[i].lrunxt == c[i].lrunxt
    ensures Chain(c', if j == 0 then c[q[j]].lrunxt else head, q[j], MoveToEnd(q, j))
  {
    var q', n := MoveToEnd(q, j), |q|;
    assert tail == q[n - 1];
    forall k | 0 <= k < n - 1
      ensures c'[q'[k]].lrunxt == q'[k + 1]
    {
      if k < j - 1 {
        assert q[k] != q[n - 1] && q[k] != q[j] && q[k] != q[j - 1];
        assert c[q[k]].lrunxt == q[k + 1];
      } else if k == j - 1 {
        assert q'[k] == q[j - 1] && q'[k + 1] == q[j + 1];
        assert q[j - 1] != q[n - 1];
        assert c[q[j]].lrunxt == q[j + 1];
      } else if k < n - 2 {
        assert q'[k] == q[k + 1] && q'[k + 1] == q[k + 2];
        assert q[k + 1] != q[n - 1];
        assert c[q[k + 1]].lrunxt == q[k + 2];
        assert q[k + 1] != q[j];
        assert j > 0 ==> q[k + 1] != q[j - 1];
      } else {
        assert q'[k] == q[n - 1];
      }
    }
    assert q'[0] == if j == 0 then q[1] else q[0];
    assert c[q[j]].lrunxt == q[j + 1];
  }

  lemma MoveKeeps(n: int, q: seq<int>, j: nat)
    requires Full(n, q) && j < |q|
    ensures Full(n, MoveToEnd(q, j))
  {
    forall i | 0 <= i < n
      ensures i in MoveToEnd(q, j)
    {
      assert i in q;
      var k :| 0 <= k < |q| && q[k] == i;
      assert MoveToEnd(q, j)[if k < j then k else if k == j then |q| - 1 else k - 1] == i;
    }
  }

  lemma RotateStep(q: seq<int>, k: nat)
    requires k < |q|
    ensures MoveToEnd(Rotate(q, k), 0) == Rotate(q, k + 1) && Rotate(q, k)[0] == q[k]
  {
  }

  /** Links alone do not matter to anything but the list. */
  lemma ChainSame(c: seq<Control>, c': seq<Control>, head: int, tail: int, q: seq<int>)
    requires Chain(c, head, tail, q) && |c'| == |c| && forall i :: 0 <= i < |c| ==> c'[i].lrunxt == c[i].lrunxt
    ensures Chain(c', head, tail, q)
  {
  }
}
