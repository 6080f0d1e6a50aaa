/** A block in a cache slot: the loops of bputky, bremky, brepky and bcpybk on
    the arrays of the memory record, proved to leave the images that Blocks.dfy
    says they leave. */
module MemRecs {
  import opened Constants
  import opened Blocks

  class MemRec {
    var btype: int
    var misc: int
    var nxblk: int
    var nkeys: int
    var nblks: int
    var nxdup: int
    const key: array<Entry>
    const link: array<int>

    ghost predicate Valid() {
      key.Length == ZMXKEY && link.Length == ZMXKEY + 1
    }

    ghost function Content(): Block
      requires Valid()
      reads this, key, link
    {
      Image(btype, misc, nxblk, nkeys, nblks, nxdup, key[..], link[..])
    }

    constructor ()
      ensures Valid() && fresh(key) && fresh(link)
    {
      key := new Entry[ZMXKEY](_ => Entry(0, 0));
      link := new int[ZMXKEY + 1](_ => ZNULL);
      btype, misc, nxblk, nkeys, nblks, nxdup := ZFREE, 0, ZNULL, 0, 0, ZNULL;
    }

    /** A key and a link are copied to the next place. */
    method Move(to: nat, at: nat, linkTo: nat, linkAt: nat)
      requires to < key.Length && at < key.Length && linkTo < link.Length && linkAt < link.Length
      modifies key, link
      ensures key[..] == old(key[..])[to := old(key[at])] && link[..] == old(link[..])[linkTo := old(link[linkAt])]
    {
      key[to] := key[at];
      link[linkTo] := link[linkAt];
    }

    /** bputky's shifting loop: keys that are not smaller than the new one, and
        the links to their right, move up by one. */
    method Shift(e: Entry) returns (i: int)
      requires Valid() && 0 < nkeys < ZMXKEY
      modifies key, link
      ensures i == PutPos(old(key[..nkeys]), e.key) && 0 <= i <= nkeys
      ensures Shifted(old(key[..]), old(link[..]), key[..], link[..], i, nkeys)
    {
      hide *;
      ValidIs(this);
      ghost var ks0, ls0 := key[..], link[..];
      NotShifted(ks0, ls0, nkeys);
      ghost var front := key[..nkeys];
      assert front == ks0[..nkeys];
      NotSmallerStep(front, nkeys, e.key);
      i := nkeys;
      while i > 0 && e.key <= key[i - 1].key
        invariant 0 <= i <= nkeys
        invariant Shifted(ks0, ls0, key[..], link[..], i, nkeys)
        invariant NotSmaller(front, i, e.key)
      {
        ghost var ks, ls := key[..], link[..];
        ShiftStep(ks0, ls0, ks, ls, i, nkeys);
        NotSmallerStep(front, i, e.key);
        Move(i, i - 1, i + 1, i);
        i := i - 1;
      }
      ShiftedFront(ks0, ls0, key[..], link[..], i, nkeys);
      PutPosStop(front, e.key, i);
    }

    /** bputky: a full block is left alone. */
    method Put(e: Entry, link1: int, link2: int)
      requires Valid() && 0 <= nkeys <= ZMXKEY
      modifies this`nkeys, key, link
      ensures old(nkeys) == ZMXKEY ==> Content() == old(Content())
      ensures old(nkeys) < ZMXKEY ==> Content() == PutKey(old(Content()), e, link1, link2)
    {
      if nkeys == ZMXKEY {
        return;
      }
      if nkeys == 0 {
        PutFirst(e, link1, link2);
      } else {
        PutMore(e, link1, link2);
      }
    }

    /** bputky on an empty block. */
    method PutFirst(e: Entry, link1: int, link2: int)
      requires Valid() && nkeys == 0
      modifies this`nkeys, key, link
      ensures Content() == PutKey(old(Content()), e, link1, link2)
    {
      key[0] := e;
      link[0] := link1;
      link[1] := link2;
      nkeys := nkeys + 1;
      assert key[..] == old(key[..])[0 := e];
      assert link[..] == old(link[..])[0 := link1][1 := link2];
    }

    /** bputky on a block with keys and room. */
    method PutMore(e: Entry, link1: int, link2: int)
      requires Valid() && 0 < nkeys < ZMXKEY
      modifies this`nkeys, key, link
      ensures Content() == PutKey(old(Content()), e, link1, link2)
    {
      hide *;
      ValidIs(this);
      ContentIs(this);
      ghost var b := Content();
      var i;
      if link1 == ZNULL && link2 != ZNULL {
        i := nkeys;
        NotShifted(b.key, b.link, nkeys);
      } else {
        i := Shift(e);
      }
      PutIs(b, e, i, link1, link2);
      Place(b, e, i, link1, link2);
      nkeys := nkeys + 1;
      ContentIs(this);
    }

    /** The rest of bputky: the key and its links, once there is room. */
    method Place(ghost b: Block, e: Entry, i: int, link1: int, link2: int)
      requires Valid() && 0 < nkeys < ZMXKEY && 0 <= i <= nkeys && Shifted(b.key, b.link, key[..], link[..], i, nkeys)
      modifies key, link
      ensures key[..] == b.key[..i] + [e] + b.key[i..nkeys] + b.key[nkeys + 1..]
      ensures link[..] == PlaceLinks(SpreadLinks(b.link, i, nkeys), i, link1, link2)
    {
      assert ZNULL == -1;
      hide *;
      ValidIs(this);
      ghost var ks, ls := key[..], link[..];
      Placed(b.key, b.link, ks, ls, i, nkeys, e);
      if i == 0 {
        link[1] := link[0];
      }
      key[i] := e;
      assert key[..] == ks[i := e];
      ghost var l := link[..];
      assert l == if i == 0 then ls[1 := ls[0]] else ls;
      SetLinks(i, link1, link2);
    }

    /** The links around the new key. */
    method SetLinks(i: nat, link1: int, link2: int)
      requires i + 1 < link.Length
      modifies link
      ensures link[..] == PlaceLinks(old(link[..]), i, link1, link2)
    {
      if link1 == ZNULL && link2 == ZNULL {
        link[i] := ZNULL;
        link[i + 1] := ZNULL;
        assert link[..] == old(link[..])[i := ZNULL][i + 1 := ZNULL];
      } else {
        if i == 0 {
          link[0] := link1;
        }
        if link2 >= 0 {
          link[i + 1] := link2;
        }
      }
    }

    /** bremky's shifting loop. */
    method CloseGap(pos: int)
      requires Valid() && 0 <= pos <= nkeys < ZMXKEY
      modifies key, link
      ensures Closing(old(key[..]), old(link[..]), pos, nkeys, key[..], link[..])
    {
      hide *;
      ValidIs(this);
      ghost var ks0, ls0 := key[..], link[..];
      ClosingStart(ks0, ls0, pos);
      var i := pos;
      while i < nkeys
        invariant pos <= i <= nkeys
        invariant Closing(ks0, ls0, pos, i, key[..], link[..])
      {
        ghost var ks, ls := key[..], link[..];
        ClosingStep(ks0, ls0, pos, i, ks, ls);
        Move(i, i + 1, i + 1, i + 2);
        i := i + 1;
      }
    }

    /** bremky: the keys and right links beyond pos move down by one. */
    method Remove(pos: int)
      requires Valid() && 0 <= pos < nkeys <= ZMXKEY
      modifies this`nkeys, key, link
      ensures Content() == RemKey(old(Content()), pos)
    {
      hide *;
      ValidIs(this);
      ContentIs(this);
      ghost var b := Content();
      nkeys := nkeys - 1;
      CloseGap(pos);
      Closed(b, pos, key[..], link[..]);
      ContentIs(this);
    }

    /** brepky: a location outside the array is refused. */
    method Replace(loc: int, e: Entry, link1: int, link2: int)
      requires Valid()
      modifies key, link
      ensures !(0 <= loc < ZMXKEY) ==> Content() == old(Content())
      ensures 0 <= loc < ZMXKEY ==> Content() == RepKey(old(Content()), loc, e, link1, link2)
    {
      if loc >= ZMXKEY || loc < 0 {
        return;
      }
      key[loc] := e;
      link[loc] := link1;
      link[loc + 1] := link2;
    }

    /** bcpybk: n keys from fs on of another block, to ts on of this one. */
    method CopyFrom(from: MemRec, ts: int, fs: int, n: int)
      requires Valid() && from.Valid() && from != this
      requires key != from.key && link != from.link
      requires 0 <= ts && 0 <= fs && 0 <= n && ts + n <= ZMXKEY && fs + n <= ZMXKEY
      modifies key, link
      ensures Content() == CopyKeys(old(Content()), old(from.Content()), ts, fs, n)
    {
      ghost var t, f := Content(), from.Content();
      var inc := if ts == 0 then 0 else 1;
      var j := fs;
      var i := ts;
      while i < ts + n
        invariant ts <= i <= ts + n && j - fs == i - ts
        invariant from.Content() == f
        invariant forall k :: 0 <= k < ts || i <= k < ZMXKEY ==> key[k] == t.key[k]
        invariant forall k :: ts <= k < i ==> key[k] == f.key[k - ts + fs]
        invariant forall k :: 0 <= k < ts + inc || i + inc <= k <= ZMXKEY ==> link[k] == t.link[k]
        invariant forall k :: ts + inc <= k < i + inc ==> link[k] == f.link[k - ts - inc + fs]
      {
        key[i] := from.key[j];
        link[i + inc] := from.link[j];
        j := j + 1;
        i := i + 1;
      }
      link[ts + n] := from.link[j];
      CopyIs(t, f, ts, fs, n, key[..], link[..]);
    }
  }

  /** Room for a key at place i: what was at i and beyond moved up. */
  ghost predicate Shifted(ks0: seq<Entry>, ls0: seq<int>, ks: seq<Entry>, ls: seq<int>, i: int, n: int)
    requires 0 <= i <= n < |ks0| && |ls0| == |ks0| + 1
  {
    && |ks| == |ks0| && |ls| == |ls0|
    && ks == ks0[..i + 1] + ks0[i..n] + ks0[n + 1..]
    && ls == ls0[..i + 2] + ls0[i + 1..n + 1] + ls0[n + 2..]
  }

  lemma ShiftStep(ks0: seq<Entry>, ls0: seq<int>, ks: seq<Entry>, ls: seq<int>, i: int, n: int)
    requires 0 < i <= n < |ks0| && |ls0| == |ks0| + 1 && Shifted(ks0, ls0, ks, ls, i, n)
    ensures |ks| == |ks0| && |ls| == |ls0| && ks[i - 1] == ks0[..n][i - 1]
    ensures Shifted(ks0, ls0, ks[i := ks[i - 1]], ls[i + 1 := ls[i]], i - 1, n)
  {
    Rise(ks0, i, n, ks);
    Rise(ls0, i + 1, n + 1, ls);
  }

  lemma Rise<T>(s: seq<T>, i: int, n: int, r: seq<T>)
    requires 0 < i <= n < |s| && r == s[..i + 1] + s[i..n] + s[n + 1..]
    ensures |r| == |s| && r[i := r[i - 1]] == s[..i] + s[i - 1..n] + s[n + 1..]
  {
  }

  lemma ShiftedFront(ks0: seq<Entry>, ls0: seq<int>, ks: seq<Entry>, ls: seq<int>, i: int, n: int)
    requires 0 <= i <= n < |ks0| && |ls0| == |ks0| + 1 && Shifted(ks0, ls0, ks, ls, i, n)
    ensures |ks| == |ks0| && (i > 0 ==> ks[i - 1] == ks0[..n][i - 1])
  {
  }

  /** The new key in its place, and the links as SpreadLinks says. */
  lemma Placed(ks0: seq<Entry>, ls0: seq<int>, ks: seq<Entry>, ls: seq<int>, i: int, n: int, e: Entry)
    requires 0 <= i <= n < |ks0| && |ls0| == |ks0| + 1 && Shifted(ks0, ls0, ks, ls, i, n)
    ensures |ks| == |ks0| && |ls| == |ls0| && ks[i := e] == ks0[..i] + [e] + ks0[i..n] + ks0[n + 1..]
    ensures SpreadLinks(ls0, i, n) == if i == 0 then ls[1 := ls[0]] else ls
  {
  }

  lemma ValidIs(m: MemRec)
    ensures m.Valid() <==> m.key.Length == ZMXKEY && m.link.Length == ZMXKEY + 1
  {
  }

  lemma ContentIs(m: MemRec)
    requires m.Valid()
    ensures m.Content() == Image(m.btype, m.misc, m.nxblk, m.nkeys, m.nblks, m.nxdup, m.key[..], m.link[..])
    ensures |m.key[..]| == ZMXKEY && |m.link[..]| == ZMXKEY + 1
  {
  }

  /** A key that goes to the end moves nothing. */
  lemma NotShifted(ks: seq<Entry>, ls: seq<int>, n: nat)
    requires n < |ks| && |ls| == |ks| + 1
    ensures Shifted(ks, ls, ks, ls, n, n)
  {
  }

  lemma PutIs(b: Block, e: Entry, i: nat, link1: int, link2: int)
    requires 0 < b.nkeys < ZMXKEY && i == if link1 == ZNULL && link2 != ZNULL then b.nkeys else PutPos(b.key[..b.nkeys], e.key)
    ensures i <= b.nkeys
    ensures PutKey(b, e, link1, link2)
         == b.(key := b.key[..i] + [e] + b.key[i..b.nkeys] + b.key[b.nkeys + 1..],
               link := PlaceLinks(SpreadLinks(b.link, i, b.nkeys), i, link1, link2),
               nkeys := b.nkeys + 1)
  {
  }

  /** The keys from pos to i, and the links to their right, moved down by one. */
  ghost predicate Closing(ks0: seq<Entry>, ls0: seq<int>, pos: int, i: int, ks: seq<Entry>, ls: seq<int>)
    requires 0 <= pos <= i < |ks0| && |ls0| == |ks0| + 1
  {
    && |ks| == |ks0| && |ls| == |ls0|
    && ks == ks0[..pos] + ks0[pos + 1..i + 1] + ks0[i..]
    && ls == ls0[..pos + 1] + ls0[pos + 2..i + 2] + ls0[i + 1..]
  }

  lemma ClosingStart(ks: seq<Entry>, ls: seq<int>, pos: int)
    requires 0 <= pos < |ks| && |ls| == |ks| + 1
    ensures Closing(ks, ls, pos, pos, ks, ls)
  {
  }

  lemma ClosingStep(ks0: seq<Entry>, ls0: seq<int>, pos: int, i: int, ks: seq<Entry>, ls: seq<int>)
    requires 0 <= pos <= i && i + 1 < |ks0| && |ls0| == |ks0| + 1 && Closing(ks0, ls0, pos, i, ks, ls)
    ensures Closing(ks0, ls0, pos, i + 1, ks[i := ks[i + 1]], ls[i + 1 := ls[i + 2]])
  {
    Slide(ks0, pos, i, ks);
    Slide(ls0, pos + 1, i + 1, ls);
  }

  lemma Slide<T>(s: seq<T>, p: int, i: int, r: seq<T>)
    requires 0 <= p <= i && i + 1 < |s| && r == s[..p] + s[p + 1..i + 1] + s[i..]
    ensures |r| == |s| && r[i := r[i + 1]] == s[..p] + s[p + 1..i + 2] + s[i + 1..]
  {
  }

  lemma Closed(b: Block, pos: nat, ks: seq<Entry>, ls: seq<int>)
    requires pos < b.nkeys <= ZMXKEY && Closing(b.key, b.link, pos, b.nkeys - 1, ks, ls)
    ensures RemKey(b, pos) == b.(key := ks, link := ls, nkeys := b.nkeys - 1)
  {
  }

  lemma CopyIs(t: Block, f: Block, ts: nat, fs: nat, n: nat, ks: seq<Entry>, ls: seq<int>)
    requires ts + n <= ZMXKEY && fs + n <= ZMXKEY && |ks| == ZMXKEY && |ls| == ZMXKEY + 1
    requires forall k :: 0 <= k < ts || ts + n <= k < ZMXKEY ==> ks[k] == t.key[k]
    requires forall k :: ts <= k < ts + n ==> ks[k] == f.key[k - ts + fs]
    requires ls[ts + n] == f.link[fs + n]
    requires var inc := if ts == 0 then 0 else 1;
             && (forall k :: 0 <= k < ts + inc || ts + n + inc <= k <= ZMXKEY ==> k != ts + n ==> ls[k] == t.link[k])
             && (forall k :: ts + inc <= k < ts + n + inc ==> k != ts + n ==> ls[k] == f.link[k - ts - inc + fs])
    ensures CopyKeys(t, f, ts, fs, n).key == ks && CopyKeys(t, f, ts, fs, n).link == ls
  {
    var c := CopyKeys(t, f, ts, fs, n);
    assert |c.link| == |ls|;
    forall k | 0 <= k < |ls|
      ensures c.link[k] == ls[k]
    {
    }
  }

  ghost predicate NotSmaller(ks: seq<Entry>, i: nat, k: int) {
    forall j :: i <= j < |ks| ==> k <= ks[j].key
  }

  lemma NotSmallerStep(ks: seq<Entry>, i: nat, k: int)
    ensures i >= |ks| ==> NotSmaller(ks, i, k)
    ensures 0 < i <= |ks| && NotSmaller(ks, i, k) && k <= ks[i - 1].key ==> NotSmaller(ks, i - 1, k)
  {
  }

  /** Where the shifting loop stops. */
  lemma {:induction false} PutPosStop(ks: seq<Entry>, k: int, i: nat)
    requires i <= |ks| && NotSmaller(ks, i, k) && (i > 0 ==> ks[i - 1].key < k)
    ensures PutPos(ks, k) == i
    decreases |ks|
  {
    if i < |ks| {
      PutPosStop(ks[..|ks| - 1], k, i);
    }
  }
}
