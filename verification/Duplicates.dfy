/** The duplicates of one key (src-lib/btdupkey.c): a doubly linked list of
    entries in ZDUP segments, reached from the key's entry in the index. */
module Duplicates {
  import opened Constants

  /** Directions of btduppos. */
  const ZPREV: int := 1
  const ZNEXT: int := 2

  datatype DKey = DKey(val: int, deleted: bool, flink: int, blink: int)

  class Chain {
    var ents: map<int, DKey>     // stored entries by address
    var val: int                 // the index entry: the value, or the first duplicate
    var dup: int                 // and the last duplicate, or null
    var draddr: int              // the context: current duplicate, or null
    var lfexct: bool

    ghost var addrs: seq<int>    // addresses of the live entries, oldest first

    /** The list from val to dup through flink is addrs, and blink goes back. */
    ghost predicate Valid()
      reads this
    {
      if dup == ZNULL then addrs == []
      else |addrs| > 0 && val == addrs[0] && dup == addrs[|addrs| - 1] && Linked(ents, addrs)
    }

    /** The values of the key, in the order they were added. */
    ghost function Values(): seq<int>
      requires Valid()
      reads this
    {
      if dup == ZNULL then [val] else ValuesOf(ents, addrs)
    }

    /** What the context says about this key's duplicates. */
    ghost predicate Shows(p: Place)
      reads this
    {
      match p
      case Out => draddr == ZNULL
      case Dup(i) => dup != ZNULL && i < |addrs| && draddr == addrs[i] && lfexct
      case Gap(i) =>
        && dup != ZNULL && i <= |addrs| && draddr != ZNULL && draddr in ents && ents[draddr].deleted && !lfexct
        && ents[draddr].flink == (if i < |addrs| then addrs[i] else ZNULL)
        && ents[draddr].blink == (if i > 0 then addrs[i - 1] else ZNULL)
    }

    /** btdupkey: the value goes to the end.  The first duplicate also gets an
        entry for the key's original value. */
    method Add(v: int, addr1: int, addr2: int)
      requires Valid()
      requires addr1 != ZNULL && addr2 != ZNULL && addr1 != addr2 && addr1 !in ents && addr2 !in ents
      modifies this`ents, this`val, this`dup, this`addrs
      ensures Valid() && Values() == old(Values()) + [v] && dup == addr2
      ensures ents.Keys == old(ents.Keys) + {addr2} + if old(dup) == ZNULL then {addr1} else {}
      ensures forall a :: a in old(ents) && a != old(dup) ==> a in ents && ents[a] == old(ents[a])
    {
      if dup == ZNULL {
        ents := ents[addr1 := DKey(val, false, ZNULL, ZNULL)];
        val := addr1;
        dup := addr1;
        addrs := [addr1];
        assert ValuesOf(ents, addrs) == ValuesOf(ents, []) + [ents[addr1].val];
      }
      ghost var s := ents;
      LinkedAt(s, addrs, |addrs| - 1);
      ents := ents[addr2 := DKey(v, false, ZNULL, dup)];
      var d := ents[dup];
      ents := ents[dup := d.(flink := addr2)];
      Appended(s, ents, addrs, addr2, v);
      dup := addr2;
      addrs := addrs + [addr2];
    }

    /** btduppos: 0 and the value at the next place; null when there is none, and
        then the context leaves the chain.  A step that leaves it counts the key as
        found, so that a step back the other way enters the chain again, and a scan
        of the index goes on from this key; without anything to enter the flag
        stays. */
    method Step(direction: int, ghost p: Place) returns (status: int, v: int)
      requires Valid() && Shows(p) && (direction == ZNEXT || direction == ZPREV)
      modifies this`draddr, this`lfexct
      ensures var n := if dup == ZNULL || (p == Out && !old(lfexct)) then 0 else |addrs|;
              Shows(Moved(p, n, direction == ZNEXT))
              && match Moved(p, n, direction == ZNEXT)
                 case Dup(i) => status == 0 && i < |Values()| && v == Values()[i]
                 case _ => status == ZNULL && lfexct == (p != Out || old(lfexct))
    {
      status, v := ZNULL, 0;
      if draddr == ZNULL && !lfexct {
        return;
      }
      var newaddr;
      var dkey;
      if draddr == ZNULL {
        if dup == ZNULL {
          return;
        }
        newaddr := if direction == ZNEXT then val else dup;
        LinkedAt(ents, addrs, 0);
        LinkedAt(ents, addrs, |addrs| - 1);
        dkey := ents[newaddr];
      } else {
        Neighbours(this, p);
        ghost var to := Moved(p, |addrs|, direction == ZNEXT);
        dkey := ents[draddr];
        newaddr := draddr;
        var more := true;
        while more
          invariant more ==> dkey == ents[draddr]
          invariant !more ==> to.Dup? && to.at < |addrs| && newaddr == addrs[to.at] && newaddr in ents && dkey == ents[newaddr]
          decreases more
        {
          newaddr := if direction == ZNEXT then dkey.flink else dkey.blink;
          if newaddr == ZNULL {
            lfexct := true;
            draddr := ZNULL;
            return;
          }
          dkey := ents[newaddr];
          more := dkey.deleted;
        }
      }
      ValueAt(ents, addrs, Moved(p, |addrs|, direction == ZNEXT).at);
      draddr := newaddr;
      lfexct := true;
      v := dkey.val;
      status := 0;
    }

    /** btdeldup: the current duplicate is unlinked and marked.  The result is null
        when there was none, or when it was the only one: then the key itself has
        to leave the index. */
    method Delete(ghost p: Place) returns (status: int)
      requires Valid() && Shows(p) && (p == Out || p.Dup?)
      modifies this`ents, this`val, this`dup, this`draddr, this`lfexct, this`addrs
      ensures p == Out ==> status == ZNULL && unchanged(this)
      ensures p != Out && |old(addrs)| == 1 ==>
                && status == ZNULL && draddr == ZNULL && !lfexct && val == old(val) && dup == old(dup)
                && old(draddr) in old(ents) && ents == old(ents)[old(draddr) := old(ents[draddr]).(deleted := true)]
      ensures p.Dup? && |old(addrs)| > 1 ==>
                && status == 0 && Valid() && Shows(Gap(p.at)) && p.at < |old(Values())|
                && Values() == old(Values()[..p.at]) + old(Values()[p.at + 1..])
                && draddr == old(draddr) && OthersKept(old(ents), ents, old(addrs), p.at)
    {
      assert ZNULL != 0;
      hide *;
      ChainOpen(this, p);
      status := ZNULL;
      if draddr == ZNULL {
        return;
      }
      status := 0;
      ghost var s0, a0, i := ents, addrs, p.at;
      LinkedAt(s0, a0, i);
      if i > 0 {
        LinkedAt(s0, a0, i - 1);
      }
      if i + 1 < |a0| {
        LinkedAt(s0, a0, i + 1);
      }
      var cur := draddr;
      var dkey := ents[cur];
      var flink, blink := ZNULL, ZNULL;
      if dkey.blink == ZNULL && dkey.flink == ZNULL {
        draddr := ZNULL;
        status := ZNULL;
      } else if dkey.blink == ZNULL {
        val := dkey.flink;
        flink := dkey.flink;
      } else if dkey.flink == ZNULL {
        dup := dkey.blink;
        blink := dkey.blink;
      } else {
        flink := dkey.flink;
        blink := dkey.blink;
      }
      WriteLinks(cur, flink, blink);
      lfexct := false;
      addrs := a0[..i] + a0[i + 1..];
      BypassKeeps(s0, a0, i);
      if |a0| == 1 {
        BypassedAlone(s0, a0);
      } else {
        Gapped(this, s0, a0, i);
      }
    }

    /** The entries btdeldup writes: the deleted one and its neighbours. */
    method WriteLinks(cur: int, flink: int, blink: int)
      requires cur in ents && (flink != ZNULL ==> flink in ents) && (blink != ZNULL ==> blink in ents)
      modifies this`ents
      ensures ents == Bypassed(old(ents), cur, flink, blink)
    {
      ents := ents[cur := ents[cur].(deleted := true)];
      if blink != ZNULL {
        ents := ents[blink := ents[blink].(flink := flink)];
      }
      if flink != ZNULL {
        ents := ents[flink := ents[flink].(blink := blink)];
      }
    }

    /** btdupupd: a new value for the current duplicate. */
    method Update(v: int, ghost p: Place) returns (r: int)
      requires Valid() && Shows(p) && (p == Out || p.Dup?)
      modifies this`ents
      ensures Valid() && Shows(p) && r == draddr
      ensures p == Out ==> Values() == old(Values()) && ents == old(ents)
      ensures p.Dup? ==> draddr in old(ents) && ents == old(ents)[draddr := old(ents[draddr]).(val := v)]
      ensures p.Dup? ==> p.at < |old(Values())| && Values() == old(Values())[p.at := v]
    {
      if draddr != ZNULL {
        ghost var s := ents;
        LinkedAt(s, addrs, p.at);
        ents := ents[draddr := ents[draddr].(val := v)];
        Revalued(s, ents, addrs, p.at, v);
      }
      r := draddr;
    }

    /** btcntdups. */
    method Count() returns (n: int)
      requires Valid() && dup != ZNULL
      ensures n == |Values()|
    {
      n := 0;
      ValuesLength(ents, addrs);
      var a := val;
      while a != ZNULL
        invariant 0 <= n <= |addrs| && a == if n < |addrs| then addrs[n] else ZNULL
        decreases |addrs| - n
      {
        LinkedAt(ents, addrs, n);
        n := n + 1;
        a := ents[a].flink;
      }
    }
  }

  /** A step out of the chain and a step back the other way give the end value
      again, whatever end it is and whether the step out was made from that value
      or from the gap behind it. */
  method OutAndBack(c: Chain, forward: bool, ghost p: Place) returns (out: int, back: int, v: int)
    requires c.Valid() && c.Shows(p) && p != Out && Moved(p, |c.addrs|, forward) == Out
    modifies c`draddr, c`lfexct
    ensures var end := if forward then |c.addrs| - 1 else 0;
            && out == ZNULL && back == 0 && 0 <= end < |c.Values()| && v == c.Values()[end]
            && c.Shows(Dup(end)) && (p.Dup? ==> p.at == end)
  {
    var none;
    Neighbours(c, p);
    out, none := c.Step(if forward then ZNEXT else ZPREV, p);
    back, v := c.Step(if forward then ZPREV else ZNEXT, Out);
  }

  datatype Place = Dup(at: nat) | Gap(at: nat) | Out

  /** Where a step should lead among n duplicates. */
  ghost function Moved(p: Place, n: nat, forward: bool): Place {
    match p
    case Dup(i) => if forward then (if i + 1 < n then Dup(i + 1) else Out) else if i > 0 then Dup(i - 1) else Out
    case Gap(i) => if forward then (if i < n then Dup(i) else Out) else if i > 0 then Dup(i - 1) else Out
    case Out => if n == 0 then Out else if forward then Dup(0) else Dup(n - 1)
  }

  /** The chain through addrs. */
  ghost predicate Linked(s: map<int, DKey>, addrs: seq<int>) {
    && (forall i :: 0 <= i < |addrs| ==> addrs[i] != ZNULL && addrs[i] in s && !s[addrs[i]].deleted)
    && (forall i :: 0 <= i < |addrs| ==> s[addrs[i]].flink == if i + 1 < |addrs| then addrs[i + 1] else ZNULL)
    && (forall i :: 0 <= i < |addrs| ==> s[addrs[i]].blink == if i > 0 then addrs[i - 1] else ZNULL)
    && (forall i, j :: 0 <= i < j < |addrs| ==> addrs[i] != addrs[j])
  }

  ghost function ValuesOf(s: map<int, DKey>, addrs: seq<int>): seq<int> {
    if |addrs| == 0 then []
    else ValuesOf(s, addrs[..|addrs| - 1]) + [if addrs[|addrs| - 1] in s then s[addrs[|addrs| - 1]].val else 0]
  }

  lemma {:induction false} ValuesLength(s: map<int, DKey>, a: seq<int>)
    ensures |ValuesOf(s, a)| == |a|
  {
    if |a| > 0 {
      ValuesLength(s, a[..|a| - 1]);
    }
  }

  lemma {:induction false} ValueAt(s: map<int, DKey>, a: seq<int>, i: nat)
    requires i < |a| && a[i] in s
    ensures |ValuesOf(s, a)| == |a| && ValuesOf(s, a)[i] == s[a[i]].val
    decreases |a|
  {
    ValuesLength(s, a);
    ValuesLength(s, a[..|a| - 1]);
    if i < |a| - 1 {
      ValueAt(s, a[..|a| - 1], i);
    }
  }

  /** What a linked list says about one entry. */
  lemma LinkedAt(s: map<int, DKey>, a: seq<int>, i: nat)
    requires Linked(s, a) && i < |a|
    ensures a[i] != ZNULL && a[i] in s && !s[a[i]].deleted
    ensures s[a[i]].flink == if i + 1 < |a| then a[i + 1] else ZNULL
    ensures s[a[i]].blink == if i > 0 then a[i - 1] else ZNULL
    ensures forall j :: 0 <= j < |a| && j != i ==> a[j] != a[i]
  {
  }

  lemma SameValues(s: map<int, DKey>, s': map<int, DKey>, a: seq<int>, b: seq<int>)
    requires |a| == |b| && forall i :: 0 <= i < |a| ==> a[i] in s && b[i] in s' && s'[b[i]].val == s[a[i]].val
    ensures ValuesOf(s', b) == ValuesOf(s, a)
  {
    ValuesLength(s, a);
    ValuesLength(s', b);
    forall i | 0 <= i < |a|
      ensures ValuesOf(s', b)[i] == ValuesOf(s, a)[i]
    {
      ValueAt(s, a, i);
      ValueAt(s', b, i);
    }
  }

  /** Appending an entry. */
  lemma Appended(s: map<int, DKey>, s': map<int, DKey>, a: seq<int>, x: int, v: int)
    requires Linked(s, a) && |a| > 0 && x !in s && x != ZNULL
    requires s' == s[x := DKey(v, false, ZNULL, a[|a| - 1])][a[|a| - 1] := s[a[|a| - 1]].(flink := x)]
    ensures Linked(s', a + [x]) && ValuesOf(s', a + [x]) == ValuesOf(s, a) + [v]
  {
    var b, n := a + [x], |a|;
    forall i | 0 <= i < n
      ensures a[i] in s && a[i] != x && s'[a[i]].val == s[a[i]].val
    {
      LinkedAt(s, a, i);
    }
    forall i | 0 <= i < |b|
      ensures b[i] != ZNULL && b[i] in s' && !s'[b[i]].deleted
      ensures s'[b[i]].flink == if i + 1 < |b| then b[i + 1] else ZNULL
      ensures s'[b[i]].blink == if i > 0 then b[i - 1] else ZNULL
    {
      if i < n {
        LinkedAt(s, a, i);
        assert i < n - 1 ==> a[i] != a[n - 1];
      }
    }
    forall i, j | 0 <= i < j < |b|
      ensures b[i] != b[j]
    {
      assert i < n && b[i] == a[i] && b[j] == if j < n then a[j] else x;
    }
    MakeLinked(s', b);
    SameValues(s, s', a, a);
    assert b[..n] == a;
  }

  lemma Revalued(s: map<int, DKey>, s': map<int, DKey>, a: seq<int>, i: nat, v: int)
    requires Linked(s, a) && i < |a| && a[i] in s && s' == s[a[i] := s[a[i]].(val := v)]
    ensures Linked(s', a) && |ValuesOf(s, a)| == |a| && ValuesOf(s', a) == ValuesOf(s, a)[i := v]
  {
    ValuesLength(s, a);
    ValuesLength(s', a);
    forall j | 0 <= j < |a|
      ensures ValuesOf(s', a)[j] == ValuesOf(s, a)[i := v][j]
    {
      ValueAt(s, a, j);
      ValueAt(s', a, j);
    }
  }

  lemma ValuesApart(s: map<int, DKey>, s': map<int, DKey>, a: seq<int>, i: nat)
    requires i < |a| && (forall j :: 0 <= j < |a| ==> a[j] in s && a[j] in s')
    requires forall j :: 0 <= j < |a| && j != i ==> s'[a[j]].val == s[a[j]].val
    ensures |ValuesOf(s, a)| == |a|
    ensures ValuesOf(s', a[..i] + a[i + 1..]) == ValuesOf(s, a)[..i] + ValuesOf(s, a)[i + 1..]
  {
    var b := a[..i] + a[i + 1..];
    ValuesLength(s, a);
    ValuesLength(s', b);
    forall j | 0 <= j < |b|
      ensures ValuesOf(s', b)[j] == (ValuesOf(s, a)[..i] + ValuesOf(s, a)[i + 1..])[j]
    {
      ValueAt(s', b, j);
      ValueAt(s, a, if j < i then j else j + 1);
    }
  }

  lemma ChainOpen(c: Chain, p: Place)
    requires c.Valid() && c.Shows(p)
    ensures c.dup != ZNULL ==> |c.addrs| > 0 && c.val == c.addrs[0] && c.dup == c.addrs[|c.addrs| - 1] && Linked(c.ents, c.addrs)
    ensures c.dup != ZNULL ==> c.Values() == ValuesOf(c.ents, c.addrs)
    ensures p == Out ==> c.draddr == ZNULL
    ensures p.Dup? ==> c.dup != ZNULL && p.at < |c.addrs| && c.draddr == c.addrs[p.at] && c.draddr != ZNULL
  {
    if p.Dup? {
      LinkedAt(c.ents, c.addrs, p.at);
    }
  }

  /** The state after a deletion at place i. */
  lemma ChainMade(c: Chain, i: nat)
    requires |c.addrs| > 0 && Linked(c.ents, c.addrs) && c.val == c.addrs[0] && c.dup == c.addrs[|c.addrs| - 1]
    requires i <= |c.addrs| && c.draddr != ZNULL && c.draddr in c.ents && c.ents[c.draddr].deleted && !c.lfexct
    requires c.ents[c.draddr].flink == if i < |c.addrs| then c.addrs[i] else ZNULL
    requires c.ents[c.draddr].blink == if i > 0 then c.addrs[i - 1] else ZNULL
    ensures c.Valid() && c.Shows(Gap(i)) && c.Values() == ValuesOf(c.ents, c.addrs)
  {
    LinkedAt(c.ents, c.addrs, |c.addrs| - 1);
  }

  lemma AllIn(s: map<int, DKey>, a: seq<int>)
    requires Linked(s, a)
    ensures forall j :: 0 <= j < |a| ==> a[j] in s
  {
  }

  // ---------------------------------------------------------------------
  // Reading the links
  // ---------------------------------------------------------------------

  /** The values met from entry x on, in one direction, in at most n steps. */
  ghost function Follow(s: map<int, DKey>, x: int, forward: bool, n: nat): seq<int>
    decreases n
  {
    if n == 0 || x == ZNULL || x !in s then []
    else [s[x].val] + Follow(s, if forward then s[x].flink else s[x].blink, forward, n - 1)
  }

  ghost function Reversed(s: seq<int>): seq<int> {
    if |s| == 0 then [] else [s[|s| - 1]] + Reversed(s[..|s| - 1])
  }

  /** From the first entry the links forward give the values as they were added. */
  lemma {:induction false} ForwardLinks(s: map<int, DKey>, a: seq<int>, i: nat, n: nat)
    requires Linked(s, a) && i < |a| && n > |a| - i
    ensures i < |ValuesOf(s, a)| && Follow(s, a[i], true, n) == ValuesOf(s, a)[i..]
    decreases |a| - i
  {
    hide ValuesOf;
    LinkedAt(s, a, i);
    ValueAt(s, a, i);
    if i + 1 < |a| {
      ForwardLinks(s, a, i + 1, n - 1);
    }
  }

  /** And from the last entry the links back give them in reverse. */
  lemma {:induction false} BackwardLinks(s: map<int, DKey>, a: seq<int>, i: nat, n: nat)
    requires Linked(s, a) && i < |a| && n > i + 1
    ensures i < |ValuesOf(s, a)| && Follow(s, a[i], false, n) == Reversed(ValuesOf(s, a)[..i + 1])
    decreases i
  {
    hide ValuesOf;
    LinkedAt(s, a, i);
    ValueAt(s, a, i);
    var v := ValuesOf(s, a);
    assert v[..i + 1][..i] == v[..i];
    if i > 0 {
      BackwardLinks(s, a, i - 1, n - 1);
    }
  }

  /** Both readings of a valid chain. */
  lemma BothWays(c: Chain, n: nat)
    requires c.Valid() && c.dup != ZNULL && n > |c.addrs|
    ensures Follow(c.ents, c.val, true, n) == c.Values()
    ensures Follow(c.ents, c.dup, false, n) == Reversed(c.Values())
  {
    ValuesLength(c.ents, c.addrs);
    ForwardLinks(c.ents, c.addrs, 0, n);
    BackwardLinks(c.ents, c.addrs, |c.addrs| - 1, n);
    assert c.Values()[0..] == c.Values() && c.Values()[..|c.addrs|] == c.Values();
  }

  /** The links of the entry the context is on, or was on when it was deleted. */
  lemma Neighbours(c: Chain, p: Place)
    requires c.Valid() && c.Shows(p) && p != Out
    ensures c.draddr in c.ents && c.dup != ZNULL
    ensures c.ents[c.draddr].flink == match Moved(p, |c.addrs|, true) case Dup(j) => c.addrs[j] case _ => ZNULL
    ensures c.ents[c.draddr].blink == match Moved(p, |c.addrs|, false) case Dup(j) => c.addrs[j] case _ => ZNULL
    ensures forall j :: 0 <= j < |c.addrs| ==> c.addrs[j] in c.ents && !c.ents[c.addrs[j]].deleted && c.addrs[j] != ZNULL
  {
    if p.Dup? {
      LinkedAt(c.ents, c.addrs, p.at);
    }
  }

  /** Entry cur is marked, and its neighbours lead past it. */
  function Bypassed(s: map<int, DKey>, cur: int, flink: int, blink: int): map<int, DKey>
    requires cur in s && (flink != ZNULL ==> flink in s) && (blink != ZNULL ==> blink in s)
  {
    var s1 := s[cur := s[cur].(deleted := true)];
    var s2 := if blink != ZNULL then s1[blink := s1[blink].(flink := flink)] else s1;
    if flink != ZNULL then s2[flink := s2[flink].(blink := blink)] else s2
  }

  lemma BypassedAt(s: map<int, DKey>, a: seq<int>, i: nat)
    requires Linked(s, a) && i < |a|
    ensures a[i] in s && (i > 0 ==> a[i - 1] in s) && (i + 1 < |a| ==> a[i + 1] in s)
    ensures var f, b := s[a[i]].flink, s[a[i]].blink;
            (f != ZNULL ==> f in s) && (b != ZNULL ==> b in s)
            && var s' := Bypassed(s, a[i], f, b);
            && s'.Keys == s.Keys && s'[a[i]] == s[a[i]].(deleted := true)
            && (i > 0 ==> s'[a[i - 1]] == s[a[i - 1]].(flink := f))
            && (i + 1 < |a| ==> s'[a[i + 1]] == s[a[i + 1]].(blink := b))
            && forall x :: x in s && x != a[i] && (i > 0 ==> x != a[i - 1]) && (i + 1 < |a| ==> x != a[i + 1]) ==> s'[x] == s[x]
  {
    LinkedAt(s, a, i);
    if i > 0 {
      LinkedAt(s, a, i - 1);
    }
    if i + 1 < |a| {
      LinkedAt(s, a, i + 1);
    }
  }

  /** Taking entry i out of the chain: it is marked, its neighbours change a link
      each, and nothing else changes. */
  ghost predicate OthersKept(s: map<int, DKey>, s': map<int, DKey>, a: seq<int>, i: nat) {
    && s'.Keys == s.Keys && i < |a| && a[i] in s && s'[a[i]] == s[a[i]].(deleted := true)
    && (i > 0 && a[i - 1] in s ==> s'[a[i - 1]] == s[a[i - 1]].(flink := s[a[i]].flink))
    && (i + 1 < |a| && a[i + 1] in s ==> s'[a[i + 1]] == s[a[i + 1]].(blink := s[a[i]].blink))
    && forall x :: x in s && x != a[i] && (i > 0 ==> x != a[i - 1]) && (i + 1 < |a| ==> x != a[i + 1]) ==> s'[x] == s[x]
  }

  lemma BypassKeeps(s: map<int, DKey>, a: seq<int>, i: nat)
    requires Linked(s, a) && i < |a|
    ensures a[i] in s && (s[a[i]].flink != ZNULL ==> s[a[i]].flink in s)
    ensures (s[a[i]].blink != ZNULL ==> s[a[i]].blink in s)
    ensures OthersKept(s, Bypassed(s, a[i], s[a[i]].flink, s[a[i]].blink), a, i)
  {
    hide Bypassed, Linked;
    BypassedAt(s, a, i);
  }

  lemma BypassedAlone(s: map<int, DKey>, a: seq<int>)
    requires Linked(s, a) && |a| == 1
    ensures a[0] in s && s[a[0]].flink == s[a[0]].blink == ZNULL
    ensures Bypassed(s, a[0], ZNULL, ZNULL) == s[a[0] := s[a[0]].(deleted := true)]
  {
    LinkedAt(s, a, 0);
  }

  /** The chain without entry i, seen from the entry that was deleted. */
  lemma Gapped(c: Chain, s: map<int, DKey>, a: seq<int>, i: nat)
    requires Linked(s, a) && i < |a| && |a| > 1 && c.addrs == a[..i] + a[i + 1..]
    requires a[i] in s && (s[a[i]].flink != ZNULL ==> s[a[i]].flink in s)
    requires (s[a[i]].blink != ZNULL ==> s[a[i]].blink in s)
    requires c.ents == Bypassed(s, a[i], s[a[i]].flink, s[a[i]].blink)
    requires c.val == c.addrs[0] && c.dup == c.addrs[|c.addrs| - 1] && c.draddr == a[i] && !c.lfexct
    ensures c.Valid() && c.Shows(Gap(i)) && i < |ValuesOf(s, a)|
    ensures c.Values() == ValuesOf(s, a)[..i] + ValuesOf(s, a)[i + 1..]
  {
    hide *;
    AllIn(s, a);
    LinkedAt(s, a, i);
    BypassedAt(s, a, i);
    Unlinked(s, c.ents, a, i);
    ValuesApart(s, c.ents, a, i);
    ChainMade(c, i);
  }

  lemma Unlinked(s: map<int, DKey>, s': map<int, DKey>, a: seq<int>, i: nat)
    requires Linked(s, a) && i < |a| && |a| > 1
    requires s'.Keys == s.Keys
    requires i > 0 ==> s'[a[i - 1]] == s[a[i - 1]].(flink := s[a[i]].flink)
    requires i + 1 < |a| ==> s'[a[i + 1]] == s[a[i + 1]].(blink := s[a[i]].blink)
    requires forall x :: x in s && x != a[i] && (i > 0 ==> x != a[i - 1]) && (i + 1 < |a| ==> x != a[i + 1]) ==> s'[x] == s[x]
    ensures Linked(s', a[..i] + a[i + 1..])
    ensures forall j :: 0 <= j < |a| && j != i ==> s'[a[j]].val == s[a[j]].val
  {
    var b := a[..i] + a[i + 1..];
    LinkedAt(s, a, i);
    forall j | 0 <= j < |b|
      ensures b[j] != ZNULL && b[j] in s' && !s'[b[j]].deleted
      ensures s'[b[j]].flink == if j + 1 < |b| then b[j + 1] else ZNULL
      ensures s'[b[j]].blink == if j > 0 then b[j - 1] else ZNULL
    {
      var k := if j < i then j else j + 1;
      assert b[j] == a[k];
      LinkedAt(s, a, k);
    }
    forall j, k | 0 <= j < k < |b|
      ensures b[j] != b[k]
    {
      assert b[j] == a[if j < i then j else j + 1] && b[k] == a[if k < i then k else k + 1];
    }
    MakeLinked(s', b);
    forall j | 0 <= j < |a| && j != i
      ensures s'[a[j]].val == s[a[j]].val
    {
      LinkedAt(s, a, j);
    }
  }

  lemma MakeLinked(s: map<int, DKey>, a: seq<int>)
    requires forall i :: 0 <= i < |a| ==> a[i] != ZNULL && a[i] in s && !s[a[i]].deleted
    requires forall i :: 0 <= i < |a| ==> s[a[i]].flink == if i + 1 < |a| then a[i + 1] else ZNULL
    requires forall i :: 0 <= i < |a| ==> s[a[i]].blink == if i > 0 then a[i - 1] else ZNULL
    requires forall i, j :: 0 <= i < j < |a| ==> a[i] != a[j]
    ensures Linked(s, a)
  {
  }
}
