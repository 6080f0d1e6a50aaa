/** balbk1: moving keys between two neighbouring leaves, one at a time, through
    the key between them. */
module Balance {
  import opened Constants
  import opened Blocks
  import opened Seqs
  import opened Trees
  import opened Paths
  import opened Orders
  import opened Context
  import opened Split
  import opened Find
  import opened Repair

  /** Leaves l and r hold the two sides of place j of a sorted run of keys. */
  ghost predicate Shared(s: Store, l: int, r: int, all: seq<Entry>, j: int) {
    && l in s && r in s && l != r && 0 <= j <= |all|
    && Keys(s[l]) == all[..j] && Keys(s[r]) == all[j..]
    && s[l].nkeys == j <= ZMXKEY && s[r].nkeys == |all| - j <= ZMXKEY
    && NullLinks(s[l]) && NullLinks(s[r])
  }

  lemma SortedAt(all: seq<Entry>, j: nat)
    requires Sorted(all) && j < |all|
    ensures AllBelow(all[..j], all[j].key) && AllAbove(all[j + 1..], all[j].key)
  {
  }

  lemma AllBelowEnd(ks: seq<Entry>, k: int)
    ensures AllBelow(ks, k) ==> AllBelow(ks[..|ks|], k) && AllAbove(ks[|ks|..], k)
    ensures AllAbove(ks, k) ==> AllBelow(ks[..0], k) && AllAbove(ks[0..], k)
  {
  }

  /** The key left of the window goes to the end of a leaf. */
  lemma PutLast(b: Block, e: Entry)
    requires 0 <= b.nkeys < ZMXKEY && NullLinks(b) && AllBelow(Keys(b), e.key)
    ensures var c := PutKey(b, e, ZNULL, ZNULL);
            Keys(c) == Keys(b) + [e] && NullLinks(c) && c.nkeys == b.nkeys + 1 && c.btype == b.btype
  {
    hide PutKey, AllBelow, AllAbove, Keys, Links;
    CountKeys(b);
    AllBelowEnd(Keys(b), e.key);
    PutLeafAt(b, e, b.nkeys);
    assert Keys(b)[..b.nkeys] == Keys(b) && Keys(b)[b.nkeys..] == [];
    Unit(Keys(b) + [e]);
  }

  lemma PutFirst(b: Block, e: Entry)
    requires 0 <= b.nkeys < ZMXKEY && NullLinks(b) && AllAbove(Keys(b), e.key)
    ensures var c := PutKey(b, e, ZNULL, ZNULL);
            Keys(c) == [e] + Keys(b) && NullLinks(c) && c.nkeys == b.nkeys + 1 && c.btype == b.btype
  {
    hide PutKey, AllBelow, AllAbove, Keys, Links;
    CountKeys(b);
    AllBelowEnd(Keys(b), e.key);
    PutLeafAt(b, e, 0);
    assert Keys(b)[..0] == [] && Keys(b)[0..] == Keys(b);
    Unit([e]);
  }

  /** Taking the first or last key out of a leaf. */
  lemma TakeEnd(b: Block, pos: nat)
    requires pos < b.nkeys <= ZMXKEY && NullLinks(b) && (pos == 0 || pos == b.nkeys - 1)
    ensures var c := RemKey(b, pos);
            && NullLinks(c) && c.nkeys == b.nkeys - 1 && c.btype == b.btype
            && (pos == 0 ==> Keys(c) == Keys(b)[1..])
            && (pos == b.nkeys - 1 ==> Keys(c) == Keys(b)[..b.nkeys - 1])
  {
    hide RemKey;
    RemKeyView(b, pos);
    RemKeyCount(b, pos);
  }

  /** One move to the left... */
  lemma MoveLeft(s: Store, s': Store, l: int, r: int, all: seq<Entry>, j: nat)
    requires Shared(s, l, r, all, j) && Sorted(all) && j < |all| && j < ZMXKEY
    requires l in s' && r in s' && s'[r] == RemKey(s[r], 0) && s'[l] == PutKey(s[l], all[j], ZNULL, ZNULL)
    ensures Shared(s', l, r, all, j + 1) && s'[l].btype == s[l].btype && s'[r].btype == s[r].btype
  {
    hide Keys, Links, PutKey, RemKey, Sorted, AllBelow, AllAbove;
    SortedAt(all, j);
    PutLast(s[l], all[j]);
    TakeEnd(s[r], 0);
    assert all[..j] + [all[j]] == all[..j + 1];
    assert all[j..][1..] == all[j + 1..];
  }

  /** ... and one to the right. */
  lemma MoveRight(s: Store, s': Store, l: int, r: int, all: seq<Entry>, j: nat)
    requires Shared(s, l, r, all, j) && Sorted(all) && 0 < j && |all| - j < ZMXKEY
    requires l in s' && r in s' && s'[l] == RemKey(s[l], j - 1) && s'[r] == PutKey(s[r], all[j - 1], ZNULL, ZNULL)
    ensures Shared(s', l, r, all, j - 1) && s'[l].btype == s[l].btype && s'[r].btype == s[r].btype
  {
    hide Keys, Links, PutKey, RemKey, Sorted, AllBelow, AllAbove;
    SortedAt(all, j - 1);
    PutFirst(s[r], all[j - 1]);
    TakeEnd(s[l], j - 1);
    assert [all[j - 1]] + all[j..] == all[j - 1..];
    assert all[..j][..j - 1] == all[..j - 1];
  }

  /** Before any move: the parent's key joins the leaf that grows. */
  lemma FirstMove(s: Store, s': Store, l: int, r: int, k: Entry, all: seq<Entry>, left: bool)
    requires l in s && r in s && l != r && NullLinks(s[l]) && NullLinks(s[r])
    requires 0 <= s[l].nkeys <= ZMXKEY && 0 <= s[r].nkeys <= ZMXKEY
    requires all == Keys(s[l]) + [k] + Keys(s[r]) && Sorted(all)
    requires (if left then s[l].nkeys else s[r].nkeys) < ZMXKEY
    requires var t := if left then l else r;
             s' == s[t := PutKey(s[t], k, ZNULL, ZNULL)]
    ensures Shared(s', l, r, all, if left then s[l].nkeys + 1 else s[l].nkeys)
    ensures s'[l].btype == s[l].btype && s'[r].btype == s[r].btype
  {
    hide Keys, Links, PutKey, Sorted, AllBelow, AllAbove;
    CountKeys(s[l]);
    CountKeys(s[r]);
    var n := s[l].nkeys;
    SortedAt(all, n);
    assert all[n] == k && all[..n] == Keys(s[l]) && all[n + 1..] == Keys(s[r]);
    if left {
      PutLast(s[l], k);
      assert all[..n + 1] == Keys(s[l]) + [k];
    } else {
      PutFirst(s[r], k);
      assert all[n..] == [k] + Keys(s[r]);
    }
  }

  /** Reading the key that moves next. */
  lemma NextKey(s: Store, l: int, r: int, all: seq<Entry>, j: int)
    requires Shared(s, l, r, all, j)
    ensures j < |all| ==> s[r].nkeys > 0 && |Keys(s[r])| > 0 && Keys(s[r])[0] == all[j]
    ensures j > 0 ==> s[l].nkeys == j && |Keys(s[l])| == j && Keys(s[l])[j - 1] == all[j - 1]
    ensures l in s && r in s && 0 <= s[l].nkeys <= ZMXKEY && 0 <= s[r].nkeys <= ZMXKEY
    ensures s[l].nkeys == j && s[r].nkeys == |all| - j
  {
  }

  /** Sides of the window of leaf sizes in which a balance takes place. */
  lemma Room(nl: nat, nr: nat, m: nat)
    requires nl <= ZMXKEY && nr <= ZMXKEY
    requires nl < nr && nr - nl > ZMXKEY / 2 && m <= (nr - nl) / 2
    ensures nl + 1 + m < ZMXKEY && m + 1 < nr
  {
  }

  /** The last key goes to the parent. */
  lemma LastMove(s: Store, s': Store, p: int, i: nat, l: int, r: int, all: seq<Entry>, j: nat, left: bool)
    requires Shared(s, l, r, all, j) && p in s && p != l && p != r && i < s[p].nkeys <= ZMXKEY
    requires left ==> j + 1 < |all| && 0 < j
    requires !left ==> 1 < j < |all|
    requires p in s' && l in s' && r in s'
    requires var k' := if left then all[j] else all[j - 1];
             && s'[p] == RepKey(s[p], i, k', l, r)
             && s'[l] == (if left then s[l] else RemKey(s[l], j - 1))
             && s'[r] == (if left then RemKey(s[r], 0) else s[r])
    ensures var k' := if left then all[j] else all[j - 1];
            && Keys(s'[l]) + [k'] + Keys(s'[r]) == all
            && NullLinks(s'[l]) && NullLinks(s'[r])
            && s'[l].btype == s[l].btype && s'[r].btype == s[r].btype
            && 1 <= s'[l].nkeys <= ZMXKEY && 1 <= s'[r].nkeys <= ZMXKEY
            && s'[l].nkeys == (if left then j else j - 1) && s'[r].nkeys == |all| - 1 - s'[l].nkeys
  {
    hide Keys, Links, RemKey, RepKey;
    if left {
      TakeEnd(s[r], 0);
      assert all == all[..j] + [all[j]] + all[j + 1..];
      assert all[j..][1..] == all[j + 1..];
    } else {
      TakeEnd(s[l], j - 1);
      assert all == all[..j - 1] + [all[j - 1]] + all[j..];
      assert all[..j][..j - 1] == all[..j - 1];
    }
  }

  /** |diff / 2| with the division of C. */
  function HalfOf(diff: int): nat {
    if diff < 0 then -diff / 2 else diff / 2
  }

  /** The loop of balbk1: keys go from fblk to tblk. */
  method MoveKeys(ix: Index, lblk: int, rblk: int, diff: int, ghost all: seq<Entry>, ghost n: nat)
    returns (keypos: int)
    requires Calm(ix)
    requires Sorted(all) && Shared(ix.store, lblk, rblk, all, if diff < 0 then n + 1 else n)
    requires n < |all| && diff == n - (|all| - 1 - n) && (diff > ZMXKEY / 2 || -diff > ZMXKEY / 2)
    requires n <= ZMXKEY && |all| - 1 - n <= ZMXKEY
    modifies ix`store
    ensures Calm(ix)
    ensures var j := if diff < 0 then n + 1 + HalfOf(diff) else n - HalfOf(diff);
            Shared(ix.store, lblk, rblk, all, j) && keypos == if diff < 0 then 0 else j - 1
    ensures forall x :: x in ix.store <==> x in old(ix.store)
    ensures forall x :: x in ix.store && x != lblk && x != rblk ==> ix.store[x] == old(ix.store[x])
    ensures lblk in ix.store && rblk in ix.store && lblk in old(ix.store) && rblk in old(ix.store)
    ensures ix.store[lblk].btype == old(ix.store[lblk]).btype && ix.store[rblk].btype == old(ix.store[rblk]).btype
    ensures Worded(old(ix.store), ix.store, ix.scroot)
  {
    hide Shared, Sorted, OnlyPair, Calm, Keys, Worded;
    WordedRefl(ix.store, ix.scroot);
    ghost var s0 := ix.store;
    ghost var j: int := if diff < 0 then n + 1 else n;
    NextKey(ix.store, lblk, rblk, all, j);
    SharedApart(ix.store, lblk, rblk, all, j);
    OnlyPairIs(s0, s0, lblk, rblk);
    var dir, tblk, fblk, limit;
    if diff < 0 {
      dir, tblk, fblk, keypos := 1, lblk, rblk, 0;
      limit := HalfOf(diff);
      Room(n, |all| - 1 - n, limit);
    } else {
      dir, tblk, fblk := -1, rblk, lblk;
      var b := Read(ix, fblk);
      keypos := b.nkeys - 1;
      limit := keypos - HalfOf(diff);
      Room(|all| - 1 - n, n, HalfOf(diff));
    }
    var i := keypos;
    ghost var m: nat := 0;
    while i != limit
      invariant m <= HalfOf(diff) && Calm(ix)
      invariant i == (if diff < 0 then m else n - 1 - m) && keypos == (if diff < 0 then 0 else i)
      invariant j == if diff < 0 then n + 1 + m else n - m
      invariant Shared(ix.store, lblk, rblk, all, j) && OnlyPair(s0, ix.store, lblk, rblk)
      invariant Worded(s0, ix.store, ix.scroot)
      decreases HalfOf(diff) - m
    {
      ghost var s := ix.store;
      MoveOne(ix, fblk, tblk, keypos, lblk, rblk, all, j);
      OnlyPairTrans(s0, s, ix.store, lblk, rblk);
      WordedTrans(s0, s, ix.store, ix.scroot);
      if dir < 0 {
        keypos := keypos - 1;
      }
      j := j + dir;
      i := i + dir;
      m := m + 1;
    }
    OnlyPairIs(s0, ix.store, lblk, rblk);
  }

  /** Two blocks may differ, but keep their types. */
  ghost predicate OnlyPair(s: Store, s': Store, l: int, r: int) {
    && l in s && r in s && l in s' && r in s' && s'[l].btype == s[l].btype && s'[r].btype == s[r].btype
    && (forall x :: x in s' <==> x in s)
    && (forall x :: x in s' && x != l && x != r ==> x in s && s'[x] == s[x])
  }

  lemma OnlyPairIs(s: Store, s': Store, l: int, r: int)
    ensures l in s && r in s ==> OnlyPair(s, s, l, r)
    ensures OnlyPair(s, s', l, r) ==>
              && l in s && r in s && l in s' && r in s' && s'[l].btype == s[l].btype && s'[r].btype == s[r].btype
              && (forall x :: x in s' <==> x in s)
              && (forall x :: x in s' && x != l && x != r ==> s'[x] == s[x])
  {
  }

  lemma OnlyPairTrans(s: Store, s1: Store, s2: Store, l: int, r: int)
    requires OnlyPair(s, s1, l, r) && OnlyPair(s1, s2, l, r)
    ensures OnlyPair(s, s2, l, r)
  {
  }

  lemma PairChanged(s: Store, l: int, r: int, a: Block, b: Block)
    requires l in s && r in s && l != r && a.btype == s[l].btype && b.btype == s[r].btype
    ensures OnlyPair(s, s[l := a][r := b], l, r) && s[l := a][r := b] == s[r := b][l := a]
  {
  }

  /** One key goes from one leaf to the other. */
  method MoveOne(ix: Index, fblk: int, tblk: int, keypos: int, ghost lblk: int, ghost rblk: int,
                 ghost all: seq<Entry>, ghost j: nat)
    requires Calm(ix) && Shared(ix.store, lblk, rblk, all, j) && Sorted(all)
    requires (fblk == rblk && tblk == lblk && j < |all| && j < ZMXKEY && keypos == 0)
          || (fblk == lblk && tblk == rblk && 0 < j && |all| - j < ZMXKEY && keypos == j - 1)
    modifies ix`store
    ensures Calm(ix) && Shared(ix.store, lblk, rblk, all, if fblk == rblk then j + 1 else j - 1)
    ensures OnlyPair(old(ix.store), ix.store, lblk, rblk) && Worded(old(ix.store), ix.store, ix.scroot)
  {
    hide *;
    ghost var s := ix.store;
    CalmIs(ix);
    NextKey(s, lblk, rblk, all, j);
    SharedApart(s, lblk, rblk, all, j);
    var kep, _, _, _ := Fetch(ix, fblk, keypos);
    Remove(ix, fblk, keypos);
    CalmIs(ix);
    ghost var s1 := ix.store;
    Put(ix, tblk, kep, ZNULL, ZNULL);
    WordedTrans(s, s1, ix.store, ix.scroot);
    CalmIs(ix);
    if fblk == rblk {
      MoveLeft(s, ix.store, lblk, rblk, all, j);
      PairChanged(s, lblk, rblk, PutKey(s[lblk], kep, ZNULL, ZNULL), RemKey(s[rblk], 0));
    } else {
      MoveRight(s, ix.store, lblk, rblk, all, j);
      PairChanged(s, lblk, rblk, RemKey(s[lblk], j - 1), PutKey(s[rblk], kep, ZNULL, ZNULL));
    }
  }

  lemma SharedApart(s: Store, l: int, r: int, all: seq<Entry>, j: int)
    requires Shared(s, l, r, all, j)
    ensures l != r && 0 <= j <= |all|
  {
  }

  /** balbk1.  The parent is the last found block, at the key between the leaves. */
  method BalanceLeaves(ix: Index, lblk: int, rblk: int, diff: int, kep: Entry) returns (ghost k': Entry)
    requires Calm(ix)
    requires lblk in ix.store && rblk in ix.store && ix.lfblk in ix.store
    requires lblk != rblk && ix.lfblk != lblk && ix.lfblk != rblk
    requires 0 <= ix.lfpos < ix.store[ix.lfblk].nkeys <= ZMXKEY
    requires 0 <= ix.store[lblk].nkeys <= ZMXKEY && 0 <= ix.store[rblk].nkeys <= ZMXKEY
    requires NullLinks(ix.store[lblk]) && NullLinks(ix.store[rblk])
    requires Sorted(Keys(ix.store[lblk]) + [kep] + Keys(ix.store[rblk]))
    requires diff == ix.store[lblk].nkeys - ix.store[rblk].nkeys
    requires diff > ZMXKEY / 2 || -diff > ZMXKEY / 2
    modifies ix`store
    ensures Balanced(old(ix.store), ix.store, ix.lfblk, ix.lfpos, lblk, rblk, kep, k')
    ensures lblk in ix.store && rblk in ix.store
    ensures var a, b := ix.store[lblk].nkeys, ix.store[rblk].nkeys;
            a + b == old(ix.store[lblk].nkeys + ix.store[rblk].nkeys) && -2 <= a - b <= 2
    ensures forall x :: x in ix.store <==> x in old(ix.store)
    ensures Worded(old(ix.store), ix.store, ix.scroot)
  {
    hide *;
    ghost var s0 := ix.store;
    ghost var all, n := Keys(s0[lblk]) + [kep] + Keys(s0[rblk]), s0[lblk].nkeys;
    CalmIs(ix);
    CountKeys(s0[lblk]);
    CountKeys(s0[rblk]);
    CountIs(s0[lblk]);
    CountIs(s0[rblk]);
    HalfBound(diff, n, s0[rblk].nkeys);
    Put(ix, if diff < 0 then lblk else rblk, kep, ZNULL, ZNULL);
    FirstMove(s0, ix.store, lblk, rblk, kep, all, diff < 0);
    CalmIs(ix);
    ghost var s1 := ix.store;
    var keypos := MoveKeys(ix, lblk, rblk, diff, all, n);
    WordedTrans(s0, s1, ix.store, ix.scroot);
    ghost var s2 := ix.store;
    ghost var j := if diff < 0 then n + 1 + HalfOf(diff) else n - HalfOf(diff);
    k' := RotateLast(ix, lblk, rblk, diff < 0, keypos, all, j);
    WordedTrans(s0, s2, ix.store, ix.scroot);
    MakeBalanced(s0, ix.store, ix.lfblk, ix.lfpos, lblk, rblk, kep, k');
  }

  /** The last key goes to the parent. */
  method RotateLast(ix: Index, lblk: int, rblk: int, left: bool, keypos: int, ghost all: seq<Entry>,
                    ghost j: nat) returns (ghost k': Entry)
    requires Calm(ix) && Shared(ix.store, lblk, rblk, all, j)
    requires ix.lfblk in ix.store && ix.lfblk != lblk && ix.lfblk != rblk
    requires 0 <= ix.lfpos < ix.store[ix.lfblk].nkeys <= ZMXKEY
    requires if left then 0 < j && j + 1 < |all| && keypos == 0 else 1 < j < |all| && keypos == j - 1
    modifies ix`store
    ensures ix.lfblk in ix.store && lblk in ix.store && rblk in ix.store
    ensures ix.store[ix.lfblk] == RepKey(old(ix.store[ix.lfblk]), ix.lfpos, k', lblk, rblk)
    ensures Keys(ix.store[lblk]) + [k'] + Keys(ix.store[rblk]) == all
    ensures lblk in old(ix.store) && rblk in old(ix.store)
    ensures ix.store[lblk].btype == old(ix.store[lblk]).btype && ix.store[rblk].btype == old(ix.store[rblk]).btype
    ensures NullLinks(ix.store[lblk]) && NullLinks(ix.store[rblk])
    ensures 1 <= ix.store[lblk].nkeys <= ZMXKEY && 1 <= ix.store[rblk].nkeys <= ZMXKEY
    ensures ix.store[lblk].nkeys == (if left then j else j - 1) && ix.store[rblk].nkeys == |all| - 1 - ix.store[lblk].nkeys
    ensures forall x :: x in ix.store <==> x in old(ix.store)
    ensures forall x :: x in ix.store && x != ix.lfblk && x != lblk && x != rblk ==> ix.store[x] == old(ix.store[x])
    ensures Worded(old(ix.store), ix.store, ix.scroot)
  {
    hide *;
    ghost var s1 := ix.store;
    CalmIs(ix);
    NextKey(s1, lblk, rblk, all, j);
    SharedApart(s1, lblk, rblk, all, j);
    var fblk := if left then rblk else lblk;
    var last, _, _, _ := Fetch(ix, fblk, keypos);
    k' := last;
    var parent := Read(ix, ix.lfblk);
    var pnkeys, ppos := parent.nkeys, ix.lfpos;
    ppos := if ppos == pnkeys then pnkeys - 1 else ppos;
    Replace(ix, ix.lfblk, ppos, last, lblk, rblk);
    CalmIs(ix);
    ghost var s2 := ix.store;
    Remove(ix, fblk, keypos);
    WordedTrans(s1, s2, ix.store, ix.scroot);
    LastMove(s1, ix.store, ix.lfblk, ix.lfpos, lblk, rblk, all, j, left);
  }

  lemma HalfBound(diff: int, nl: nat, nr: nat)
    requires diff == nl - nr && nl <= ZMXKEY && nr <= ZMXKEY && (diff > ZMXKEY / 2 || -diff > ZMXKEY / 2)
    ensures var h := HalfOf(diff);
            if diff < 0 then nl < ZMXKEY && h + 1 < nr && -2 <= (nl + 1 + h) - (nr - h - 1) <= 2
            else nr < ZMXKEY && h + 1 < nl && -2 <= (nl - h - 1) - (nr + 1 + h) <= 2
  {
  }

  lemma MakeBalanced(s: Store, s': Store, p: int, i: nat, l: int, r: int, k: Entry, k': Entry)
    requires p in s && l in s && r in s && p in s' && l in s' && r in s'
    requires i < s[p].nkeys <= ZMXKEY && s'[p] == RepKey(s[p], i, k', l, r)
    requires 1 <= s'[l].nkeys <= ZMXKEY && 1 <= s'[r].nkeys <= ZMXKEY
    requires s'[l].btype == s[l].btype && s'[r].btype == s[r].btype
    requires NullLinks(s'[l]) && NullLinks(s'[r])
    requires Keys(s'[l]) + [k'] + Keys(s'[r]) == Keys(s[l]) + [k] + Keys(s[r])
    requires forall x :: x in s && x != p && x != l && x != r ==> x in s' && s'[x] == s[x]
    ensures Balanced(s, s', p, i, l, r, k, k')
  {
  }
}
