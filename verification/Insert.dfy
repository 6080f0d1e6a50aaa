/** binsky with duplicates off: an insert is an update of the map. */
module Insert {
  import opened Constants
  import opened Blocks
  import opened Seqs
  import opened Trees
  import opened Paths
  import opened Orders
  import opened Context
  import opened Split
  import opened Find
  import opened Leaf

  /** A leaf change seen from the whole tree. */
  lemma LeafGraft(s: Store, s': Store, root: int, H: nat, front: seq<Frame>, blk: int)
    requires TreeOK(s, root, H) && PathOK(s, root, H, front) && |front| == H && blk == Target(s, root, front)
    requires blk in s && blk in s' && (forall x :: x in s && x != blk ==> x in s' && s'[x] == s[x])
    requires 0 <= s'[blk].nkeys <= ZMXKEY && s'[blk].btype == s[blk].btype
    requires forall i :: 0 <= i < |Links(s'[blk])| ==> Links(s'[blk])[i] == ZNULL
    requires H > 0 ==> s'[blk].nkeys >= 1
    ensures TreeOK(s', root, H) && Blks(s', root, H) == Blks(s, root, H)
    ensures PathOK(s', root, H, front) && Target(s', root, front) == blk
    ensures Lft(s', root, H, front) == Lft(s, root, H, front) && Rgt(s', root, H, front) == Rgt(s, root, H, front)
    ensures Ents(s', root, H) == Lft(s, root, H, front) + Keys(s'[blk]) + Rgt(s, root, H, front)
  {
    hide Ents, Blks, Lft, Rgt, Unique, NodeOK, KidOK, PathOK, Off, Links;
    PathTarget(s, root, H, front);
    NodeKids(s, blk, 0);
    BlksNode(s, blk, 0);
    BlksNode(s', blk, 0);
    LeafOff(s, s', root, H, blk);
    Plug(s, s', root, H, front);
    Cancel(Blks(s', root, H), Blks(s, root, H), multiset{blk});
    MakeNode(s', blk, 0);
    if |front| > 0 {
      KidType(s, blk, 0);
      MakeKid(s', blk, 0);
    } else {
      PathNil(s, root, H, front);
    }
    PathTarget(s', root, H, front);
    EntsNode(s', blk, 0);
  }

  lemma LeafOff(s: Store, s': Store, root: int, H: nat, blk: int)
    requires NodeOK(s, root, H)
    requires forall x :: x in s && x != blk ==> x in s' && s'[x] == s[x]
    ensures Off(s, s', Blks(s, root, H), multiset{blk})
  {
    hide Blks, NodeOK;
    forall x | x in Blks(s, root, H) && x !in multiset{blk}
      ensures x in s' && x in s && s'[x] == s[x]
    {
      BlksAllocated(s, root, H, x);
    }
  }

  lemma TypesKept(b: Block, e: Entry)
    requires 0 <= b.nkeys < ZMXKEY
    ensures PutKey(b, e, ZNULL, ZNULL).btype == b.btype && PutKey(b, e, ZNULL, ZNULL).nkeys == b.nkeys + 1
  {
  }

  /** The context after an insert: a position of a leaf, with the new entry to its
      right.  In an index that was empty it is not a position: the search of an empty
      block leaves -1, and the insert does not change that. */
  ghost predicate Placed(s: Store, root: int, H: nat, front: seq<Frame>, stk: seq<int>, blk: int, pos: int, e: Entry,
                         first: bool) {
    && OnPath(stk, blk, pos, front + [Frame(blk, pos)]) && |front| == H && blk in s
    && if first then blk == root && pos == ZNULL && s[blk].nkeys == 1 && Keys(s[blk]) == [e]
       else AtPos(s, root, H, front, Frame(blk, pos)) && pos < |Keys(s[blk])| && Keys(s[blk])[pos] == e
  }

  lemma MakePlaced(s: Store, root: int, H: nat, front: seq<Frame>, stk: seq<int>, blk: int, pos: int, e: Entry, n: nat)
    requires TreeOK(s, root, H) && PathOK(s, root, H, front) && Target(s, root, front) == blk && |front| == H
    requires OnPath(stk, blk, pos, front + [Frame(blk, pos)]) && blk in s && 0 <= s[blk].nkeys <= ZMXKEY
    requires s[blk].nkeys == n + 1 && (if n == 0 then pos == -1 && H == 0 else 0 <= pos <= n)
    requires |Keys(s[blk])| == n + 1 && Keys(s[blk])[if pos < 0 then 0 else pos] == e
    ensures Placed(s, root, H, front, stk, blk, pos, e, n == 0)
  {
    hide NodeOK, Blks, Unique, OnPath;
    if n == 0 {
      PathNil(s, root, H, front);
    }
  }

  /** A leaf insert changes nothing but the gap. */
  lemma InsertInGap(s: Store, s': Store, root: int, H: nat, es: seq<Entry>, front: seq<Frame>, blk: int, pos: int,
                    e: Entry)
    requires GapAt(s, root, H, es, front, blk, pos, e.key)
    requires 0 <= s[blk].nkeys < ZMXKEY
    requires s' == s[blk := PutKey(s[blk], e, ZNULL, ZNULL)]
    ensures TreeOK(s', root, H) && Blks(s', root, H) == Blks(s, root, H)
    ensures Sorted(Ents(s', root, H))
    ensures ToMap(Ents(s', root, H)) == ToMap(es)[e.key := e.val]
    ensures PathOK(s', root, H, front) && Target(s', root, front) == blk && |front| == H
    ensures var q, ks := if pos < 0 then 0 else pos, Keys(s[blk]);
            q <= |ks| && Keys(s'[blk]) == ks[..q] + [e] + ks[q..] && s'[blk].nkeys == s[blk].nkeys + 1
  {
    hide *;
    GapParts(s, root, H, es, front, blk, pos, e.key);
    var q := if pos < 0 then 0 else pos;
    var ks, a, b := Keys(s[blk]), Lft(s, root, H, front), Rgt(s, root, H, front);
    GapTree(s, root, H, es, front, blk, pos, e.key);
    TypesKept(s[blk], e);
    PutLeaf(s[blk], e, q);
    LeafLinksAfter(s[blk], e, q);
    LeafGraft(s, s', root, H, front, blk);
    var l, r := a + ks[..q], ks[q..] + b;
    PathArith(a, ks[..q], [e], ks[q..], b);
    Cut(ks, q);
    PathArith(a, ks[..q], [], ks[q..], b);
    Unit(ks[..q]);
    Unit(l);
    BelowConcat(a, ks[..q], e.key);
    BelowConcat(ks[q..], b, e.key);
    ToMapGap(l, e, r);
  }

  lemma GapTree(s: Store, root: int, H: nat, es: seq<Entry>, front: seq<Frame>, blk: int, pos: int, key: int)
    requires GapAt(s, root, H, es, front, blk, pos, key)
    ensures TreeOK(s, root, H) && PathOK(s, root, H, front) && |front| == H && blk == Target(s, root, front)
    ensures blk in s && (s[blk].nkeys > 0 ==> forall i :: 0 <= i < |Links(s[blk])| ==> Links(s[blk])[i] == ZNULL)
  {
    SearchBlockOK(s, root, H, es, front, blk, key);
    LeafLinks(s, blk);
  }

  lemma LeafLinksAfter(b: Block, e: Entry, q: nat)
    requires 0 <= b.nkeys < ZMXKEY && q <= b.nkeys
    requires b.nkeys > 0 ==> forall i :: 0 <= i < |Links(b)| ==> Links(b)[i] == ZNULL
    requires AllBelow(Keys(b)[..q], e.key) && AllAbove(Keys(b)[q..], e.key)
    ensures var c := PutKey(b, e, ZNULL, ZNULL); forall i :: 0 <= i < |Links(c)| ==> Links(c)[i] == ZNULL
  {
    hide PutKey, Keys, AllBelow, AllAbove;
    PutLeaf(b, e, q);
  }

  lemma SlackAfterLeaf(s: Store, s': Store, m: multiset<int>, blk: int)
    requires SlackBut(s, m, ZNULL) && blk in s && blk in s'
    requires s'[blk].link[0] == ZNULL
    requires forall x :: x in s' && x != blk ==> x in s && s'[x] == s[x]
    ensures SlackBut(s', m, ZNULL)
  {
  }

  /** The block at hand is one of the owned blocks, not one of the rest. */
  lemma OwnedBlock(s: Store, root: int, H: nat, front: seq<Frame>, blk: int, rest: set<int>, free: seq<int>)
    requires NodeOK(s, root, H) && PathOK(s, root, H, front) && blk == Target(s, root, front)
    requires Blks(s, root, H) + multiset(rest) + multiset(free) == multiset(s.Keys)
    ensures blk in Blks(s, root, H) && blk in Blks(s, root, H) + multiset(rest) && blk !in rest
    ensures forall x :: x in rest ==> x in s
  {
    hide Blks, NodeOK, PathOK, Ents, Lft, Rgt;
    PathTarget(s, root, H, front);
    NodeKids(s, blk, H - |front|);
    BlksNode(s, blk, H - |front|);
    InUsed(blk, Blks(s, blk, H - |front|), Blks(s, root, H), rest);
    RestApart(s, Blks(s, root, H), rest, free, blk);
    forall x | x in rest
      ensures x in s
    {
      RestApart(s, Blks(s, root, H), rest, free, x);
    }
  }

  /** The insert itself, at the leaf gap the search left behind. */
  method PutInGap(ix: Index, e: Entry, ghost es: seq<Entry>, ghost front: seq<Frame>)
    requires Calm(ix)
    requires Landed(ix, es, front, e.key, QNOKEY, 0)
    requires ix.lfblk in ix.store && ix.store[ix.lfblk].nkeys < ZMXKEY
    modifies ix`store
    ensures ix.Valid() && ix.Contents() == ToMap(es)[e.key := e.val]
    ensures Blks(ix.store, ix.scroot, ix.height) == Blks(old(ix.store), ix.scroot, ix.height)
    ensures old(Slack(ix)) ==> Slack(ix)
    ensures Kept(old(ix.store), ix.store, ix.scroot, ix.rest)
    ensures Placed(ix.store, ix.scroot, ix.height, front, ix.stk, ix.lfblk, ix.lfpos, e, es == [])
  {
    hide *;
    ghost var s, root, H, blk, pos, rest, free := ix.store, ix.scroot, ix.height, ix.lfblk, ix.lfpos, ix.rest, ix.free;
    LandedGap(ix, es, front, e.key);
    RootOf(ix, es, front, e.key);
    SlackIs(ix);
    GapParts(s, root, H, es, front, blk, pos, e.key);
    GapTree(s, root, H, es, front, blk, pos, e.key);
    OwnedBlock(s, root, H, front, blk, rest, free);
    GapEmpty(ix, es, front, e.key);
    Put(ix, ix.lfblk, e, ZNULL, ZNULL);
    InsertInGap(s, ix.store, root, H, es, front, blk, pos, e);
    AllocFrame(s, ix.store, ix.sblkmx, ix.sfreep, ix.snfree, ix.free, Blks(s, root, H) + multiset(rest));
    MakeValid(ix);
    MakePlaced(ix.store, root, H, front, ix.stk, blk, pos, e, s[blk].nkeys);
    FirstLinkAfter(s[blk], e, if pos < 0 then 0 else pos);
    if SlackBut(s, Blks(s, root, H), ZNULL) {
      SlackAfterLeaf(s, ix.store, Blks(s, root, H), blk);
    }
    KeptOne(s, ix.store, root, rest, blk);
    SlackIs(ix);
  }

  lemma RootOf(ix: Index, es: seq<Entry>, front: seq<Frame>, key: int)
    requires GapAt(ix.store, ix.scroot, ix.height, es, front, ix.lfblk, ix.lfpos, key)
    ensures ix.scroot in ix.store
  {
    hide Ents, Blks, Lft, Rgt, Unique, PathOK, AllBelow, AllAbove, Sorted;
  }

  lemma KeptOne(s: Store, s': Store, root: int, rest: set<int>, blk: int)
    requires root in s && Worded(s, s', root)
    requires blk !in rest && (forall x :: x in rest ==> x in s)
    requires forall x :: x in s && x != blk ==> x in s' && s'[x] == s[x]
    ensures Kept(s, s', root, rest)
  {
  }

  lemma FirstLinkAfter(b: Block, e: Entry, q: nat)
    requires 0 <= b.nkeys < ZMXKEY && q <= b.nkeys
    requires b.nkeys > 0 ==> forall i :: 0 <= i < |Links(b)| ==> Links(b)[i] == ZNULL
    requires AllBelow(Keys(b)[..q], e.key) && AllAbove(Keys(b)[q..], e.key)
    ensures PutKey(b, e, ZNULL, ZNULL).link[0] == ZNULL
  {
    hide PutKey, AllBelow, AllAbove, Keys;
    LeafLinksAfter(b, e, q);
    assert Links(PutKey(b, e, ZNULL, ZNULL))[0] == ZNULL;
  }

  lemma LandedGap(ix: Index, es: seq<Entry>, front: seq<Frame>, key: int)
    requires Landed(ix, es, front, key, QNOKEY, 0)
    ensures GapAt(ix.store, ix.scroot, ix.height, es, front, ix.lfblk, ix.lfpos, key)
    ensures NodeOK(ix.store, ix.scroot, ix.height)
    ensures AllocOK(ix.store, ix.sblkmx, ix.sfreep, ix.snfree, ix.free,
                    Blks(ix.store, ix.scroot, ix.height) + multiset(ix.rest))
    ensures Blks(ix.store, ix.scroot, ix.height) + multiset(ix.rest) + multiset(ix.free) == multiset(ix.store.Keys)
  {
  }

  /** Only the gap of an empty index is in an empty block. */
  lemma GapEmpty(ix: Index, es: seq<Entry>, front: seq<Frame>, key: int)
    requires Landed(ix, es, front, key, QNOKEY, 0)
    ensures ix.lfblk in ix.store && OnPath(ix.stk, ix.lfblk, ix.lfpos, front + [Frame(ix.lfblk, ix.lfpos)])
    ensures es == [] <==> ix.store[ix.lfblk].nkeys == 0
    ensures if ix.store[ix.lfblk].nkeys == 0 then ix.lfpos == -1 && ix.height == 0
            else 0 <= ix.lfpos <= ix.store[ix.lfblk].nkeys
  {
    hide Ents, Blks, Lft, Rgt, AllBelow, AllAbove, AllocOK, Sorted, Unique, PathOK, NodeOK, OnPath;
    SearchBlockOK(ix.store, ix.scroot, ix.height, es, front, ix.lfblk, key);
    CountKeys(ix.store[ix.lfblk]);
    EntsNode(ix.store, ix.lfblk, 0);
    if ix.store[ix.lfblk].nkeys == 0 {
      PathNil(ix.store, ix.scroot, ix.height, front);
      Unit(Keys(ix.store[ix.lfblk]));
    }
  }

  lemma GapAtPos(ix: Index, front: seq<Frame>, key: int)
    requires Landed(ix, ix.Entries(), front, key, QNOKEY, 0)
    ensures ix.lfblk in ix.store && |front| == ix.height
    ensures ix.store[ix.lfblk].nkeys != 0 ==>
              && AtPos(ix.store, ix.scroot, ix.height, front, Frame(ix.lfblk, ix.lfpos))
              && OnPath(ix.stk, ix.lfblk, ix.lfpos, front + [Frame(ix.lfblk, ix.lfpos)])
  {
    hide Ents, Blks, Lft, Rgt, AllBelow, AllAbove, AllocOK, Sorted, Unique;
    SearchBlockOK(ix.store, ix.scroot, ix.height, ix.Entries(), front, ix.lfblk, key);
  }

  lemma MakeValid(ix: Index)
    requires TreeOK(ix.store, ix.scroot, ix.height) && Sorted(Ents(ix.store, ix.scroot, ix.height))
    requires AllocOK(ix.store, ix.sblkmx, ix.sfreep, ix.snfree, ix.free,
                     Blks(ix.store, ix.scroot, ix.height) + multiset(ix.rest))
    ensures ix.Valid()
    ensures ix.Entries() == Ents(ix.store, ix.scroot, ix.height)
    ensures ix.Contents() == ToMap(Ents(ix.store, ix.scroot, ix.height))
  {
  }

  /** bleaf and bputky after a failed search. */
  method InsertAt(ix: Index, key: int, val: int, ghost front: seq<Frame>)
    requires Calm(ix)
    requires ix.Valid() && ix.smode == 0
    requires Landed(ix, ix.Entries(), front, key, QNOKEY, 0)
    requires PathSlack(ix.store, front + [Frame(ix.lfblk, ix.lfpos)])
    modifies ix`store, ix`stk, ix`lfblk, ix`lfpos
    ensures ix.Valid() && ix.Contents() == old(ix.Contents())[key := val] && Calm(ix)
    ensures old(Slack(ix)) ==> Slack(ix)
    ensures Kept(old(ix.store), ix.store, ix.scroot, ix.rest)
    ensures Placed(ix.store, ix.scroot, ix.height, front, ix.stk, ix.lfblk, ix.lfpos, Entry(key, val),
                   old(ix.Entries()) == [])
  {
    hide *;
    CalmIs(ix);
    ghost var es := ix.Entries();
    StartSearch(ix, key);
    GapAtPos(ix, front, key);
    LastSlack(ix.store, front, Frame(ix.lfblk, ix.lfpos));
    SeesSelf(ix.store, ix.height, front, Frame(ix.lfblk, ix.lfpos));
    var _ := GoLeaf(ix, 1, front, ix.store);
    PutInGap(ix, Entry(key, val), es, front);
  }

  lemma LastSlack(s: Store, front: seq<Frame>, f: Frame)
    requires PathSlack(s, front + [f])
    ensures f.blk in s && s[f.blk].nkeys < ZMXKEY
  {
    assert (front + [f])[|front|] == f;
  }

  /** binsky in exclusive mode on a root that does not allow duplicates.  After an
      insert the context is in the gap before the new key, unless that is the first
      key of the index; a key already there is under the cursor. */
  method InsertKey(ix: Index, key: int, val: int) returns (status: int, ghost front: seq<Frame>)
    requires Calm(ix)
    requires ix.Valid()
    modifies ix`store, ix`sblkmx, ix`snfree, ix`sfreep, ix`free, ix`stk, ix`lfblk, ix`lfpos, ix`lfexct, ix`lfkey,
             ix`height, ix`busy
    ensures Calm(ix)
    ensures ix.Valid()
    ensures ix.smode != 0 ==> status == QNOWRT && unchanged(ix)
    ensures ix.smode == 0 && key !in old(ix.Contents()) ==>
              status == 0 && ix.Contents() == old(ix.Contents())[key := val]
    ensures ix.smode == 0 && key in old(ix.Contents()) ==>
              && status == QDUP && ix.Entries() == old(ix.Entries()) && ix.Contents() == old(ix.Contents())
              && key in ix.Contents() && Landed(ix, ix.Entries(), front, key, 0, ix.Contents()[key])
    ensures ix.smode == 0 ==> ix.lfkey == key && ix.lfexct == (status != 0)
    ensures status == 0 ==>
              Placed(ix.store, ix.scroot, ix.height, front, ix.stk, ix.lfblk, ix.lfpos, Entry(key, val), old(ix.Entries()) == [])
    ensures old(Slack(ix)) ==> Slack(ix)
    ensures Kept(old(ix.store), ix.store, ix.scroot, ix.rest)
  {
    assert QNOWRT != 0;
    hide *;
    StartSearch(ix, key);
    KeptRefl(ix.store, ix.scroot, ix.rest);
    front := [];
    if ix.smode != 0 {
      status := QNOWRT;
    } else {
      ghost var m, es := ix.Contents(), ix.Entries();
      status, front := InsertSearched(ix, key, val, m, es, ix.store);
      InsertEndsIs(ix, key, val, m, es, front);
    }
  }

  /** The search before an insert. */
  method FindGap(ix: Index, key: int) returns (found: bool, ghost front: seq<Frame>)
    requires Calm(ix) && ix.Valid() && ix.smode == 0
    modifies ix`store, ix`sblkmx, ix`snfree, ix`sfreep, ix`free, ix`stk, ix`lfblk, ix`lfpos, ix`lfexct, ix`lfkey,
             ix`height, ix`busy
    ensures Calm(ix) && ix.Valid() && ix.Entries() == old(ix.Entries()) && ix.Contents() == old(ix.Contents())
    ensures ix.lfkey == key && ix.lfexct == found
    ensures found <==> key in ix.Contents()
    ensures found ==> Landed(ix, ix.Entries(), front, key, 0, ix.Contents()[key])
    ensures !found ==> Landed(ix, ix.Entries(), front, key, QNOKEY, 0) && PathSlack(ix.store, front + [Frame(ix.lfblk, ix.lfpos)])
    ensures old(Slack(ix)) ==> Slack(ix)
    ensures Kept(old(ix.store), ix.store, ix.scroot, ix.rest)
  {
    assert QNOKEY != 0;
    hide *;
    var status, val;
    status, val, front := FindKey(ix, key);
    found := status == 0;
    if !found {
      NoValue(ix, ix.Entries(), front, key, val);
    }
  }

  /** Where an insert leaves the context: on the key when it was there, else beside
      the new one. */
  ghost predicate InsertEnds(ix: Index, key: int, val: int, m: map<int, int>, es: seq<Entry>, front: seq<Frame>)
    reads ix
  {
    && ix.lfkey == key && ix.lfexct == (key in m)
    && if key in m then ix.Entries() == es && Landed(ix, es, front, key, 0, m[key])
       else Placed(ix.store, ix.scroot, ix.height, front, ix.stk, ix.lfblk, ix.lfpos, Entry(key, val), es == [])
  }

  lemma InsertEndsIs(ix: Index, key: int, val: int, m: map<int, int>, es: seq<Entry>, front: seq<Frame>)
    ensures InsertEnds(ix, key, val, m, es, front) <==>
            && ix.lfkey == key && ix.lfexct == (key in m)
            && if key in m then ix.Entries() == es && Landed(ix, es, front, key, 0, m[key])
               else Placed(ix.store, ix.scroot, ix.height, front, ix.stk, ix.lfblk, ix.lfpos, Entry(key, val), es == [])
  {
    hide Landed, Placed;
  }

  /** An insert after a search that failed. */
  method InsertMissing(ix: Index, key: int, val: int, ghost m: map<int, int>, ghost es: seq<Entry>, ghost s0: Store,
                       ghost front: seq<Frame>)
    requires Calm(ix) && ix.Valid() && ix.smode == 0 && m == ix.Contents() && es == ix.Entries() && key !in m
    requires ix.lfkey == key && !ix.lfexct && Landed(ix, es, front, key, QNOKEY, 0)
    requires PathSlack(ix.store, front + [Frame(ix.lfblk, ix.lfpos)])
    requires Kept(s0, ix.store, ix.scroot, ix.rest)
    modifies ix`store, ix`stk, ix`lfblk, ix`lfpos
    ensures Calm(ix) && ix.Valid() && ix.Contents() == m[key := val] && InsertEnds(ix, key, val, m, es, front)
    ensures old(Slack(ix)) ==> Slack(ix)
    ensures Kept(s0, ix.store, ix.scroot, ix.rest)
  {
    hide *;
    ghost var s1 := ix.store;
    InsertAt(ix, key, val, front);
    KeptTrans(s0, s1, ix.store, ix.scroot, ix.rest);
    InsertEndsIs(ix, key, val, m, es, front);
  }

  /** An insert into a file open for writing. */
  method InsertSearched(ix: Index, key: int, val: int, ghost m: map<int, int>, ghost es: seq<Entry>, ghost s0: Store)
    returns (status: int, ghost front: seq<Frame>)
    requires Calm(ix) && ix.Valid() && ix.smode == 0 && m == ix.Contents() && es == ix.Entries() && s0 == ix.store
    modifies ix`store, ix`sblkmx, ix`snfree, ix`sfreep, ix`free, ix`stk, ix`lfblk, ix`lfpos, ix`lfexct, ix`lfkey,
             ix`height, ix`busy
    ensures Calm(ix) && ix.Valid()
    ensures status == if key in m then QDUP else 0
    ensures ix.Contents() == if key in m then m else m[key := val]
    ensures InsertEnds(ix, key, val, m, es, front)
    ensures old(Slack(ix)) ==> Slack(ix)
    ensures Kept(s0, ix.store, ix.scroot, ix.rest)
  {
    assert QNOKEY != 0 && QDUP != 0;
    hide *;
    var found;
    found, front := FindGap(ix, key);
    if !found {
      InsertMissing(ix, key, val, m, es, s0, front);
      status := 0;
    } else {
      InsertEndsIs(ix, key, val, m, es, front);
      status := QDUP;
    }
  }
}
