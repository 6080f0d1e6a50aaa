/** bdelky, bdelk1, bjnblk, bjoin, balblk and bdemte: a delete removes exactly
    one key and leaves a whole tree. */
module Delete {
  import opened Constants
  import opened Blocks
  import opened Seqs
  import opened Trees
  import opened Paths
  import opened Orders
  import opened Context
  import opened Split
  import opened Routes
  import opened Find
  import opened Leaf
  import opened Insert
  import opened Repair
  import opened Filling
  import opened Balance

  /** A repair in progress: what Hole says, and where it is going. */
  ghost predicate Mending(sb: Store, s: Store, root: int, H: nat, fs: seq<Frame>, w: seq<Entry>,
                          freed: multiset<int>, goal: seq<Entry>) {
    && Hole(sb, s, root, H, fs, w, freed)
    && PathOK(sb, root, H, fs) && Goal(sb, root, H, fs, w) == goal && Sorted(goal)
    && SlackBut(sb, Blks(sb, root, H), ZNULL) && ZNULL !in sb
  }

  /** The allocator's view of it: blocks given up are free, all others of the
      base tree are still owned, and nothing else changed. */
  ghost predicate Books(ix: Index, sb: Store, H: nat, used: multiset<int>, freed: multiset<int>)
    reads ix`store, ix`sblkmx, ix`snfree, ix`sfreep, ix`free, ix`scroot, ix`rest
  {
    && AllocOK(ix.store, ix.sblkmx, ix.sfreep, ix.snfree, ix.free, used)
    && used + freed == Blks(sb, ix.scroot, H) + multiset(ix.rest)
    && Unique(used + freed)
    && Kept(sb, ix.store, ix.scroot, ix.rest)
  }

  // ---------------------------------------------------------------------
  // bjoin
  // ---------------------------------------------------------------------

  /** The parent's key at the last found position and the right leaf go into the
      left leaf; the right leaf is freed. */
  method JoinBlocks(ix: Index, lblk: int, rblk: int, kep: Entry, ghost used: multiset<int>)
    requires Calm(ix)
    requires AllocOK(ix.store, ix.sblkmx, ix.sfreep, ix.snfree, ix.free, used)
    requires ix.lfblk in used && lblk in used && rblk in used
    requires ix.lfblk in ix.store && lblk in ix.store && rblk in ix.store
    requires lblk != rblk && ix.lfblk != lblk && ix.lfblk != rblk
    requires 0 <= ix.lfpos < ix.store[ix.lfblk].nkeys <= ZMXKEY
    requires 0 <= ix.store[lblk].nkeys && 0 <= ix.store[rblk].nkeys
    requires ix.store[lblk].nkeys + 1 + ix.store[rblk].nkeys <= ZMXKEY
    modifies ix`store, ix`snfree, ix`sfreep, ix`free, ix`busy
    ensures Calm(ix)
    ensures AllocOK(ix.store, ix.sblkmx, ix.sfreep, ix.snfree, ix.free, used - multiset{rblk})
    ensures JoinedStore(old(ix.store), ix.store, ix.lfblk, ix.lfpos, lblk, rblk, kep)
    ensures rblk != ix.scroot ==> Worded(old(ix.store), ix.store, ix.scroot)
    ensures ix.snfree == old(ix.snfree) + 1
  {
    hide *;
    ghost var s := ix.store;
    Remove(ix, ix.lfblk, ix.lfpos);
    ghost var s1 := ix.store;
    FillLeft(ix, lblk, rblk, kep);
    ghost var s2 := ix.store;
    WordedTrans(s, s1, s2, ix.scroot);
    ghost var joined: Block := JoinedLeaf(s[lblk], s[rblk], kep);
    assert ix.store == s[ix.lfblk := RemKey(s[ix.lfblk], ix.lfpos)][lblk := joined];
    AllocFrame(s, ix.store, ix.sblkmx, ix.sfreep, ix.snfree, ix.free, used);
    MakeFree(ix, rblk, used);
    if rblk != ix.scroot {
      WordedTrans(s, s2, ix.store, ix.scroot);
    }
    MakeJoined(s, ix.store, ix.lfblk, ix.lfpos, lblk, rblk, kep, joined, ix.store[rblk]);
    CalmIs(ix);
    SetBusy(ix, lblk, false);
    CalmIs(ix);
  }

  lemma MakeJoined(s: Store, s': Store, p: int, i: nat, l: int, r: int, k: Entry, joined: Block, rb: Block)
    requires p in s && l in s && r in s && p != l && p != r && l != r
    requires i < s[p].nkeys <= ZMXKEY && 0 <= s[l].nkeys && 0 <= s[r].nkeys && s[l].nkeys + 1 + s[r].nkeys <= ZMXKEY
    requires joined == JoinedLeaf(s[l], s[r], k) && s' == s[p := RemKey(s[p], i)][l := joined][r := rb]
    ensures JoinedStore(s, s', p, i, l, r, k)
  {
    hide JoinedLeaf, RemKey;
    var removed := RemKey(s[p], i);
    ThreeNew(s, p, removed, l, joined, r, rb);
  }

  lemma JoinedStoreIs(s: Store, s': Store, p: int, i: nat, l: int, r: int, k: Entry)
    requires JoinedStore(s, s', p, i, l, r, k)
    ensures p in s' && l in s' && 0 <= s[l].nkeys && 0 <= s[r].nkeys && s[l].nkeys + 1 + s[r].nkeys <= ZMXKEY
    ensures s'[l] == JoinedLeaf(s[l], s[r], k)
  {
    hide JoinedLeaf, RemKey;
  }

  /** The key and the right leaf's keys go to the left leaf, which is wired
      meanwhile. */
  method FillLeft(ix: Index, lblk: int, rblk: int, kep: Entry)
    requires Calm(ix) && lblk in ix.store && rblk in ix.store && lblk != rblk
    requires 0 <= ix.store[lblk].nkeys && 0 <= ix.store[rblk].nkeys
    requires ix.store[lblk].nkeys + 1 + ix.store[rblk].nkeys <= ZMXKEY
    modifies ix`store, ix`busy
    ensures Calm(ix) && ix.store == old(ix.store)[lblk := JoinedLeaf(old(ix.store[lblk]), old(ix.store[rblk]), kep)]
    ensures Worded(old(ix.store), ix.store, ix.scroot)
  {
    hide *;
    ghost var s := ix.store;
    PutCount(s[lblk], kep, ZNULL, ZNULL);
    CalmIs(ix);
    SetBusy(ix, lblk, true);
    AtMostTwo(ix, lblk);
    Put(ix, lblk, kep, ZNULL, ZNULL);
    ghost var s1 := ix.store;
    var l := Read(ix, lblk);
    var lnkeys := l.nkeys;
    var r := Read(ix, rblk);
    var rnkeys := r.nkeys;
    Copy(ix, lblk, rblk, lnkeys, 0, rnkeys);
    CalmIs(ix);
    WordedTrans(s, s1, ix.store, ix.scroot);
    ghost var s2 := ix.store;
    SetCount(ix, lblk, lnkeys + rnkeys);
    WordedTrans(s, s2, ix.store, ix.scroot);
    JoinedIs(s[lblk], s[rblk], kep);
  }

  lemma JoinedIs(lb: Block, rb: Block, k: Entry)
    requires 0 <= lb.nkeys && 0 <= rb.nkeys && lb.nkeys + 1 + rb.nkeys <= ZMXKEY
    ensures CopyKeys(PutKey(lb, k, ZNULL, ZNULL), rb, lb.nkeys + 1, 0, rb.nkeys).(nkeys := lb.nkeys + 1 + rb.nkeys)
         == JoinedLeaf(lb, rb, k)
  {
  }

  // ---------------------------------------------------------------------
  // bjnblk
  // ---------------------------------------------------------------------

  /** Child c of the block at f has a sister in place i, and together with the key
      between them they leave ZTHRES slots free. */
  ghost predicate Fits(s: Store, f: Frame, c: int, i: int) {
    && f.blk in s && c in s && 0 <= i < |Links(s[f.blk])| && Links(s[f.blk])[i] in s
    && s[c].nkeys + s[Links(s[f.blk])[i]].nkeys < ZMXKEY - ZTHRES
  }

  /** It has a sister there, and their sizes differ by more than half a block. */
  ghost predicate Uneven(s: Store, f: Frame, c: int, i: int) {
    && f.blk in s && c in s && 0 <= i < |Links(s[f.blk])| && Links(s[f.blk])[i] in s
    && !NearlyEven(s[c].nkeys, s[Links(s[f.blk])[i]].nkeys)
  }

  ghost predicate JoinDue(s: Store, f: Frame, c: int) {
    Fits(s, f, c, f.pos + 1) || Fits(s, f, c, f.pos - 1)
  }

  ghost predicate BalanceDue(s: Store, f: Frame, c: int) {
    Uneven(s, f, c, f.pos + 1) || Uneven(s, f, c, f.pos - 1)
  }

  /** The sizes of c and its former sister i differ by two keys at most. */
  ghost predicate Evened(s: Store, s': Store, f: Frame, c: int, i: int) {
    && f.blk in s && 0 <= i < |Links(s[f.blk])| && c in s' && Links(s[f.blk])[i] in s'
    && -2 <= s'[c].nkeys - s'[Links(s[f.blk])[i]].nkeys <= 2
  }

  /** A leaf is balanced exactly if a sister is much smaller or larger. */
  ghost predicate Levelled(s: Store, s': Store, f: Frame, c: int) {
    && (!BalanceDue(s, f, c) ==> s' == s)
    && (BalanceDue(s, f, c) ==>
          exists i :: (i == f.pos + 1 || i == f.pos - 1) && Uneven(s, f, c, i) && Evened(s, s', f, c, i))
  }

  /** What is done about a leaf that lost a key: it is joined exactly if a sister
      fits, and then blocks are given back (n counts the free ones); else it is
      balanced if need be. */
  ghost predicate Settled(s: Store, s': Store, f: Frame, c: int, n: int, n': int) {
    (JoinDue(s, f, c) ==> n' > n) && (!JoinDue(s, f, c) ==> n' == n && Levelled(s, s', f, c))
  }

  lemma SettledIs(s: Store, s': Store, f: Frame, c: int, n: int, n': int)
    ensures Settled(s, s', f, c, n, n')
       <==> (JoinDue(s, f, c) ==> n' > n) && (!JoinDue(s, f, c) ==> n' == n && Levelled(s, s', f, c))
  {
    hide JoinDue, Levelled;
  }

  /** The hole, seen with sister i of the parent. */
  ghost predicate Pair(sb: Store, s: Store, root: int, H: nat, fs: seq<Frame>, i: int, l: int, r: int, k: Entry) {
    && 0 < |fs| <= H && 0 <= i
    && var f, hp := fs[|fs| - 1], H - |fs| + 1;
       && f.blk in s && LoosePair(s, f.blk, hp, i, l, r, k)
       && Sorted(Ents(s, f.blk, hp))
       && (f.pos == i || f.pos == i + 1)
       && (if f.pos == i then l else r) == Target(sb, root, fs)
       && var sister := if f.pos == i then r else l;
          sister in s && s[sister].nkeys >= 1 && (hp > 1 ==> s[sister].nkeys < ZMXKEY)
  }

  lemma PairReady(sb: Store, s: Store, root: int, H: nat, fs: seq<Frame>, w: seq<Entry>,
                  freed: multiset<int>, goal: seq<Entry>, i: int)
    requires Mending(sb, s, root, H, fs, w, freed, goal) && |fs| > 0
    requires var f := fs[|fs| - 1]; f.blk in s && 0 <= i < s[f.blk].nkeys && (f.pos == i || f.pos == i + 1)
    ensures var f := fs[|fs| - 1];
            && |Keys(s[f.blk])| == s[f.blk].nkeys && |Links(s[f.blk])| == s[f.blk].nkeys + 1
            && Pair(sb, s, root, H, fs, i, Links(s[f.blk])[i], Links(s[f.blk])[i + 1], Keys(s[f.blk])[i])
  {
    hide *;
    MendingFacts(sb, s, root, H, fs, w, freed, goal);
    HoleFacts(sb, s, root, H, fs, w, freed);
    var f, hp := fs[|fs| - 1], H - |fs| + 1;
    Lift(sb, s, root, H, fs, w, freed);
    LooseCounts(s, f, hp);
    Sister(sb, s, root, H, fs, w, freed, i);
    var l, r := Links(s[f.blk])[i], Links(s[f.blk])[i + 1];
    var sister := if f.pos == i then r else l;
    KidType(s, sister, hp - 1);
    NodeKids(s, sister, hp - 1);
    if hp > 1 {
      SlackOf(sb, Blks(sb, root, H), sister);
    }
    MakePair(sb, s, root, H, fs, i, l, r, Keys(s[f.blk])[i]);
  }

  lemma SlackOf(s: Store, m: multiset<int>, x: int)
    requires SlackBut(s, m, ZNULL) && x in m && x in s && s[x].link[0] != ZNULL && 0 <= x
    ensures s[x].nkeys < ZMXKEY
  {
  }

  lemma MendingFacts(sb: Store, s: Store, root: int, H: nat, fs: seq<Frame>, w: seq<Entry>,
                     freed: multiset<int>, goal: seq<Entry>)
    requires Mending(sb, s, root, H, fs, w, freed, goal)
    ensures Hole(sb, s, root, H, fs, w, freed)
    ensures PathOK(sb, root, H, fs) && Goal(sb, root, H, fs, w) == goal && Sorted(goal)
    ensures SlackBut(sb, Blks(sb, root, H), ZNULL) && |fs| <= H && ZNULL !in sb
  {
  }

  lemma MakePair(sb: Store, s: Store, root: int, H: nat, fs: seq<Frame>, i: int, l: int, r: int, k: Entry)
    requires 0 < |fs| <= H && 0 <= i
    requires var f, hp := fs[|fs| - 1], H - |fs| + 1;
       && f.blk in s && LoosePair(s, f.blk, hp, i, l, r, k)
       && Sorted(Ents(s, f.blk, hp))
       && (f.pos == i || f.pos == i + 1)
       && (if f.pos == i then l else r) == Target(sb, root, fs)
       && var sister := if f.pos == i then r else l;
          sister in s && s[sister].nkeys >= 1 && (hp > 1 ==> s[sister].nkeys < ZMXKEY)
    ensures Pair(sb, s, root, H, fs, i, l, r, k)
  {
  }

  /** What a pair says about its three blocks. */
  lemma PairBlocks(sb: Store, s: Store, root: int, H: nat, fs: seq<Frame>, w: seq<Entry>, freed: multiset<int>,
                   i: int, l: int, r: int, k: Entry, used: multiset<int>, rest: set<int>)
    requires Hole(sb, s, root, H, fs, w, freed) && Pair(sb, s, root, H, fs, i, l, r, k)
    requires used + freed == Blks(sb, root, H) + multiset(rest) && Unique(used + freed)
    ensures 0 < |fs| <= H && 0 <= i
    ensures var f, hp := fs[|fs| - 1], H - |fs| + 1;
            var p := f.blk;
            && LoosePair(s, p, hp, i, l, r, k) && Neighbours(s, p, i, l, r, k) && Sorted(Ents(s, p, hp))
            && p in s && l in s && r in s && l != r && l != p && r != p && 0 <= l && 0 <= r
            && i < s[p].nkeys <= ZMXKEY && 0 <= s[l].nkeys <= ZMXKEY && 0 <= s[r].nkeys <= ZMXKEY
            && p in used && l in used && r in used && p !in freed && l !in freed && r !in freed
            && p !in rest && l !in rest && r !in rest
            && (hp == 1 ==> NullLinks(s[l]) && NullLinks(s[r]) && Sorted(Keys(s[l]) + [k] + Keys(s[r])))
  {
    hide *;
    PairOpen(sb, s, root, H, fs, i, l, r, k);
    var f, hp := fs[|fs| - 1], H - |fs| + 1;
    PairFacts(s, f.blk, hp, i, l, r, k);
    PairApart(s, f.blk, hp, i, l, r, k);
    PairWithin(s, f.blk, hp, i, l, r, k);
    HoleFacts(sb, s, root, H, fs, w, freed);
    Lift(sb, s, root, H, fs, w, freed);
    PathStep(sb, root, H, fs);
    PathTarget(sb, root, H, fs[..|fs| - 1]);
    InBooks(f.blk, Blks(s, f.blk, hp), freed, Blks(sb, f.blk, hp), Blks(sb, root, H), used, rest);
    InBooks(l, Blks(s, f.blk, hp), freed, Blks(sb, f.blk, hp), Blks(sb, root, H), used, rest);
    InBooks(r, Blks(s, f.blk, hp), freed, Blks(sb, f.blk, hp), Blks(sb, root, H), used, rest);
    if hp == 1 {
      LeafPair(s, f.blk, i, l, r, k);
    }
  }

  lemma PairOpen(sb: Store, s: Store, root: int, H: nat, fs: seq<Frame>, i: int, l: int, r: int, k: Entry)
    requires Pair(sb, s, root, H, fs, i, l, r, k)
    ensures 0 < |fs| <= H && 0 <= i
    ensures var f, hp := fs[|fs| - 1], H - |fs| + 1;
       && f.blk in s && LoosePair(s, f.blk, hp, i, l, r, k) && Sorted(Ents(s, f.blk, hp))
       && (f.pos == i || f.pos == i + 1)
       && (if f.pos == i then l else r) == Target(sb, root, fs)
       && var sister := if f.pos == i then r else l;
          sister in s && s[sister].nkeys >= 1 && (hp > 1 ==> s[sister].nkeys < ZMXKEY)
  {
    hide LoosePair, Sorted, Ents;
  }

  lemma InBooks(x: int, m: multiset<int>, freed: multiset<int>, mb: multiset<int>, all: multiset<int>,
                used: multiset<int>, rest: set<int>)
    requires x in m && m + freed == mb && mb <= all
    requires used + freed == all + multiset(rest) && Unique(used + freed)
    ensures x in used && x !in freed && x !in rest
  {
    assert (m + freed)[x] == mb[x] <= all[x];
    assert (used + freed)[x] == (all + multiset(rest))[x] <= 1;
  }

  /** Two neighbouring leaves hold a sorted run of keys with the key between them. */
  lemma LeafPair(s: Store, p: int, i: nat, l: int, r: int, k: Entry)
    requires LoosePair(s, p, 1, i, l, r, k) && Sorted(Ents(s, p, 1))
    ensures l in s && r in s && NullLinks(s[l]) && NullLinks(s[r])
    ensures Sorted(Keys(s[l]) + [k] + Keys(s[r]))
  {
    hide *;
    PairFacts(s, p, 1, i, l, r, k);
    PairParts(s, p, 1, i, l, r, k);
    EntsNode(s, l, 0);
    EntsNode(s, r, 0);
    var ks, ls := Keys(s[p]), Links(s[p]);
    SortedThree(PreOf(s, ks[..i], ls[..i], 1), Keys(s[l]) + [k] + Keys(s[r]), SufOf(s, ks[i + 1..], ls[i + 2..], 1));
  }

  /** The state between bjnblk (or bdemte) and the next bdemte: the last found
      block is the parent of what was repaired, and cblk is its only child when
      it ran out of keys. */
  ghost predicate Climbing(ix: Index, sb: Store, H: nat, fs: seq<Frame>, w: seq<Entry>, freed: multiset<int>,
                           used: multiset<int>, goal: seq<Entry>, cblk: int)
    reads ix
  {
    && Mending(sb, ix.store, ix.scroot, H, fs, w, freed, goal) && |fs| < H
    && Books(ix, sb, H, used, freed)
    && ix.lfblk == Target(sb, ix.scroot, fs) && ix.lfblk in ix.store
    && StackOn(ix.stk, fs + [Frame(ix.lfblk, ix.lfpos)])
    && ix.store[ix.lfblk].nkeys < ZMXKEY
    && (ix.store[ix.lfblk].nkeys == 0 ==> Links(ix.store[ix.lfblk]) == [cblk])
  }

  /** What a merge does to the base, the store and the books. */
  lemma MergedClimb(ix: Index, sb: Store, s: Store, H: nat, fs: seq<Frame>, w: seq<Entry>, freed: multiset<int>,
                    used: multiset<int>, goal: seq<Entry>, i: nat, l: int, r: int, k: Entry)
    returns (w': seq<Entry>)
    requires Mending(sb, s, ix.scroot, H, fs, w, freed, goal) && |fs| > 0
    requires Pair(sb, s, ix.scroot, H, fs, i, l, r, k)
    requires Tallied(sb, ix.scroot, H, used, freed, ix.rest)
    requires Kept(sb, s, ix.scroot, ix.rest) && Worded(s, ix.store, ix.scroot)
    requires Merged(s, ix.store, fs[|fs| - 1].blk, i, l, r, k, H - |fs|)
    requires AllocOK(ix.store, ix.sblkmx, ix.sfreep, ix.snfree, ix.free, used - multiset{r})
    requires ix.lfblk == fs[|fs| - 1].blk
    requires StackOn(ix.stk, fs)
    ensures Climbing(ix, sb, H, fs[..|fs| - 1], w', freed + multiset{r}, used - multiset{r}, goal, l)
  {
    hide *;
    TallyIs(sb, ix.scroot, H, used, freed, ix.rest);
    var front, f := fs[..|fs| - 1], fs[|fs| - 1];
    var hp := H - |fs| + 1;
    MendingFacts(sb, s, ix.scroot, H, fs, w, freed, goal);
    HoleFacts(sb, s, ix.scroot, H, fs, w, freed);
    PairBlocks(sb, s, ix.scroot, H, fs, w, freed, i, l, r, k, used, ix.rest);
    MergeUp(sb, s, ix.store, ix.scroot, H, fs, w, freed, i, l, r, k);
    w' := PreAt(sb, f, hp) + w + SufAt(sb, f, hp);
    MergedFacts(s, ix.store, f.blk, i, l, r, k, hp - 1);
    KeptMerged(sb, s, ix.store, ix.scroot, ix.rest, f.blk, l, r);
    BooksMove(used, freed, r);
    assert fs == front + [f];
    StackTop(ix.stk, front, f, Frame(ix.lfblk, ix.lfpos));
    MakeClimbing(ix, sb, H, front, w', freed + multiset{r}, used - multiset{r}, goal, l);
  }

  lemma BooksMove(used: multiset<int>, freed: multiset<int>, r: int)
    requires r in used
    ensures (used - multiset{r}) + (freed + multiset{r}) == used + freed
  {
  }

  lemma KeptMerged(sb: Store, s: Store, s': Store, root: int, rest: set<int>, p: int, l: int, r: int)
    requires Worded(s, s', root)
    requires Kept(sb, s, root, rest) && p !in rest && l !in rest && r !in rest
    requires forall x :: x in s && x != p && x != l && x != r ==> x in s' && s'[x] == s[x]
    ensures Kept(sb, s', root, rest)
  {
    WordedTrans(sb, s, s', root);
  }

  lemma MakeClimbing(ix: Index, sb: Store, H: nat, fs: seq<Frame>, w: seq<Entry>, freed: multiset<int>,
                     used: multiset<int>, goal: seq<Entry>, cblk: int)
    requires Hole(sb, ix.store, ix.scroot, H, fs, w, freed) && |fs| < H
    requires PathOK(sb, ix.scroot, H, fs) && Goal(sb, ix.scroot, H, fs, w) == goal && Sorted(goal)
    requires SlackBut(sb, Blks(sb, ix.scroot, H), ZNULL) && ZNULL !in sb
    requires AllocOK(ix.store, ix.sblkmx, ix.sfreep, ix.snfree, ix.free, used)
    requires used + freed == Blks(sb, ix.scroot, H) + multiset(ix.rest) && Unique(used + freed)
    requires Kept(sb, ix.store, ix.scroot, ix.rest)
    requires ix.lfblk == Target(sb, ix.scroot, fs) && ix.lfblk in ix.store
    requires StackOn(ix.stk, fs + [Frame(ix.lfblk, ix.lfpos)])
    requires ix.store[ix.lfblk].nkeys < ZMXKEY
    requires ix.store[ix.lfblk].nkeys == 0 ==> Links(ix.store[ix.lfblk]) == [cblk]
    ensures Climbing(ix, sb, H, fs, w, freed, used, goal, cblk)
  {
  }

  /** Joining two leaves when they fit. */
  method JoinPair(ix: Index, l: int, r: int, k: Entry, ghost sb: Store, ghost H: nat, ghost fs: seq<Frame>,
                  ghost w: seq<Entry>, ghost freed: multiset<int>, ghost used: multiset<int>, ghost goal: seq<Entry>)
    returns (ghost w': seq<Entry>, ghost freed': multiset<int>, ghost used': multiset<int>)
    requires Calm(ix)
    requires AtParent(ix, sb, H, fs, w, freed, used, goal) && |fs| > 0
    requires Pair(sb, ix.store, ix.scroot, H, fs, ix.lfpos, l, r, k)
    requires l in ix.store && r in ix.store && ix.store[l].nkeys + ix.store[r].nkeys < ZMXKEY - ZTHRES
    modifies ix`store, ix`snfree, ix`sfreep, ix`free, ix`busy
    ensures Calm(ix)
    ensures Climbing(ix, sb, H, fs[..|fs| - 1], w', freed', used', goal, l)
    ensures l in ix.store && ix.store[l].nkeys <= ZMXKEY - ZTHRES
    ensures ix.store[l].nkeys == old(ix.store[l].nkeys + ix.store[r].nkeys) + 1
    ensures ix.snfree == old(ix.snfree) + 1
  {
    assert ZTHRES == 3;
    hide *;
    ghost var s, i := ix.store, ix.lfpos;
    AtParentOpen(ix, sb, H, fs, w, freed, used, goal);
    BooksTally(ix, sb, H, used, freed);
    LeafBlocks(sb, s, ix.scroot, H, fs, w, freed, goal, i, l, r, k, used, ix.rest);
    JoinBlocks(ix, l, r, k, used);
    JoinedStoreIs(s, ix.store, ix.lfblk, i, l, r, k);
    JoinedCount(s[l], s[r], k);
    w' := JoinedClimb(ix, sb, s, H, fs, w, freed, used, goal, i, l, r, k);
    freed', used' := freed + multiset{r}, used - multiset{r};
  }

  /** The right block of a pair is not the root: it has another type. */
  lemma SisterNotRoot(sb: Store, s: Store, root: int, H: nat, fs: seq<Frame>, w: seq<Entry>, freed: multiset<int>,
                      goal: seq<Entry>, i: int, l: int, r: int, k: Entry, rest: set<int>)
    requires Mending(sb, s, root, H, fs, w, freed, goal) && Pair(sb, s, root, H, fs, i, l, r, k)
    requires Kept(sb, s, root, rest)
    ensures r != root
  {
    assert ZINUSE != ZROOT;
    hide *;
    MendingFacts(sb, s, root, H, fs, w, freed, goal);
    HoleBase(sb, s, root, H, fs, w, freed);
    PairType(sb, s, root, H, fs, i, l, r, k);
    RootWords(sb, s, root, rest);
    SameType(sb[root], s[root]);
  }

  lemma PairType(sb: Store, s: Store, root: int, H: nat, fs: seq<Frame>, i: int, l: int, r: int, k: Entry)
    requires Pair(sb, s, root, H, fs, i, l, r, k)
    ensures r in s && s[r].btype == ZINUSE
  {
    hide *;
    PairOpen(sb, s, root, H, fs, i, l, r, k);
    PairFacts(s, fs[|fs| - 1].blk, H - |fs| + 1, i, l, r, k);
  }

  lemma SameType(b: Block, b': Block)
    requires SameInfo(b, b')
    ensures b'.btype == b.btype
  {
  }

  /** A pair of leaves and their parent. */
  lemma LeafBlocks(sb: Store, s: Store, root: int, H: nat, fs: seq<Frame>, w: seq<Entry>, freed: multiset<int>,
                   goal: seq<Entry>, i: int, l: int, r: int, k: Entry, used: multiset<int>, rest: set<int>)
    requires Mending(sb, s, root, H, fs, w, freed, goal) && |fs| == H > 0 && Pair(sb, s, root, H, fs, i, l, r, k)
    requires Tallied(sb, root, H, used, freed, rest) && Kept(sb, s, root, rest)
    ensures var p := fs[|fs| - 1].blk;
            && p in s && l in s && r in s && l != r && l != p && r != p && p in used && l in used && r in used
            && 0 <= i < s[p].nkeys <= ZMXKEY && 0 <= s[l].nkeys <= ZMXKEY && 0 <= s[r].nkeys <= ZMXKEY && r != root
  {
    hide *;
    SisterNotRoot(sb, s, root, H, fs, w, freed, goal, i, l, r, k, rest);
    PairBlocksOf(sb, s, root, H, fs, w, freed, goal, i, l, r, k, used, rest);
  }

  /** What a join does to the base, the store and the books. */
  lemma JoinedClimb(ix: Index, sb: Store, s: Store, H: nat, fs: seq<Frame>, w: seq<Entry>, freed: multiset<int>,
                    used: multiset<int>, goal: seq<Entry>, i: nat, l: int, r: int, k: Entry)
    returns (w': seq<Entry>)
    requires Mending(sb, s, ix.scroot, H, fs, w, freed, goal) && |fs| == H > 0
    requires Pair(sb, s, ix.scroot, H, fs, i, l, r, k)
    requires Tallied(sb, ix.scroot, H, used, freed, ix.rest) && Kept(sb, s, ix.scroot, ix.rest)
    requires Worded(s, ix.store, ix.scroot)
    requires JoinedStore(s, ix.store, fs[|fs| - 1].blk, i, l, r, k)
    requires AllocOK(ix.store, ix.sblkmx, ix.sfreep, ix.snfree, ix.free, used - multiset{r})
    requires ix.lfblk == fs[|fs| - 1].blk && StackOn(ix.stk, fs)
    ensures Climbing(ix, sb, H, fs[..|fs| - 1], w', freed + multiset{r}, used - multiset{r}, goal, l)
  {
    hide *;
    PairBlocksOf(sb, s, ix.scroot, H, fs, w, freed, goal, i, l, r, k, used, ix.rest);
    JoinMerges(s, ix.store, ix.lfblk, i, l, r, k);
    w' := MergedClimb(ix, sb, s, H, fs, w, freed, used, goal, i, l, r, k);
  }

  lemma JoinedCount(lb: Block, rb: Block, k: Entry)
    requires 0 <= lb.nkeys && 0 <= rb.nkeys && lb.nkeys + 1 + rb.nkeys <= ZMXKEY
    ensures JoinedLeaf(lb, rb, k).nkeys == lb.nkeys + 1 + rb.nkeys
  {
  }

  /** Owned and freed blocks together are those of the base tree and the rest. */
  ghost predicate Tallied(sb: Store, root: int, H: nat, used: multiset<int>, freed: multiset<int>, rest: set<int>) {
    used + freed == Blks(sb, root, H) + multiset(rest) && Unique(used + freed)
  }

  lemma BooksTally(ix: Index, sb: Store, H: nat, used: multiset<int>, freed: multiset<int>)
    requires Books(ix, sb, H, used, freed)
    ensures AllocOK(ix.store, ix.sblkmx, ix.sfreep, ix.snfree, ix.free, used) && Kept(sb, ix.store, ix.scroot, ix.rest)
    ensures Tallied(sb, ix.scroot, H, used, freed, ix.rest)
  {
    hide AllocOK, Kept, Unique, Blks;
  }

  lemma TallyIs(sb: Store, root: int, H: nat, used: multiset<int>, freed: multiset<int>, rest: set<int>)
    requires Tallied(sb, root, H, used, freed, rest)
    ensures used + freed == Blks(sb, root, H) + multiset(rest) && Unique(used + freed)
  {
    hide Unique, Blks;
  }

  lemma BooksFacts(ix: Index, sb: Store, H: nat, used: multiset<int>, freed: multiset<int>)
    requires Books(ix, sb, H, used, freed)
    ensures AllocOK(ix.store, ix.sblkmx, ix.sfreep, ix.snfree, ix.free, used)
    ensures used + freed == Blks(sb, ix.scroot, H) + multiset(ix.rest) && Unique(used + freed)
    ensures Kept(sb, ix.store, ix.scroot, ix.rest)
  {
  }

  /** The state of a delete after the key left its leaf: the leaf is the last
      found block, at the end of path fs. */
  ghost predicate AtLeaf(ix: Index, sb: Store, H: nat, fs: seq<Frame>, w: seq<Entry>, freed: multiset<int>,
                         used: multiset<int>, goal: seq<Entry>)
    reads ix
  {
    && Mending(sb, ix.store, ix.scroot, H, fs, w, freed, goal) && |fs| == H && H > 0
    && Books(ix, sb, H, used, freed)
    && ix.lfblk == Target(sb, ix.scroot, fs)
    && StackOn(ix.stk, fs + [Frame(ix.lfblk, ix.lfpos)])
  }

  lemma AtLeafFacts(ix: Index, sb: Store, H: nat, fs: seq<Frame>, w: seq<Entry>, freed: multiset<int>,
                    used: multiset<int>, goal: seq<Entry>)
    requires AtLeaf(ix, sb, H, fs, w, freed, used, goal)
    ensures Mending(sb, ix.store, ix.scroot, H, fs, w, freed, goal) && |fs| == H && H > 0
    ensures Books(ix, sb, H, used, freed)
    ensures ix.lfblk == Target(sb, ix.scroot, fs)
    ensures StackOn(ix.stk, fs + [Frame(ix.lfblk, ix.lfpos)])
    ensures var f := fs[|fs| - 1];
            && f.blk in ix.store && 0 <= f.pos <= ix.store[f.blk].nkeys <= ZMXKEY
            && ix.store[f.blk].nkeys >= 1
            && ix.lfblk in ix.store && 0 <= ix.store[ix.lfblk].nkeys <= ZMXKEY
  {
    hide *;
    AtLeafOpen(ix, sb, H, fs, w, freed, used, goal);
    MendingFacts(sb, ix.store, ix.scroot, H, fs, w, freed, goal);
    HoleFacts(sb, ix.store, ix.scroot, H, fs, w, freed);
    Lift(sb, ix.store, ix.scroot, H, fs, w, freed);
    LooseCounts(ix.store, fs[|fs| - 1], H - |fs| + 1);
    NodeKids(ix.store, ix.lfblk, 0);
  }

  lemma AtLeafOpen(ix: Index, sb: Store, H: nat, fs: seq<Frame>, w: seq<Entry>, freed: multiset<int>,
                   used: multiset<int>, goal: seq<Entry>)
    requires AtLeaf(ix, sb, H, fs, w, freed, used, goal)
    ensures Mending(sb, ix.store, ix.scroot, H, fs, w, freed, goal) && |fs| == H && H > 0
    ensures Books(ix, sb, H, used, freed)
    ensures ix.lfblk == Target(sb, ix.scroot, fs)
    ensures StackOn(ix.stk, fs + [Frame(ix.lfblk, ix.lfpos)])
  {
    hide Mending, Books;
  }

  /** Sizes of the leaf and its sisters for which bjnblk finds no join. */
  ghost predicate NoJoin(s: Store, f: Frame, c: int) {
    f.blk in s && c in s && f.pos <= |Keys(s[f.blk])| && |Links(s[f.blk])| == |Keys(s[f.blk])| + 1 && 0 <= f.pos
    && (f.pos < |Keys(s[f.blk])| ==>
          Links(s[f.blk])[f.pos + 1] in s && s[c].nkeys + s[Links(s[f.blk])[f.pos + 1]].nkeys >= ZMXKEY - ZTHRES)
    && (f.pos > 0 ==>
          Links(s[f.blk])[f.pos - 1] in s && s[c].nkeys + s[Links(s[f.blk])[f.pos - 1]].nkeys >= ZMXKEY - ZTHRES)
  }

  /** The same state with the parent as the last found block. */
  ghost predicate AtParent(ix: Index, sb: Store, H: nat, fs: seq<Frame>, w: seq<Entry>, freed: multiset<int>,
                           used: multiset<int>, goal: seq<Entry>)
    reads ix`store, ix`sblkmx, ix`snfree, ix`sfreep, ix`free, ix`scroot, ix`rest, ix`stk, ix`lfblk
  {
    && Mending(sb, ix.store, ix.scroot, H, fs, w, freed, goal) && |fs| == H && H > 0
    && Books(ix, sb, H, used, freed)
    && StackOn(ix.stk, fs) && ix.lfblk == fs[|fs| - 1].blk
  }

  lemma AtParentOpen(ix: Index, sb: Store, H: nat, fs: seq<Frame>, w: seq<Entry>, freed: multiset<int>,
                     used: multiset<int>, goal: seq<Entry>)
    requires AtParent(ix, sb, H, fs, w, freed, used, goal)
    ensures Mending(sb, ix.store, ix.scroot, H, fs, w, freed, goal) && |fs| == H && H > 0
    ensures Books(ix, sb, H, used, freed)
    ensures StackOn(ix.stk, fs) && ix.lfblk == fs[|fs| - 1].blk
  {
    hide Mending, Books;
  }

  lemma MakeAtParent(ix: Index, sb: Store, H: nat, fs: seq<Frame>, w: seq<Entry>, freed: multiset<int>,
                     used: multiset<int>, goal: seq<Entry>)
    requires Mending(sb, ix.store, ix.scroot, H, fs, w, freed, goal) && |fs| == H && H > 0
    requires Books(ix, sb, H, used, freed)
    requires StackOn(ix.stk, fs) && ix.lfblk == fs[|fs| - 1].blk
    ensures AtParent(ix, sb, H, fs, w, freed, used, goal)
  {
  }

  /** Joining with the sister to the right or left of the leaf, if they fit. */
  method TrySister(ix: Index, cblk: int, right: bool, ghost sb: Store, ghost H: nat, ghost fs: seq<Frame>,
                   ghost w: seq<Entry>, ghost freed: multiset<int>, ghost used: multiset<int>, ghost goal: seq<Entry>)
    returns (joined: int, ghost w': seq<Entry>, ghost freed': multiset<int>, ghost used': multiset<int>)
    requires Calm(ix)
    requires AtParent(ix, sb, H, fs, w, freed, used, goal) && cblk == Target(sb, ix.scroot, fs) && cblk in ix.store
    requires ix.lfblk in ix.store && 0 <= ix.lfpos < ix.store[ix.lfblk].nkeys
    requires |fs| > 0 && ix.lfpos == if right then fs[|fs| - 1].pos else fs[|fs| - 1].pos - 1
    modifies ix`store, ix`snfree, ix`sfreep, ix`free, ix`busy
    ensures Calm(ix)
    ensures joined != ZNULL ==> Climbing(ix, sb, H, fs[..|fs| - 1], w', freed', used', goal, joined)
    ensures joined != ZNULL ==> ix.snfree == old(ix.snfree) + 1
    ensures joined == ZNULL ==>
              AtParent(ix, sb, H, fs, w, freed, used, goal) && ix.store == old(ix.store) && ix.snfree == old(ix.snfree)
    ensures Sized(old(ix.store), ix.lfblk, ix.lfpos, right, cblk, joined != ZNULL)
  {
    assert ZNULL == -1;
    hide *;
    w', freed', used' := w, freed, used;
    var kep, llink, rlink, fits := Measure(ix, cblk, right, sb, H, fs, w, freed, used, goal);
    if fits {
      w', freed', used' := JoinPair(ix, llink, rlink, kep, sb, H, fs, w, freed, used, goal);
      joined := llink;
    } else {
      joined := ZNULL;
    }
  }

  /** The pair of the leaf and its sister, and whether they fit into one block. */
  method Measure(ix: Index, cblk: int, right: bool, ghost sb: Store, ghost H: nat, ghost fs: seq<Frame>,
                 ghost w: seq<Entry>, ghost freed: multiset<int>, ghost used: multiset<int>, ghost goal: seq<Entry>)
    returns (kep: Entry, llink: int, rlink: int, fits: bool)
    requires Calm(ix)
    requires AtParent(ix, sb, H, fs, w, freed, used, goal) && |fs| > 0
    requires cblk == Target(sb, ix.scroot, fs) && cblk in ix.store
    requires ix.lfblk in ix.store && 0 <= ix.lfpos < ix.store[ix.lfblk].nkeys
    requires ix.lfpos == if right then fs[|fs| - 1].pos else fs[|fs| - 1].pos - 1
    ensures Pair(sb, ix.store, ix.scroot, H, fs, ix.lfpos, llink, rlink, kep)
    ensures llink in ix.store && rlink in ix.store && 0 <= llink && 0 <= rlink
    ensures fits ==> ix.store[llink].nkeys + ix.store[rlink].nkeys < ZMXKEY - ZTHRES
    ensures Sized(ix.store, ix.lfblk, ix.lfpos, right, cblk, fits)
  {
    hide *;
    AtParentOpen(ix, sb, H, fs, w, freed, used, goal);
    kep, llink, rlink := FetchPair(ix, sb, H, fs, w, freed, goal);
    var sister := Read(ix, if right then rlink else llink);
    var nkeys := sister.nkeys;
    var c := Read(ix, cblk);
    var cnkeys := c.nkeys;
    FitOrTight(ix.store, ix.lfblk, ix.lfpos, right, cblk, llink, rlink);
    fits := cnkeys + nkeys < ZMXKEY - ZTHRES;
  }

  /** The child right or left of the key at pos and block c fit together. */
  ghost predicate SisterFits(s: Store, p: int, pos: int, right: bool, c: int) {
    && p in s && c in s && 0 <= pos && pos + 1 < |Links(s[p])|
    && var sister := Links(s[p])[if right then pos + 1 else pos];
       sister in s && s[c].nkeys + s[sister].nkeys < ZMXKEY - ZTHRES
  }

  ghost predicate SisterTight(s: Store, p: int, pos: int, right: bool, c: int) {
    && p in s && c in s && 0 <= pos < s[p].nkeys && |Links(s[p])| == s[p].nkeys + 1
    && var sister := Links(s[p])[if right then pos + 1 else pos];
       sister in s && s[c].nkeys + s[sister].nkeys >= ZMXKEY - ZTHRES
  }

  ghost predicate Sized(s: Store, p: int, pos: int, right: bool, c: int, fits: bool) {
    if fits then SisterFits(s, p, pos, right, c) else SisterTight(s, p, pos, right, c)
  }

  /** The children beside the key at pos. */
  ghost predicate Flank(s: Store, p: int, pos: int, l: int, r: int) {
    && p in s && 0 <= pos < s[p].nkeys && |Links(s[p])| == s[p].nkeys + 1
    && l == Links(s[p])[pos] && r == Links(s[p])[pos + 1]
  }

  lemma FlankIs(s: Store, p: int, pos: int, l: int, r: int)
    requires p in s && 0 <= pos < s[p].nkeys && |Links(s[p])| == s[p].nkeys + 1
    ensures Flank(s, p, pos, l, r) <==> l == Links(s[p])[pos] && r == Links(s[p])[pos + 1]
  {
    hide Links;
  }

  lemma FitOrTight(s: Store, p: int, pos: int, right: bool, c: int, l: int, r: int)
    requires Flank(s, p, pos, l, r) && c in s && l in s && r in s
    ensures Sized(s, p, pos, right, c, s[c].nkeys + s[if right then r else l].nkeys < ZMXKEY - ZTHRES)
  {
    hide Links;
  }

  lemma TightOpen(s: Store, p: int, pos: int, right: bool, c: int)
    requires SisterTight(s, p, pos, right, c)
    ensures p in s && c in s && 0 <= pos < s[p].nkeys && |Links(s[p])| == s[p].nkeys + 1
    ensures var sister := Links(s[p])[if right then pos + 1 else pos];
            sister in s && s[c].nkeys + s[sister].nkeys >= ZMXKEY - ZTHRES
  {
    hide Links;
  }

  /** The key at the last found position and the children around it. */
  method FetchPair(ix: Index, ghost sb: Store, ghost H: nat, ghost fs: seq<Frame>,
                   ghost w: seq<Entry>, ghost freed: multiset<int>, ghost goal: seq<Entry>)
    returns (kep: Entry, llink: int, rlink: int)
    requires Calm(ix)
    requires Mending(sb, ix.store, ix.scroot, H, fs, w, freed, goal) && |fs| > 0
    requires ix.lfblk == fs[|fs| - 1].blk && ix.lfblk in ix.store && 0 <= ix.lfpos < ix.store[ix.lfblk].nkeys
    requires fs[|fs| - 1].pos == ix.lfpos || fs[|fs| - 1].pos == ix.lfpos + 1
    ensures Pair(sb, ix.store, ix.scroot, H, fs, ix.lfpos, llink, rlink, kep)
    ensures llink in ix.store && rlink in ix.store && 0 <= llink && 0 <= rlink
    ensures Flank(ix.store, ix.lfblk, ix.lfpos, llink, rlink)
    ensures (if fs[|fs| - 1].pos == ix.lfpos then llink else rlink) == Target(sb, ix.scroot, fs)
  {
    hide *;
    PairReady(sb, ix.store, ix.scroot, H, fs, w, freed, goal, ix.lfpos);
    PairCount(sb, ix.store, ix.scroot, H, fs, w, freed, goal);
    var result;
    kep, llink, rlink, result := Fetch(ix, ix.lfblk, ix.lfpos);
    PairSister(sb, ix.store, ix.scroot, H, fs, ix.lfpos, llink, rlink, kep);
    FlankIs(ix.store, ix.lfblk, ix.lfpos, llink, rlink);
  }

  lemma PairCount(sb: Store, s: Store, root: int, H: nat, fs: seq<Frame>, w: seq<Entry>,
                  freed: multiset<int>, goal: seq<Entry>)
    requires Mending(sb, s, root, H, fs, w, freed, goal) && |fs| > 0
    ensures var p := fs[|fs| - 1].blk; p in s && 0 <= s[p].nkeys <= ZMXKEY
  {
    hide *;
    MendingFacts(sb, s, root, H, fs, w, freed, goal);
    Lift(sb, s, root, H, fs, w, freed);
    LooseCounts(s, fs[|fs| - 1], H - |fs| + 1);
  }

  /** bjnblk.  Without a join the context is the leaf again, except that the
      position is the one in the parent. */
  method JoinLeaf(ix: Index, ghost sb: Store, ghost H: nat, ghost fs: seq<Frame>, ghost w: seq<Entry>,
                  ghost freed: multiset<int>, ghost used: multiset<int>, ghost goal: seq<Entry>)
    returns (cblk: int, ghost w': seq<Entry>, ghost freed': multiset<int>, ghost used': multiset<int>)
    requires Calm(ix)
    requires AtLeaf(ix, sb, H, fs, w, freed, used, goal)
    modifies ix`store, ix`snfree, ix`sfreep, ix`free, ix`stk, ix`lfblk, ix`lfpos, ix`busy
    ensures Calm(ix)
    ensures cblk != ZNULL ==> |fs| > 0 && Climbing(ix, sb, H, fs[..|fs| - 1], w', freed', used', goal, cblk)
    ensures cblk == ZNULL ==>
              && AtLeaf(ix, sb, H, fs, w, freed, used, goal) && |fs| > 0
              && NoJoin(ix.store, fs[|fs| - 1], ix.lfblk)
              && ix.store == old(ix.store) && ix.snfree == old(ix.snfree) && ix.lfblk == old(ix.lfblk)
    ensures |fs| > 0 && (cblk != ZNULL <==> JoinDue(old(ix.store), fs[|fs| - 1], old(ix.lfblk)))
    ensures cblk != ZNULL ==> ix.snfree == old(ix.snfree) + 1
  {
    hide *;
    AtLeafFacts(ix, sb, H, fs, w, freed, used, goal);
    ghost var s, f := ix.store, fs[|fs| - 1];
    CountKeys(s[f.blk]);
    CountIs(s[f.blk]);
    var leaf := ix.lfblk;
    PullLeaf(ix, fs);
    MakeAtParent(ix, sb, H, fs, w, freed, used, goal);
    cblk := ZNULL;
    w', freed', used' := w, freed, used;
    var parent := Read(ix, ix.lfblk);
    if ix.lfpos < parent.nkeys {
      cblk, w', freed', used' := TrySister(ix, leaf, true, sb, H, fs, w, freed, used, goal);
    }
    ghost var fits := cblk != ZNULL;
    if cblk == ZNULL && ix.lfpos > 0 {
      ix.lfpos := ix.lfpos - 1;
      cblk, w', freed', used' := TrySister(ix, leaf, false, sb, H, fs, w, freed, used, goal);
      if cblk == ZNULL {
        ix.lfpos := ix.lfpos + 1;
      }
    }
    if cblk == ZNULL {
      AtParentOpen(ix, sb, H, fs, w, freed, used, goal);
      PushLeaf(ix, fs, leaf);
      MakeAtLeaf(ix, sb, H, fs, w, freed, used, goal);
      NoneFits(s, f, leaf);
    } else {
      FitsDue(s, f, leaf, fits);
    }
  }

  lemma FitsDue(s: Store, f: Frame, c: int, right: bool)
    requires Sized(s, f.blk, if right then f.pos else f.pos - 1, right, c, true)
    ensures JoinDue(s, f, c)
  {
    assert Fits(s, f, c, if right then f.pos + 1 else f.pos - 1);
  }

  lemma NoneFits(s: Store, f: Frame, c: int)
    requires f.blk in s && c in s && 0 <= f.pos <= s[f.blk].nkeys == |Keys(s[f.blk])|
    requires f.pos < s[f.blk].nkeys ==> Sized(s, f.blk, f.pos, true, c, false)
    requires f.pos > 0 ==> Sized(s, f.blk, f.pos - 1, false, c, false)
    ensures NoJoin(s, f, c) && !JoinDue(s, f, c)
  {
    hide Keys, SisterTight;
    if f.pos < s[f.blk].nkeys {
      TightOpen(s, f.blk, f.pos, true, c);
    }
    if f.pos > 0 {
      TightOpen(s, f.blk, f.pos - 1, false, c);
    }
    CountKeys(s[f.blk]);
  }

  lemma MakeAtLeaf(ix: Index, sb: Store, H: nat, fs: seq<Frame>, w: seq<Entry>, freed: multiset<int>,
                   used: multiset<int>, goal: seq<Entry>)
    requires Mending(sb, ix.store, ix.scroot, H, fs, w, freed, goal) && |fs| == H && H > 0
    requires Books(ix, sb, H, used, freed)
    requires ix.lfblk == Target(sb, ix.scroot, fs)
    requires StackOn(ix.stk, fs + [Frame(ix.lfblk, ix.lfpos)])
    ensures AtLeaf(ix, sb, H, fs, w, freed, used, goal)
  {
  }

  /** The path comes back to the parent of the last found block... */
  method PullLeaf(ix: Index, ghost fs: seq<Frame>)
    requires |fs| > 0 && StackOn(ix.stk, fs + [Frame(ix.lfblk, ix.lfpos)])
    modifies ix`stk, ix`lfblk, ix`lfpos
    ensures StackOn(ix.stk, fs) && Frame(ix.lfblk, ix.lfpos) == fs[|fs| - 1]
  {
    ghost var fs' := fs + [Frame(ix.lfblk, ix.lfpos)];
    assert fs'[..|fs'| - 1] == fs && fs'[|fs'| - 2] == fs[|fs| - 1];
    PullFrame(ix, fs');
  }

  /** ... and goes down to it again. */
  method PushLeaf(ix: Index, ghost fs: seq<Frame>, blk: int)
    requires |fs| > 0 && StackOn(ix.stk, fs) && Frame(ix.lfblk, ix.lfpos) == fs[|fs| - 1]
    modifies ix`stk, ix`lfblk
    ensures StackOn(ix.stk, fs + [Frame(blk, ix.lfpos)]) && ix.lfblk == blk
  {
    assert ([NOWHERE] + fs)[|fs|] == fs[|fs| - 1];
    OnPathPush(ix.stk, ix.lfblk, ix.lfpos, fs, Frame(blk, ix.lfpos));
    Push(ix, ix.lfblk);
    Push(ix, ix.lfpos);
    ix.lfblk := blk;
  }

  lemma PairSister(sb: Store, s: Store, root: int, H: nat, fs: seq<Frame>, i: int, l: int, r: int, k: Entry)
    requires Pair(sb, s, root, H, fs, i, l, r, k)
    ensures l in s && r in s && 0 <= s[l].nkeys <= ZMXKEY && 0 <= s[r].nkeys <= ZMXKEY && 0 <= l && 0 <= r
    ensures 0 < |fs| && (if fs[|fs| - 1].pos == i then l else r) == Target(sb, root, fs)
  {
    hide *;
    PairOpen(sb, s, root, H, fs, i, l, r, k);
    PairFacts(s, fs[|fs| - 1].blk, H - |fs| + 1, i, l, r, k);
  }

  // ---------------------------------------------------------------------
  // balblk
  // ---------------------------------------------------------------------

  /** The repair is over: a whole tree of height H holding goal. */
  ghost predicate Mended(ix: Index, sb: Store, H: nat, used: multiset<int>, goal: seq<Entry>)
    reads ix`store, ix`sblkmx, ix`snfree, ix`sfreep, ix`free, ix`scroot, ix`rest
  {
    && TreeOK(ix.store, ix.scroot, H) && Ents(ix.store, ix.scroot, H) == goal && Sorted(goal)
    && AllocOK(ix.store, ix.sblkmx, ix.sfreep, ix.snfree, ix.free, used)
    && used == Blks(ix.store, ix.scroot, H) + multiset(ix.rest)
    && Kept(sb, ix.store, ix.scroot, ix.rest)
  }

  lemma CloseUp(ix: Index, sb: Store, H: nat, fs: seq<Frame>, w: seq<Entry>, freed: multiset<int>,
                used: multiset<int>, goal: seq<Entry>)
    requires Mending(sb, ix.store, ix.scroot, H, fs, w, freed, goal)
    requires Books(ix, sb, H, used, freed)
    requires var g := Target(sb, ix.scroot, fs); g in ix.store && (ix.store[g].nkeys >= 1 || H == 0)
    ensures Mended(ix, sb, H, used, goal)
  {
    hide *;
    MendingFacts(sb, ix.store, ix.scroot, H, fs, w, freed, goal);
    BooksFacts(ix, sb, H, used, freed);
    Close(sb, ix.store, ix.scroot, H, fs, w, freed);
    OwnedAgain(Blks(ix.store, ix.scroot, H), freed, Blks(sb, ix.scroot, H), used, multiset(ix.rest));
    MakeMended(ix, sb, H, used, goal);
  }

  /** A path towards the key, and the repair filled only blocks on its route. */
  ghost predicate RoutedIf(sb: Store, root: int, H: nat, fs: seq<Frame>, s: Store, H': nat, key: int) {
    Aimed(sb, root, H, fs, key) ==> Routed(s, root, H', key)
  }

  /** A leaf, or a block above leaves that is not full, closes the hole. */
  lemma CloseLow(ix: Index, sb: Store, H: nat, fs: seq<Frame>, w: seq<Entry>, freed: multiset<int>, goal: seq<Entry>,
                 key: int)
    requires Mending(sb, ix.store, ix.scroot, H, fs, w, freed, goal) && H <= |fs| + 1
    requires var g := Target(sb, ix.scroot, fs);
             g in ix.store && (ix.store[g].nkeys >= 1 || H == 0) && (|fs| < H ==> ix.store[g].nkeys < ZMXKEY)
    ensures RoutedIf(sb, ix.scroot, H, fs, ix.store, H, key)
  {
    hide *;
    MendingFacts(sb, ix.store, ix.scroot, H, fs, w, freed, goal);
    if Aimed(sb, ix.scroot, H, fs, key) {
      FilledLow(sb, ix.store, ix.scroot, H, fs, w, freed, key);
      CloseRouted(sb, ix.store, ix.scroot, H, fs, w, freed, key);
    }
    RoutedIfIs(sb, ix.scroot, H, fs, ix.store, H, key);
  }

  lemma RoutedIfIs(sb: Store, root: int, H: nat, fs: seq<Frame>, s: Store, H': nat, key: int)
    ensures RoutedIf(sb, root, H, fs, s, H', key) <==> (Aimed(sb, root, H, fs, key) ==> Routed(s, root, H', key))
  {
  }

  /** One frame up the path still leads towards the key. */
  lemma RoutedUp(sb: Store, root: int, H: nat, fs: seq<Frame>, s: Store, H': nat, key: int)
    requires |fs| > 0 && RoutedIf(sb, root, H, fs[..|fs| - 1], s, H', key)
    ensures RoutedIf(sb, root, H, fs, s, H', key)
  {
    hide *;
    RoutedIfIs(sb, root, H, fs[..|fs| - 1], s, H', key);
    RoutedIfIs(sb, root, H, fs, s, H', key);
    if Aimed(sb, root, H, fs, key) {
      AimedUp(sb, root, H, fs, key);
    }
  }

  lemma OwnedAgain(m: multiset<int>, freed: multiset<int>, mb: multiset<int>, used: multiset<int>, rest: multiset<int>)
    requires m + freed == mb && used + freed == mb + rest
    ensures used == m + rest
  {
    assert used + freed == m + rest + freed;
    Cancel(used, m + rest, freed);
  }

  lemma MakeMended(ix: Index, sb: Store, H: nat, used: multiset<int>, goal: seq<Entry>)
    requires TreeOK(ix.store, ix.scroot, H) && Ents(ix.store, ix.scroot, H) == goal && Sorted(goal)
    requires AllocOK(ix.store, ix.sblkmx, ix.sfreep, ix.snfree, ix.free, used)
    requires used == Blks(ix.store, ix.scroot, H) + multiset(ix.rest)
    requires Kept(sb, ix.store, ix.scroot, ix.rest)
    ensures Mended(ix, sb, H, used, goal)
  {
  }

  /** Sizes that balblk leaves alone. */
  predicate NearlyEven(a: int, b: int) {
    a - b <= ZMXKEY / 2 && b - a <= ZMXKEY / 2
  }

  lemma EvenIs(a: int, b: int)
    ensures NearlyEven(a, b) <==> a - b <= ZMXKEY / 2 && b - a <= ZMXKEY / 2
  {
  }

  /** Balancing the leaf with a sister when their sizes differ by more than half
      a block. */
  method TryBalance(ix: Index, cblk: int, right: bool, ghost sb: Store, ghost H: nat, ghost fs: seq<Frame>,
                    ghost w: seq<Entry>, ghost freed: multiset<int>, ghost used: multiset<int>, ghost goal: seq<Entry>)
    returns (done: bool)
    requires Calm(ix)
    requires AtParent(ix, sb, H, fs, w, freed, used, goal) && cblk == Target(sb, ix.scroot, fs) && cblk in ix.store
    requires ix.lfblk in ix.store && 0 <= ix.lfpos < ix.store[ix.lfblk].nkeys
    requires |fs| > 0 && ix.lfpos == if right then fs[|fs| - 1].pos else fs[|fs| - 1].pos - 1
    modifies ix`store
    ensures done ==> Mended(ix, sb, H, used, goal) && RoutedIf(sb, ix.scroot, H, fs, ix.store, H, ix.lfkey)
    ensures done ==> SisterEvened(old(ix.store), ix.store, ix.lfblk, ix.lfpos, right, cblk)
    ensures !done ==>
              && AtParent(ix, sb, H, fs, w, freed, used, goal) && ix.store == old(ix.store)
              && SisterEven(ix.store, ix.lfblk, ix.lfpos, right, cblk)
  {
    hide *;
    AtParentOpen(ix, sb, H, fs, w, freed, used, goal);
    var kep, llink, rlink := FetchPair(ix, sb, H, fs, w, freed, goal);
    SisterCount(sb, ix.store, ix.scroot, H, fs, ix.lfpos, llink, rlink, kep);
    var sister := Read(ix, if right then rlink else llink);
    var nkeys := sister.nkeys;
    var c := Read(ix, cblk);
    var cnkeys := c.nkeys;
    var diff := if right then cnkeys - nkeys else nkeys - cnkeys;
    done := false;
    EvenIs(cnkeys, nkeys);
    ghost var s := ix.store;
    if diff > ZMXKEY / 2 || -diff > ZMXKEY / 2 {
      BalancePair(ix, llink, rlink, kep, diff, sb, H, fs, w, freed, used, goal);
      done := true;
      MakeEvened(s, ix.store, ix.lfblk, ix.lfpos, right, cblk, llink, rlink);
    } else {
      MakeEven(s, ix.lfblk, ix.lfpos, right, cblk, llink, rlink);
    }
  }

  /** The child on one side of the key at pos is about as large as block c... */
  ghost predicate SisterEven(s: Store, p: int, pos: int, right: bool, c: int) {
    && p in s && c in s && 0 <= pos < s[p].nkeys && |Links(s[p])| == s[p].nkeys + 1
    && var sister := Links(s[p])[if right then pos + 1 else pos];
       sister in s && s[sister].nkeys >= 1 && NearlyEven(s[c].nkeys, s[sister].nkeys)
  }

  /** ... or it was not, and is now. */
  ghost predicate SisterEvened(s: Store, s': Store, p: int, pos: int, right: bool, c: int) {
    && p in s && c in s && 0 <= pos < s[p].nkeys && |Links(s[p])| == s[p].nkeys + 1
    && var sister := Links(s[p])[if right then pos + 1 else pos];
       && sister in s && !NearlyEven(s[c].nkeys, s[sister].nkeys)
       && c in s' && sister in s' && -2 <= s'[c].nkeys - s'[sister].nkeys <= 2
  }

  lemma MakeEven(s: Store, p: int, pos: int, right: bool, c: int, l: int, r: int)
    requires Flank(s, p, pos, l, r) && c in s && l in s && r in s
    requires s[if right then r else l].nkeys >= 1 && NearlyEven(s[c].nkeys, s[if right then r else l].nkeys)
    ensures SisterEven(s, p, pos, right, c)
  {
    hide Links, NearlyEven;
  }

  lemma MakeEvened(s: Store, s': Store, p: int, pos: int, right: bool, c: int, l: int, r: int)
    requires Flank(s, p, pos, l, r) && l in s && r in s && l in s' && r in s' && c == if right then l else r
    requires !NearlyEven(s[c].nkeys, s[if right then r else l].nkeys) && -2 <= s'[l].nkeys - s'[r].nkeys <= 2
    ensures SisterEvened(s, s', p, pos, right, c)
  {
    hide Links, NearlyEven;
  }

  lemma SisterCount(sb: Store, s: Store, root: int, H: nat, fs: seq<Frame>, i: int, l: int, r: int, k: Entry)
    requires Pair(sb, s, root, H, fs, i, l, r, k)
    ensures 0 < |fs| <= H
    ensures fs[|fs| - 1].pos == i ==> r in s && s[r].nkeys >= 1
    ensures fs[|fs| - 1].pos == i + 1 ==> l in s && s[l].nkeys >= 1
  {
    hide *;
    PairOpen(sb, s, root, H, fs, i, l, r, k);
  }

  method BalancePair(ix: Index, l: int, r: int, k: Entry, diff: int, ghost sb: Store, ghost H: nat,
                     ghost fs: seq<Frame>,
                     ghost w: seq<Entry>, ghost freed: multiset<int>, ghost used: multiset<int>, ghost goal: seq<Entry>)
    requires Calm(ix)
    requires Mending(sb, ix.store, ix.scroot, H, fs, w, freed, goal) && |fs| == H && H > 0
    requires Books(ix, sb, H, used, freed)
    requires Pair(sb, ix.store, ix.scroot, H, fs, ix.lfpos, l, r, k)
    requires ix.lfblk == fs[|fs| - 1].blk
    requires l in ix.store && r in ix.store && diff == ix.store[l].nkeys - ix.store[r].nkeys
    requires diff > ZMXKEY / 2 || -diff > ZMXKEY / 2
    modifies ix`store
    ensures Mended(ix, sb, H, used, goal) && RoutedIf(sb, ix.scroot, H, fs, ix.store, H, ix.lfkey)
    ensures l in ix.store && r in ix.store && -2 <= ix.store[l].nkeys - ix.store[r].nkeys <= 2
  {
    hide *;
    ghost var s, i := ix.store, ix.lfpos;
    MendingFacts(sb, s, ix.scroot, H, fs, w, freed, goal);
    BooksFacts(ix, sb, H, used, freed);
    PairBlocks(sb, s, ix.scroot, H, fs, w, freed, i, l, r, k, used, ix.rest);
    ghost var k' := BalanceLeaves(ix, l, r, diff, k);
    BalancedMends(ix, sb, s, H, fs, w, freed, used, goal, i, l, r, k, k');
  }

  lemma BalancedMends(ix: Index, sb: Store, s: Store, H: nat, fs: seq<Frame>, w: seq<Entry>, freed: multiset<int>,
                      used: multiset<int>, goal: seq<Entry>, i: nat, l: int, r: int, k: Entry, k': Entry)
    requires Mending(sb, s, ix.scroot, H, fs, w, freed, goal) && |fs| == H && H > 0
    requires Pair(sb, s, ix.scroot, H, fs, i, l, r, k)
    requires used + freed == Blks(sb, ix.scroot, H) + multiset(ix.rest) && Unique(used + freed)
    requires Kept(sb, s, ix.scroot, ix.rest) && Worded(s, ix.store, ix.scroot)
    requires Balanced(s, ix.store, fs[|fs| - 1].blk, i, l, r, k, k')
    requires AllocOK(s, ix.sblkmx, ix.sfreep, ix.snfree, ix.free, used)
    requires forall x :: x in ix.store <==> x in s
    ensures Mended(ix, sb, H, used, goal) && RoutedIf(sb, ix.scroot, H, fs, ix.store, H, ix.lfkey)
  {
    hide *;
    var front, f := fs[..|fs| - 1], fs[|fs| - 1];
    MendingFacts(sb, s, ix.scroot, H, fs, w, freed, goal);
    PairBlocks(sb, s, ix.scroot, H, fs, w, freed, i, l, r, k, used, ix.rest);
    BalanceUp(sb, s, ix.store, ix.scroot, H, fs, w, freed, i, l, r, k, k');
    var w' := PreAt(sb, f, 1) + w + SufAt(sb, f, 1);
    BalancedFacts(s, ix.store, f.blk, i, l, r, k, k');
    KeptMerged(sb, s, ix.store, ix.scroot, ix.rest, f.blk, l, r);
    AllocFrame(s, ix.store, ix.sblkmx, ix.sfreep, ix.snfree, ix.free, used);
    MakeMending(sb, ix.store, ix.scroot, H, front, w', freed, goal);
    MakeBooks(ix, sb, H, used, freed);
    CloseUp(ix, sb, H, front, w', freed, used, goal);
    BalancedRoom(sb, s, ix.scroot, H, fs, w, freed, goal);
    CloseLow(ix, sb, H, front, w', freed, goal, ix.lfkey);
    RoutedUp(sb, ix.scroot, H, fs, ix.store, H, ix.lfkey);
  }

  /** The parent of the hole is as in the base tree, so it is not full. */
  lemma BalancedRoom(sb: Store, s: Store, root: int, H: nat, fs: seq<Frame>, w: seq<Entry>, freed: multiset<int>,
                     goal: seq<Entry>)
    requires Mending(sb, s, root, H, fs, w, freed, goal) && |fs| > 0
    ensures var p := fs[|fs| - 1].blk; p in s && s[p].nkeys < ZMXKEY
  {
    hide *;
    MendingFacts(sb, s, root, H, fs, w, freed, goal);
    HoleParent(sb, s, root, H, fs, w, freed);
    HoleBase(sb, s, root, H, fs, w, freed);
    ParentRoom(sb, root, H, fs);
  }

  /** The hole's parent is as in the base store. */
  lemma HoleParent(sb: Store, s: Store, root: int, H: nat, fs: seq<Frame>, w: seq<Entry>, freed: multiset<int>)
    requires Hole(sb, s, root, H, fs, w, freed) && |fs| > 0
    ensures var p := fs[|fs| - 1].blk; p in s && p in sb && s[p] == sb[p]
  {
    hide *;
    HoleBase(sb, s, root, H, fs, w, freed);
    Lift(sb, s, root, H, fs, w, freed);
    LooseCounts(s, fs[|fs| - 1], H - |fs| + 1);
  }

  /** A block with children in a tree with room above the leaves. */
  lemma ParentRoom(sb: Store, root: int, H: nat, fs: seq<Frame>)
    requires NodeOK(sb, root, H) && PathOK(sb, root, H, fs) && 0 < |fs| <= H && SlackBut(sb, Blks(sb, root, H), ZNULL)
    ensures var p := fs[|fs| - 1].blk; p in sb && sb[p].nkeys < ZMXKEY
  {
    hide *;
    var front, f, hp := fs[..|fs| - 1], fs[|fs| - 1], H - |fs| + 1;
    PathStep(sb, root, H, fs);
    PathTarget(sb, root, H, front);
    NodeKids(sb, f.blk, hp);
    BlksNode(sb, f.blk, hp);
    InMultiset(f.blk, Blks(sb, f.blk, hp), Blks(sb, root, H));
    FirstLink(sb, f.blk, hp);
    SlackOf(sb, Blks(sb, root, H), f.blk);
  }

  lemma MakeMending(sb: Store, s: Store, root: int, H: nat, fs: seq<Frame>, w: seq<Entry>,
                    freed: multiset<int>, goal: seq<Entry>)
    requires Hole(sb, s, root, H, fs, w, freed)
    requires PathOK(sb, root, H, fs) && Goal(sb, root, H, fs, w) == goal && Sorted(goal)
    requires SlackBut(sb, Blks(sb, root, H), ZNULL) && ZNULL !in sb
    ensures Mending(sb, s, root, H, fs, w, freed, goal)
  {
  }

  lemma MakeBooks(ix: Index, sb: Store, H: nat, used: multiset<int>, freed: multiset<int>)
    requires AllocOK(ix.store, ix.sblkmx, ix.sfreep, ix.snfree, ix.free, used)
    requires used + freed == Blks(sb, ix.scroot, H) + multiset(ix.rest) && Unique(used + freed)
    requires Kept(sb, ix.store, ix.scroot, ix.rest)
    ensures Books(ix, sb, H, used, freed)
  {
  }

  /** Whatever the size of its sister, an emptied leaf is joined or balanced with
      it, exactly when a block holds enough keys. */
  lemma EmptyLeafRepaired()
    ensures (ZMXKEY + 1) / 2 > ZTHRES
       <==> forall sister :: 1 <= sister <= ZMXKEY ==> sister < ZMXKEY - ZTHRES || !NearlyEven(0, sister)
  {
    if (ZMXKEY + 1) / 2 <= ZTHRES {
      assert NearlyEven(0, ZMXKEY - ZTHRES);
    }
  }

  /** balblk after a failed bjnblk: the tree is whole again. */
  method BalanceLeaf(ix: Index, ghost sb: Store, ghost H: nat, ghost fs: seq<Frame>, ghost w: seq<Entry>,
                     ghost freed: multiset<int>, ghost used: multiset<int>, ghost goal: seq<Entry>)
    requires Calm(ix)
    requires (ZMXKEY + 1) / 2 > ZTHRES
    requires AtLeaf(ix, sb, H, fs, w, freed, used, goal) && |fs| > 0
    requires NoJoin(ix.store, fs[|fs| - 1], ix.lfblk)
    modifies ix`store, ix`stk, ix`lfblk, ix`lfpos
    ensures Mended(ix, sb, H, used, goal) && RoutedIf(sb, ix.scroot, H, fs, ix.store, H, ix.lfkey)
    ensures Levelled(old(ix.store), ix.store, fs[|fs| - 1], old(ix.lfblk))
  {
    hide *;
    AtLeafFacts(ix, sb, H, fs, w, freed, used, goal);
    ghost var s, f := ix.store, fs[|fs| - 1];
    CountKeys(s[f.blk]);
    CountIs(s[f.blk]);
    var cblk := ix.lfblk;
    PullLeaf(ix, fs);
    MakeAtParent(ix, sb, H, fs, w, freed, used, goal);
    var done := false;
    var parent := Read(ix, ix.lfblk);
    if ix.lfpos < parent.nkeys {
      done := TryBalance(ix, cblk, true, sb, H, fs, w, freed, used, goal);
    }
    ghost var right := done;
    if !done && ix.lfpos > 0 {
      ix.lfpos := ix.lfpos - 1;
      done := TryBalance(ix, cblk, false, sb, H, fs, w, freed, used, goal);
      if !done {
        ix.lfpos := ix.lfpos + 1;
      }
    }
    if !done {
      AtParentOpen(ix, sb, H, fs, w, freed, used, goal);
      PushLeaf(ix, fs, cblk);
      EvenLeaf(s, f, cblk);
      CloseUp(ix, sb, H, fs, w, freed, used, goal);
      CloseLow(ix, sb, H, fs, w, freed, goal, ix.lfkey);
    } else {
      EvenedLeaf(s, ix.store, f, cblk, right);
    }
  }

  /** Neither joined nor balanced: the leaf has keys. */
  lemma EvenLeaf(s: Store, f: Frame, c: int)
    requires (ZMXKEY + 1) / 2 > ZTHRES
    requires NoJoin(s, f, c) && s[c].nkeys >= 0
    requires 1 <= s[f.blk].nkeys == |Keys(s[f.blk])| && 0 <= f.pos <= s[f.blk].nkeys
    requires f.pos < s[f.blk].nkeys ==> SisterEven(s, f.blk, f.pos, true, c)
    requires f.pos > 0 ==> SisterEven(s, f.blk, f.pos - 1, false, c)
    ensures s[c].nkeys >= 1 && Levelled(s, s, f, c)
  {
    hide Keys, Links;
  }

  lemma EvenedLeaf(s: Store, s': Store, f: Frame, c: int, right: bool)
    requires SisterEvened(s, s', f.blk, if right then f.pos else f.pos - 1, right, c)
    ensures Levelled(s, s', f, c)
  {
    hide Links, NearlyEven;
    var i := if right then f.pos + 1 else f.pos - 1;
    assert Uneven(s, f, c, i) && Evened(s, s', f, c, i);
  }

  // ---------------------------------------------------------------------
  // bdemte
  // ---------------------------------------------------------------------

  lemma ClimbingOpen(ix: Index, sb: Store, H: nat, fs: seq<Frame>, w: seq<Entry>, freed: multiset<int>,
                     used: multiset<int>, goal: seq<Entry>, cblk: int)
    requires Climbing(ix, sb, H, fs, w, freed, used, goal, cblk)
    ensures Mending(sb, ix.store, ix.scroot, H, fs, w, freed, goal) && |fs| < H
    ensures Books(ix, sb, H, used, freed)
    ensures ix.lfblk == Target(sb, ix.scroot, fs) && ix.lfblk in ix.store
    ensures StackOn(ix.stk, fs + [Frame(ix.lfblk, ix.lfpos)])
    ensures ix.store[ix.lfblk].nkeys < ZMXKEY
    ensures ix.store[ix.lfblk].nkeys == 0 ==> Links(ix.store[ix.lfblk]) == [cblk]
  {
    hide Mending, Books;
  }

  /** Only the root has the root type. */
  lemma HoleType(sb: Store, s: Store, root: int, H: nat, fs: seq<Frame>, w: seq<Entry>, freed: multiset<int>)
    requires Hole(sb, s, root, H, fs, w, freed)
    ensures var g := Target(sb, root, fs);
            && g in s && (s[g].btype == ZROOT <==> |fs| == 0) && (|fs| == 0 ==> g == root)
            && NodeOK(s, g, H - |fs|) && 0 <= s[g].nkeys <= ZMXKEY
  {
    hide *;
    HoleBase(sb, s, root, H, fs, w, freed);
    TargetType(sb, root, H, fs);
    NodeKids(s, Target(sb, root, fs), H - |fs|);
  }

  /** Only the root has the root's type. */
  lemma TargetType(sb: Store, root: int, H: nat, fs: seq<Frame>)
    requires NodeOK(sb, root, H) && PathOK(sb, root, H, fs) && root in sb && sb[root].btype == ZROOT
    ensures var g := Target(sb, root, fs);
            |fs| <= H && g in sb && (sb[g].btype == ZROOT <==> |fs| == 0) && (|fs| == 0 ==> g == root)
  {
    assert ZINUSE != ZROOT;
    hide *;
    PathNode(sb, root, H, fs);
    var g := Target(sb, root, fs);
    NodeKids(sb, g, H - |fs|);
    if |fs| > 0 {
      KidType(sb, g, H - |fs|);
    } else {
      PathNil(sb, root, H, fs);
    }
  }

  /** The empty root takes over its only child, which is freed. */
  method CollapseRoot(ix: Index, cblk: int, ghost sb: Store, ghost H: nat, ghost fs: seq<Frame>, ghost w: seq<Entry>,
                      ghost freed: multiset<int>, ghost used: multiset<int>, ghost goal: seq<Entry>)
    requires Calm(ix)
    requires Climbing(ix, sb, H, fs, w, freed, used, goal, cblk)
    requires |fs| == 0 && ix.lfblk in ix.store && ix.store[ix.lfblk].nkeys == 0
    modifies ix`store, ix`snfree, ix`sfreep, ix`free, ix`busy
    ensures Calm(ix) && ix.snfree == old(ix.snfree) + 1
    ensures H > 0 && Mended(ix, sb, H - 1, used - multiset{cblk}, goal)
    ensures Routed(old(ix.store), ix.scroot, H, ix.lfkey) ==> Routed(ix.store, ix.scroot, H - 1, ix.lfkey)
  {
    hide *;
    ClimbingOpen(ix, sb, H, fs, w, freed, used, goal, cblk);
    ghost var s, root := ix.store, ix.scroot;
    MendingFacts(sb, s, root, H, fs, w, freed, goal);
    HoleFacts(sb, s, root, H, fs, w, freed);
    HoleType(sb, s, root, H, fs, w, freed);
    BooksFacts(ix, sb, H, used, freed);
    PathNil(sb, root, H, fs);
    RootGoal(sb, root, H, fs, w);
    EmptyNode(s, root, H, cblk);
    KidType(s, cblk, H - 1);
    NodeKids(s, cblk, H - 1);
    BlksNode(s, cblk, H - 1);
    UniqueLess(Blks(s, root, H), freed, Blks(sb, root, H));
    CollapseBooks(root, cblk, Blks(s, cblk, H - 1), Blks(s, root, H), freed, Blks(sb, root, H), used, ix.rest);
    var child := Read(ix, cblk);
    var nkeys := child.nkeys;
    CalmIs(ix);
    Copy(ix, ix.lfblk, cblk, 0, 0, nkeys);
    CalmIs(ix);
    ghost var s1 := ix.store;
    SetCount(ix, ix.lfblk, nkeys);
    ghost var s2 := ix.store;
    WordedTrans(s, s1, s2, root);
    AllocFrame(s, ix.store, ix.sblkmx, ix.sfreep, ix.snfree, ix.free, used);
    MakeFree(ix, cblk, used);
    WordedTrans(s, s2, ix.store, root);
    Collapse(s, ix.store, root, H, cblk);
    WholeCopyView(s[root], s[cblk]);
    if Routed(s, root, H, ix.lfkey) {
      CollapseRouted(s, ix.store, root, H, cblk, ix.lfkey);
    }
    KeptMerged(sb, s, ix.store, root, ix.rest, root, cblk, cblk);
    OwnedAgain(Blks(ix.store, root, H - 1), freed + multiset{cblk}, Blks(sb, root, H), used - multiset{cblk},
               multiset(ix.rest));
    MakeMended(ix, sb, H - 1, used - multiset{cblk}, goal);
  }

  lemma RootGoal(sb: Store, root: int, H: nat, fs: seq<Frame>, w: seq<Entry>)
    requires PathOK(sb, root, H, fs) && |fs| == 0
    ensures Goal(sb, root, H, fs, w) == w
  {
  }

  lemma CollapseBooks(root: int, c: int, mc: multiset<int>, m: multiset<int>, freed: multiset<int>, mb: multiset<int>,
                      used: multiset<int>, rest: set<int>)
    requires m == multiset{root} + mc && c in mc && m + freed == mb
    requires used + freed == mb + multiset(rest) && Unique(used + freed)
    ensures root in used && c in used && root !in rest && c !in rest && c != root
    ensures (used - multiset{c}) + (freed + multiset{c}) == mb + multiset(rest)
    ensures forall m' :: m' + multiset{c} == m ==> m' + (freed + multiset{c}) == mb
  {
    InBooks(root, m, freed, mb, mb, used, rest);
    InBooks(c, m, freed, mb, mb, used, rest);
    assert mc[c] + multiset{root}[c] == m[c] <= mb[c] <= (used + freed)[c] <= 1;
  }

  /** The block that is left of a demotion. */
  function DemotedBlock(lb: Block, rb: Block, k: Entry, right: bool, orphan: int): Block
    requires 0 <= lb.nkeys && 0 <= rb.nkeys <= ZMXKEY && (if right then lb.nkeys < ZMXKEY else rb.nkeys < ZMXKEY)
  {
    if right then PutKey(lb, k, ZNULL, orphan)
    else PutKey(CopyKeys(lb, rb, 0, 0, rb.nkeys).(nkeys := rb.nkeys), k, orphan, ZNULL)
  }

  /** Some key of the block is k. */
  ghost predicate HasKey(b: Block, k: int) {
    exists j :: 0 <= j < |Keys(b)| && Keys(b)[j].key == k
  }

  /** None of the blocks has it. */
  ghost predicate Lacks(s: Store, bs: set<int>, k: int) {
    forall b :: b in bs ==> b in s && !HasKey(s[b], k)
  }

  /** The key at pos is the parent's only one of its value, and the children do
      not have it. */
  ghost predicate Alone(s: Store, p: int, pos: int, link1: int, link2: int, k: int) {
    && p in s && link1 in s && link2 in s && 0 <= pos < s[p].nkeys <= ZMXKEY && Keys(s[p])[pos].key == k
    && (forall j :: 0 <= j < |Keys(s[p])| && j != pos ==> Keys(s[p])[j].key != k)
    && !HasKey(s[link1], k) && !HasKey(s[link2], k)
  }

  /** In a strictly ordered tree the key between two children is nowhere else in
      their parent and in them. */
  lemma PairAlone(s: Store, p: int, hp: nat, i: nat, l: int, r: int, k: Entry)
    requires LoosePair(s, p, hp, i, l, r, k) && Sorted(Ents(s, p, hp))
    ensures Alone(s, p, i, l, r, k.key)
  {
    hide *;
    PairFacts(s, p, hp, i, l, r, k);
    PairApart(s, p, hp, i, l, r, k);
    EntsNode(s, p, hp);
    CountKeys(s[p]);
    KeysSorted(s, Keys(s[p]), Links(s[p]), hp);
    PairSlices(s, p, i, l, r, k);
    AloneIs(s, p, i, l, r, k);
  }

  lemma AloneIs(s: Store, p: int, i: nat, l: int, r: int, k: Entry)
    requires p in s && l in s && r in s && i < |Keys(s[p])| == s[p].nkeys <= ZMXKEY
    requires Sorted(Keys(s[p])) && Keys(s[p])[i] == k
    requires AllBelow(Keys(s[l]), k.key) && AllAbove(Keys(s[r]), k.key)
    ensures Alone(s, p, i, l, r, k.key)
  {
    hide Keys;
  }

  lemma AloneLacks(s: Store, s': Store, p: int, pos: int, link1: int, link2: int, k: int)
    requires p in s && link1 in s && link2 in s && p != link1 && p != link2 && 0 <= pos < s[p].nkeys <= ZMXKEY
    requires s' == s[p := RemKey(s[p], pos)]
    ensures Alone(s, p, pos, link1, link2, k) ==> Lacks(s', {p, link1, link2}, k)
    ensures 0 <= s'[p].nkeys < ZMXKEY && s'[link1] == s[link1] && s'[link2] == s[link2]
  {
    hide Keys;
    RemKeyView(s[p], pos);
    assert s'[p].nkeys == s[p].nkeys - 1;
  }

  lemma SplitLacks(s: Store, s': Store, p: int, c: int, n: int, link1: int, link2: int, e: Entry, k: int)
    requires SplitResult(s, s', p, c, n) && link1 in s && link2 in s && c in {link1, link2} && n !in {p, link1, link2}
    requires p != link1 && p != link2 && e == Keys(s[c])[ZMXKEY / 2]
    ensures Lacks(s, {p, link1, link2}, k) ==>
              Lacks(s', {p, link1, link2, n}, k) && e.key != k && !HasKey(s'[n], k) && !HasKey(s'[link2], k)
    ensures n in s' && p in s' && 0 <= s'[n].nkeys < ZMXKEY && link1 in s' && link2 in s' && 0 <= s'[c].nkeys < ZMXKEY
  {
    hide Keys, PutKey, Links;
    assert Count(s[c]) == ZMXKEY;
    PutLacks(s[p], e, c, n, k);
    if Lacks(s, {p, link1, link2}, k) {
      assert !HasKey(s[p], k) && !HasKey(s[c], k) && !HasKey(s[link1], k) && !HasKey(s[link2], k);
      HalvesLack(s, s', c, n, k);
    }
  }

  lemma HalvesLack(s: Store, s': Store, c: int, n: int, k: int)
    requires Halves(s, c, s', c, n, ZMXKEY / 2) && !HasKey(s[c], k)
    ensures !HasKey(s'[c], k) && !HasKey(s'[n], k) && Keys(s[c])[ZMXKEY / 2].key != k
  {
    hide Keys, Links;
    var ks := Keys(s[c]);
    forall j | 0 <= j < |Keys(s'[c])|
      ensures Keys(s'[c])[j].key != k
    {
      assert Keys(s'[c])[j] == ks[j];
    }
    forall j | 0 <= j < |Keys(s'[n])|
      ensures Keys(s'[n])[j].key != k
    {
      assert Keys(s'[n])[j] == ks[ZMXKEY / 2 + 1 + j];
    }
  }

  lemma PutLacks(b: Block, e: Entry, link1: int, link2: int, k: int)
    requires 0 <= b.nkeys < ZMXKEY
    ensures HasKey(PutKey(b, e, link1, link2), e.key)
    ensures !HasKey(b, k) && e.key != k ==> !HasKey(PutKey(b, e, link1, link2), k)
  {
    var b', n := PutKey(b, e, link1, link2), b.nkeys;
    var i := if n == 0 then 0 else if link1 == ZNULL && link2 != ZNULL then n else PutPos(b.key[..n], e.key);
    assert Keys(b) == b.key[..n];
    assert Keys(b') == Keys(b)[..i] + [e] + Keys(b)[i..];
    assert Keys(b')[i] == e;
  }

  lemma CopyLacks(t: Block, f: Block, n: nat, k: int)
    requires n == f.nkeys <= ZMXKEY
    ensures !HasKey(f, k) ==> !HasKey(CopyKeys(t, f, 0, 0, n).(nkeys := n), k)
  {
    assert Keys(CopyKeys(t, f, 0, 0, n).(nkeys := n)) == Keys(f);
  }

  lemma FreeLacks(b: Block, k: int)
    requires b.nkeys == 0
    ensures !HasKey(b, k)
  {
  }

  /** With room in the sister the key is in the block that is left. */
  lemma RoomKeeps(s: Store, s': Store, p: int, link1: int, link2: int, k: Entry, right: bool, orphan: int)
    requires link1 in s && link2 in s && link1 in s' && 0 <= s[link1].nkeys && 0 <= s[link2].nkeys <= ZMXKEY
    requires if right then s[link1].nkeys < ZMXKEY else s[link2].nkeys < ZMXKEY
    requires s'[link1] == DemotedBlock(s[link1], s[link2], k, right, orphan)
    ensures HasKey(s'[link1], k.key)
    ensures forall bs: set<int> :: link1 in bs ==> !Lacks(s', bs, k.key)
  {
    hide HasKey, PutKey, CopyKeys;
    if right {
      PutLacks(s[link1], k, ZNULL, orphan, 0);
    } else {
      PutLacks(CopyKeys(s[link1], s[link2], 0, 0, s[link2].nkeys).(nkeys := s[link2].nkeys), k, orphan, ZNULL, 0);
    }
  }

  /** The key between two children leaves the parent and goes to the one with
      keys, together with the orphan of the other one; what is left is in the
      left block, and the right one is freed.  A full sister is split first, and
      that split overwrites the entry about to go down. */
  method DemotePair(ix: Index, cblk: int, link1: int, link2: int, kep: Entry, rblke: bool, ghost used: multiset<int>)
    returns (next: int)
    requires Calm(ix)
    requires AllocOK(ix.store, ix.sblkmx, ix.sfreep, ix.snfree, ix.free, used)
    requires ix.lfblk in used && link1 in used && link2 in used
    requires ix.lfblk in ix.store && link1 in ix.store && link2 in ix.store
    requires link1 != link2 && ix.lfblk != link1 && ix.lfblk != link2
    requires 0 <= ix.lfpos < ix.store[ix.lfblk].nkeys <= ZMXKEY
    requires 0 <= ix.store[link1].nkeys <= ZMXKEY && 0 <= ix.store[link2].nkeys <= ZMXKEY
    modifies ix`store, ix`sblkmx, ix`snfree, ix`sfreep, ix`free, ix`busy
    ensures Calm(ix)
    ensures old(ix.store[if rblke then link1 else link2]).nkeys < ZMXKEY ==>
              && next == link1 && ix.sblkmx == old(ix.sblkmx) && ix.snfree == old(ix.snfree) + 1
              && AllocOK(ix.store, ix.sblkmx, ix.sfreep, ix.snfree, ix.free, used - multiset{link2})
              && ix.lfblk in ix.store && link1 in ix.store
              && ix.store[ix.lfblk] == RemKey(old(ix.store[ix.lfblk]), ix.lfpos)
              && ix.store[link1] == DemotedBlock(old(ix.store[link1]), old(ix.store[link2]), kep, rblke, cblk)
              && (forall x :: x in ix.store <==> x in old(ix.store))
              && forall x :: x in old(ix.store) && x != ix.lfblk && x != link1 && x != link2 ==> ix.store[x] == old(ix.store[x])
    ensures next in ix.store && ix.lfblk in ix.store && link1 in ix.store && link2 in ix.store
    ensures old(Alone(ix.store, ix.lfblk, ix.lfpos, link1, link2, kep.key)) ==>
              (Lacks(ix.store, {ix.lfblk, link1, link2, next}, kep.key)
               <==> old(ix.store[if rblke then link1 else link2]).nkeys == ZMXKEY)
    ensures link2 != ix.scroot && (old(ix.store[if rblke then link1 else link2]).nkeys < ZMXKEY || ix.scroot in used) ==>
              Worded(old(ix.store), ix.store, ix.scroot)
  {
    hide *;
    ghost var s := ix.store;
    Remove(ix, ix.lfblk, ix.lfpos);
    ghost var s1 := ix.store;
    var jblk := if rblke then link1 else link2;
    var j := Read(ix, jblk);
    next := link1;
    if j.nkeys == ZMXKEY {
      AllocFrame(s, ix.store, ix.sblkmx, ix.sfreep, ix.snfree, ix.free, used);
      AloneLacks(s, ix.store, ix.lfblk, ix.lfpos, link1, link2, kep.key);
      next := DemoteFull(ix, cblk, link1, link2, rblke, used, kep.key);
      if link2 != ix.scroot && ix.scroot in used {
        WordedTrans(s, s1, ix.store, ix.scroot);
      }
    } else {
      DemoteRoom(ix, cblk, link1, link2, kep, rblke, used, s);
      RoomKeeps(s, ix.store, ix.lfblk, link1, link2, kep, rblke, cblk);
    }
  }

  /** The rest of a demotion next to a sister with room. */
  method DemoteRoom(ix: Index, cblk: int, link1: int, link2: int, kep: Entry, rblke: bool,
                    ghost used: multiset<int>, ghost s: Store)
    requires Calm(ix)
    requires AllocOK(s, ix.sblkmx, ix.sfreep, ix.snfree, ix.free, used)
    requires ix.lfblk in used && link1 in used && link2 in used
    requires ix.lfblk in s && link1 in s && link2 in s
    requires link1 != link2 && ix.lfblk != link1 && ix.lfblk != link2
    requires 0 <= ix.lfpos < s[ix.lfblk].nkeys <= ZMXKEY && ix.store == s[ix.lfblk := RemKey(s[ix.lfblk], ix.lfpos)]
    requires 0 <= s[link1].nkeys <= ZMXKEY && 0 <= s[link2].nkeys <= ZMXKEY
    requires s[if rblke then link1 else link2].nkeys < ZMXKEY
    requires Worded(s, ix.store, ix.scroot)
    modifies ix`store, ix`snfree, ix`sfreep, ix`free, ix`busy
    ensures Calm(ix)
    ensures link2 != ix.scroot ==> Worded(s, ix.store, ix.scroot)
    ensures ix.snfree == old(ix.snfree) + 1
    ensures AllocOK(ix.store, ix.sblkmx, ix.sfreep, ix.snfree, ix.free, used - multiset{link2})
    ensures ix.lfblk in ix.store && link1 in ix.store && link2 in ix.store
    ensures ix.store[ix.lfblk] == RemKey(s[ix.lfblk], ix.lfpos)
    ensures ix.store[link1] == DemotedBlock(s[link1], s[link2], kep, rblke, cblk)
    ensures forall x :: x in ix.store <==> x in s
    ensures forall x :: x in s && x != ix.lfblk && x != link1 && x != link2 ==> ix.store[x] == s[x]
  {
    hide *;
    ghost var s1 := ix.store;
    PutDown(ix, cblk, link1, link2, kep, rblke);
    ghost var s3 := ix.store;
    WordedTrans(s, s1, s3, ix.scroot);
    DemotedAlloc(s, ix.store, ix.sblkmx, ix.sfreep, ix.snfree, ix.free, used, ix.lfblk, link1);
    MakeFree(ix, link2, used);
    if link2 != ix.scroot {
      WordedTrans(s, s3, ix.store, ix.scroot);
    }
  }

  /** The key goes to the left block, which takes the keys of the right one before
      if it has none. */
  method PutDown(ix: Index, cblk: int, link1: int, link2: int, kep: Entry, rblke: bool)
    requires Calm(ix) && link1 in ix.store && link2 in ix.store && link1 != link2
    requires 0 <= ix.store[link1].nkeys <= ZMXKEY && 0 <= ix.store[link2].nkeys <= ZMXKEY
    requires ix.store[if rblke then link1 else link2].nkeys < ZMXKEY
    modifies ix`store, ix`busy
    ensures Calm(ix) && Worded(old(ix.store), ix.store, ix.scroot)
    ensures ix.store == old(ix.store)[link1 := DemotedBlock(old(ix.store[link1]), old(ix.store[link2]), kep, rblke, cblk)]
  {
    hide *;
    ghost var s := ix.store;
    WordedRefl(s, ix.scroot);
    if !rblke {
      var right := Read(ix, link2);
      CopyDown(ix, link1, link2, right.nkeys);
      CopyType(s[link1], s[link2], 0, 0, right.nkeys);
    }
    ghost var s2 := ix.store;
    CalmIs(ix);
    var llink := if rblke then ZNULL else cblk;
    var rlink := if rblke then cblk else ZNULL;
    Put(ix, link1, kep, llink, rlink);
    WordedTrans(s, s2, ix.store, ix.scroot);
    DemotedIs(s[link1], s[link2], kep, rblke, cblk);
  }

  /** The keys of the right block go to the empty left one. */
  method CopyDown(ix: Index, link1: int, link2: int, nkeys: int)
    requires Calm(ix) && link1 in ix.store && link2 in ix.store && link1 != link2 && 0 <= nkeys <= ZMXKEY
    modifies ix`store, ix`busy
    ensures Calm(ix)
    ensures ix.store == old(ix.store)[link1 := CopyKeys(old(ix.store[link1]), old(ix.store[link2]), 0, 0, nkeys).(nkeys := nkeys)]
    ensures Worded(old(ix.store), ix.store, ix.scroot)
  {
    hide *;
    CalmIs(ix);
    ghost var s := ix.store;
    SetBusy(ix, link1, true);
    AtMostTwo(ix, link1);
    Copy(ix, link1, link2, 0, 0, nkeys);
    CalmIs(ix);
    ghost var s1 := ix.store;
    SetCount(ix, link1, nkeys);
    WordedTrans(s, s1, ix.store, ix.scroot);
    SetBusy(ix, link1, false);
    CalmIs(ix);
  }

  /** The rest of a demotion next to a full sister.  The entry to go down is in
      static storage, where the split leaves the sister's middle key. */
  method DemoteFull(ix: Index, cblk: int, link1: int, link2: int, rblke: bool, ghost used: multiset<int>,
                    ghost k: int) returns (next: int)
    requires Calm(ix)
    requires AllocOK(ix.store, ix.sblkmx, ix.sfreep, ix.snfree, ix.free, used)
    requires ix.lfblk in used && link1 in used && link2 in used
    requires ix.lfblk in ix.store && link1 in ix.store && link2 in ix.store
    requires link1 != link2 && ix.lfblk != link1 && ix.lfblk != link2 && 0 <= ix.store[ix.lfblk].nkeys < ZMXKEY
    requires ix.store[if rblke then link1 else link2].nkeys == ZMXKEY
    modifies ix`store, ix`sblkmx, ix`snfree, ix`sfreep, ix`free, ix`busy
    ensures Calm(ix)
    ensures next in ix.store && ix.lfblk in ix.store && link1 in ix.store && link2 in ix.store
    ensures old(Lacks(ix.store, {ix.lfblk, link1, link2}, k)) ==> Lacks(ix.store, {ix.lfblk, link1, link2, next}, k)
    ensures link2 != ix.scroot && ix.scroot in used ==> Worded(old(ix.store), ix.store, ix.scroot)
  {
    hide *;
    ghost var s := ix.store;
    var sister := if rblke then link1 else link2;
    CalmIs(ix);
    var kep, _, _, _ := Fetch(ix, sister, ZMXKEY / 2);
    var newblk := SplitOther(ix, sister, used);
    ghost var s1 := ix.store;
    SplitLacks(s, s1, ix.lfblk, sister, newblk, link1, link2, kep, k);
    next := if rblke then newblk else link1;
    if !rblke {
      var right := Read(ix, link2);
      CopyLacks(s1[link1], s1[link2], right.nkeys, k);
      CopyDown(ix, link1, link2, right.nkeys);
    }
    WordedRefl(s1, ix.scroot);
    ghost var s2 := ix.store;
    ghost var b := ix.store[next];
    CalmIs(ix);
    var llink := if rblke then ZNULL else cblk;
    var rlink := if rblke then cblk else ZNULL;
    Put(ix, next, kep, llink, rlink);
    ghost var s3 := ix.store;
    PutLacks(b, kep, llink, rlink, k);
    AllocFrame(s1, ix.store, ix.sblkmx, ix.sfreep, ix.snfree, ix.free, used + multiset{newblk});
    FreeCount(ix.store[link2], ix.sfreep);
    MakeFree(ix, link2, used + multiset{newblk});
    if link2 != ix.scroot && ix.scroot in used {
      WordedFour(s, s1, s2, s3, ix.store, ix.scroot);
    }
    LacksAfter(s1, ix.store, ix.lfblk, link1, link2, newblk, next, k, Lacks(s, {ix.lfblk, link1, link2}, k));
  }

  lemma WordedFour(s: Store, s1: Store, s2: Store, s3: Store, s4: Store, root: int)
    requires Worded(s, s1, root) && Worded(s1, s2, root) && Worded(s2, s3, root) && Worded(s3, s4, root)
    ensures Worded(s, s4, root)
  {
    hide *;
    WordedTrans(s, s1, s2, root);
    WordedTrans(s, s2, s3, root);
    WordedTrans(s, s3, s4, root);
  }

  lemma FreeCount(b: Block, head: int)
    ensures SetInfo(b, ZFREE, 0, head, 0, 0, ZNULL).nkeys == 0
  {
  }

  lemma LacksAfter(s: Store, s': Store, p: int, link1: int, link2: int, n: int, next: int, k: int, lacks: bool)
    requires next in {n, link1} && p in s && p in s' && link1 in s' && link2 in s' && next in s'
    requires s'[link2].nkeys == 0 && s'[p] == s[p]
    requires lacks ==> Lacks(s, {p, link1, link2, n}, k) && !HasKey(s'[next], k)
    requires link1 in s && (link1 == next || s'[link1] == s[link1])
    ensures lacks ==> Lacks(s', {p, link1, link2, next}, k)
  {
    FreeLacks(s'[link2], k);
    hide HasKey;
  }

  lemma DemotedIs(lb: Block, rb: Block, k: Entry, right: bool, orphan: int)
    requires 0 <= lb.nkeys && 0 <= rb.nkeys <= ZMXKEY && (if right then lb.nkeys < ZMXKEY else rb.nkeys < ZMXKEY)
    ensures right ==> DemotedBlock(lb, rb, k, right, orphan) == PutKey(lb, k, ZNULL, orphan)
    ensures !right ==> DemotedBlock(lb, rb, k, right, orphan)
                       == PutKey(CopyKeys(lb, rb, 0, 0, rb.nkeys).(nkeys := rb.nkeys), k, orphan, ZNULL)
  {
  }

  /** The demotion merges the two blocks, and sends the search on as before. */
  lemma DemoteMerges(sb: Store, s: Store, s': Store, root: int, H: nat, fs: seq<Frame>, w: seq<Entry>,
                     freed: multiset<int>, goal: seq<Entry>, i: nat, l: int, r: int, k: Entry, orphan: int, key: int)
    requires Mending(sb, s, root, H, fs, w, freed, goal) && Pair(sb, s, root, H, fs, i, l, r, k) && 0 < |fs| < H
    requires var f, g := fs[|fs| - 1], Target(sb, root, fs);
             && g in s && s[g].nkeys == 0 && Links(s[g]) == [orphan]
             && l in s && r in s && f.blk in s
             && 0 <= s[l].nkeys <= ZMXKEY && 0 <= s[r].nkeys <= ZMXKEY && i < s[f.blk].nkeys <= ZMXKEY
             && (if f.pos != i then s[l].nkeys < ZMXKEY else s[r].nkeys < ZMXKEY)
             && f.blk in s' && l in s' && s'[f.blk] == RemKey(s[f.blk], i)
             && s'[l] == DemotedBlock(s[l], s[r], k, f.pos != i, orphan)
             && forall x :: x in s && x != f.blk && x != l && x != r ==> x in s' && s'[x] == s[x]
    requires forall x :: x in s' ==> x in s
    ensures Merged(s, s', fs[|fs| - 1].blk, i, l, r, k, H - |fs|)
    ensures Filled(sb, s, root, H, fs, key) ==> Filled(sb, s', root, H, fs[..|fs| - 1], key)
  {
    hide *;
    MendingFacts(sb, s, root, H, fs, w, freed, goal);
    PairOpen(sb, s, root, H, fs, i, l, r, k);
    var f, hp := fs[|fs| - 1], H - |fs| + 1;
    var right := f.pos != i;
    HoleRoom(sb, s, root, H, fs, i, l, r, k);
    DemotedIs(s[l], s[r], k, right, orphan);
    PairFacts(s, f.blk, hp, i, l, r, k);
    PairApart(s, f.blk, hp, i, l, r, k);
    if right {
      DemoteRight(s, s', f.blk, hp, i, l, r, k, orphan);
      EmptyNode(s, r, hp - 1, orphan);
      PutDemotedRight(s[l], k, orphan);
    } else {
      DemoteLeft(s, s', f.blk, hp, i, l, r, k, orphan);
      EmptyNode(s, l, hp - 1, orphan);
      var taken: Block := CopyKeys(s[l], s[r], 0, 0, s[r].nkeys).(nkeys := s[r].nkeys);
      WholeCopyView(s[l], s[r]);
      PutDemotedLeft(taken, k, orphan);
    }
    if Filled(sb, s, root, H, fs, key) {
      FilledUp(sb, s, s', root, H, fs, w, freed, i, l, r, k, orphan, key);
    }
  }

  /** The empty block gives way to a sister, together with the key between them. */
  method DemoteKey(ix: Index, cblk: int, ghost sb: Store, ghost H: nat, ghost fs: seq<Frame>, ghost w: seq<Entry>,
                   ghost freed: multiset<int>, ghost used: multiset<int>, ghost goal: seq<Entry>)
    returns (next: int, ghost w': seq<Entry>, ghost freed': multiset<int>, ghost used': multiset<int>)
    requires Calm(ix)
    requires Climbing(ix, sb, H, fs, w, freed, used, goal, cblk)
    requires |fs| > 0 && ix.lfblk in ix.store && ix.store[ix.lfblk].nkeys == 0
    modifies ix`store, ix`sblkmx, ix`snfree, ix`sfreep, ix`free, ix`stk, ix`lfblk, ix`lfpos, ix`busy
    ensures Calm(ix) && ix.snfree == old(ix.snfree) + 1
    ensures Climbing(ix, sb, H, fs[..|fs| - 1], w', freed', used', goal, next) && 0 <= next
    ensures Filled(sb, old(ix.store), ix.scroot, H, fs, ix.lfkey)
        ==> Filled(sb, ix.store, ix.scroot, H, fs[..|fs| - 1], ix.lfkey)
  {
    hide *;
    ghost var s, root, f := ix.store, ix.scroot, fs[|fs| - 1];
    ClimbingOpen(ix, sb, H, fs, w, freed, used, goal, cblk);
    BooksTally(ix, sb, H, used, freed);
    LiftCounts(sb, s, root, H, fs, w, freed, goal);
    PullLeaf(ix, fs);
    var rblke := ix.lfpos != 0;
    if rblke {
      ix.lfpos := ix.lfpos - 1;
    }
    var kep, link1, link2 := FetchPair(ix, sb, H, fs, w, freed, goal);
    ghost var i := ix.lfpos;
    PairBlocksOf(sb, s, root, H, fs, w, freed, goal, i, link1, link2, kep, used, ix.rest);
    HoleRoom(sb, s, root, H, fs, i, link1, link2, kep);
    SisterNotRoot(sb, s, root, H, fs, w, freed, goal, i, link1, link2, kep, ix.rest);
    next := DemotePair(ix, cblk, link1, link2, kep, rblke, used);
    DemoteMerges(sb, s, ix.store, root, H, fs, w, freed, goal, i, link1, link2, kep, cblk, ix.lfkey);
    w' := MergedClimb(ix, sb, s, H, fs, w, freed, used, goal, i, link1, link2, kep);
    freed', used' := freed + multiset{link2}, used - multiset{link2};
  }

  lemma LiftCounts(sb: Store, s: Store, root: int, H: nat, fs: seq<Frame>, w: seq<Entry>, freed: multiset<int>,
                   goal: seq<Entry>)
    requires Mending(sb, s, root, H, fs, w, freed, goal) && |fs| > 0
    ensures var f := fs[|fs| - 1]; f.blk in s && 0 <= f.pos <= s[f.blk].nkeys <= ZMXKEY && s[f.blk].nkeys >= 1
  {
    hide *;
    MendingFacts(sb, s, root, H, fs, w, freed, goal);
    Lift(sb, s, root, H, fs, w, freed);
    LooseCounts(s, fs[|fs| - 1], H - |fs| + 1);
  }

  lemma PairBlocksOf(sb: Store, s: Store, root: int, H: nat, fs: seq<Frame>, w: seq<Entry>, freed: multiset<int>,
                     goal: seq<Entry>, i: int, l: int, r: int, k: Entry, used: multiset<int>, rest: set<int>)
    requires Mending(sb, s, root, H, fs, w, freed, goal) && Pair(sb, s, root, H, fs, i, l, r, k)
    requires Tallied(sb, root, H, used, freed, rest)
    ensures 0 < |fs| <= H && 0 <= i
    ensures var f, hp := fs[|fs| - 1], H - |fs| + 1;
            var p := f.blk;
            && LoosePair(s, p, hp, i, l, r, k) && Sorted(Ents(s, p, hp))
            && p in s && l in s && r in s && l != r && l != p && r != p && 0 <= l && 0 <= r
            && i < s[p].nkeys <= ZMXKEY && 0 <= s[l].nkeys <= ZMXKEY && 0 <= s[r].nkeys <= ZMXKEY
            && p in used && l in used && r in used
  {
    hide *;
    TallyIs(sb, root, H, used, freed, rest);
    MendingFacts(sb, s, root, H, fs, w, freed, goal);
    PairBlocks(sb, s, root, H, fs, w, freed, i, l, r, k, used, rest);
  }

  /** The sister of a non-leaf hole has keys and room for one more. */
  lemma HoleRoom(sb: Store, s: Store, root: int, H: nat, fs: seq<Frame>, i: int, l: int, r: int, k: Entry)
    requires Pair(sb, s, root, H, fs, i, l, r, k)
    ensures 0 < |fs| <= H
    ensures H - |fs| > 0 ==> (fs[|fs| - 1].pos == i ==> r in s && 0 < s[r].nkeys < ZMXKEY)
    ensures H - |fs| > 0 ==> (fs[|fs| - 1].pos == i + 1 ==> l in s && 0 < s[l].nkeys < ZMXKEY)
  {
    hide *;
    PairOpen(sb, s, root, H, fs, i, l, r, k);
  }

  lemma DemotedAlloc(s: Store, s': Store, mx: int, head: int, nfree: int, free: seq<int>, used: multiset<int>,
                     p: int, l: int)
    requires AllocOK(s, mx, head, nfree, free, used) && p in used && l in used
    requires forall x :: x in s' <==> x in s
    requires forall x :: x in s && x != p && x != l ==> s'[x] == s[x]
    ensures AllocOK(s', mx, head, nfree, free, used)
  {
    hide AllocOK;
    AllocFrame(s, s', mx, head, nfree, free, used);
  }

  /** bdemte: nothing to do while the last found block has keys; otherwise the
      root collapses or a key comes down and the parent is next. */
  method Demote(ix: Index, cblk: int, ghost sb: Store, ghost H: nat, ghost fs: seq<Frame>, ghost w: seq<Entry>,
                ghost freed: multiset<int>, ghost used: multiset<int>, ghost goal: seq<Entry>)
    returns (next: int, ghost H': nat, ghost w': seq<Entry>, ghost freed': multiset<int>, ghost used': multiset<int>)
    requires Calm(ix)
    requires Climbing(ix, sb, H, fs, w, freed, used, goal, cblk)
    modifies ix`store, ix`sblkmx, ix`snfree, ix`sfreep, ix`free, ix`stk, ix`lfblk, ix`lfpos, ix`busy
    ensures Calm(ix)
    ensures old(ix.lfblk in ix.store)
         && ix.snfree == old(ix.snfree) + if old(ix.store[ix.lfblk]).nkeys == 0 then 1 else 0
    ensures next == ZNULL ==> Mended(ix, sb, H', used', goal)
    ensures next == ZNULL ==> H' == if |fs| == 0 && old(ix.lfblk in ix.store && ix.store[ix.lfblk].nkeys == 0) then H - 1 else H
    ensures next != ZNULL ==> H' == H && |fs| > 0 && Climbing(ix, sb, H, fs[..|fs| - 1], w', freed', used', goal, next)
    ensures Filled(sb, old(ix.store), ix.scroot, H, fs, ix.lfkey) ==>
              if next == ZNULL then Routed(ix.store, ix.scroot, H', ix.lfkey)
              else |fs| > 0 && Filled(sb, ix.store, ix.scroot, H, fs[..|fs| - 1], ix.lfkey)
  {
    assert ZNULL == -1;
    hide *;
    ClimbingType(ix, sb, H, fs, w, freed, used, goal, cblk);
    H', w', freed', used' := H, w, freed, used;
    next := ZNULL;
    var b := Read(ix, ix.lfblk);
    if b.nkeys == 0 {
      if b.btype != ZROOT {
        next, w', freed', used' := DemoteKey(ix, cblk, sb, H, fs, w, freed, used, goal);
      } else {
        RootFilled(ix, sb, H, fs, w, freed, used, goal, cblk);
        CollapseRoot(ix, cblk, sb, H, fs, w, freed, used, goal);
        H' := H - 1;
        used' := used - multiset{cblk};
      }
    } else {
      ClimbingEnd(ix, sb, H, fs, w, freed, used, goal, cblk);
    }
  }

  lemma ClimbingType(ix: Index, sb: Store, H: nat, fs: seq<Frame>, w: seq<Entry>, freed: multiset<int>,
                     used: multiset<int>, goal: seq<Entry>, cblk: int)
    requires Climbing(ix, sb, H, fs, w, freed, used, goal, cblk)
    ensures ix.lfblk in ix.store && 0 <= ix.store[ix.lfblk].nkeys && (ix.store[ix.lfblk].btype == ZROOT <==> |fs| == 0)
  {
    hide *;
    ClimbingOpen(ix, sb, H, fs, w, freed, used, goal, cblk);
    MendingFacts(sb, ix.store, ix.scroot, H, fs, w, freed, goal);
    HoleType(sb, ix.store, ix.scroot, H, fs, w, freed);
  }

  lemma RootFilled(ix: Index, sb: Store, H: nat, fs: seq<Frame>, w: seq<Entry>, freed: multiset<int>,
                   used: multiset<int>, goal: seq<Entry>, cblk: int)
    requires Climbing(ix, sb, H, fs, w, freed, used, goal, cblk) && |fs| == 0
    ensures Filled(sb, ix.store, ix.scroot, H, fs, ix.lfkey) ==> Routed(ix.store, ix.scroot, H, ix.lfkey)
  {
    hide *;
    if Filled(sb, ix.store, ix.scroot, H, fs, ix.lfkey) {
      FilledRoot(sb, ix.store, ix.scroot, H, fs, ix.lfkey);
    }
  }

  /** A last found block with keys ends the climb. */
  lemma ClimbingEnd(ix: Index, sb: Store, H: nat, fs: seq<Frame>, w: seq<Entry>, freed: multiset<int>,
                    used: multiset<int>, goal: seq<Entry>, cblk: int)
    requires Climbing(ix, sb, H, fs, w, freed, used, goal, cblk) && ix.store[ix.lfblk].nkeys >= 1
    ensures Mended(ix, sb, H, used, goal)
    ensures Filled(sb, ix.store, ix.scroot, H, fs, ix.lfkey) ==> Routed(ix.store, ix.scroot, H, ix.lfkey)
  {
    hide *;
    ClimbingOpen(ix, sb, H, fs, w, freed, used, goal, cblk);
    MendingFacts(sb, ix.store, ix.scroot, H, fs, w, freed, goal);
    CloseUp(ix, sb, H, fs, w, freed, used, goal);
    if Filled(sb, ix.store, ix.scroot, H, fs, ix.lfkey) {
      CloseRouted(sb, ix.store, ix.scroot, H, fs, w, freed, ix.lfkey);
    }
  }

  lemma FilledRoot(sb: Store, s: Store, root: int, H: nat, fs: seq<Frame>, key: int)
    requires Filled(sb, s, root, H, fs, key) && |fs| == 0
    ensures Routed(s, root, H, key)
  {
    hide *;
    FilledFacts(sb, s, root, H, fs, key);
    PathNil(sb, root, H, fs);
    RoutedIs(s, root, H, key);
  }
}
