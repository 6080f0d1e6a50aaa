/** bnxtbk, btkeys and the freeing loop of btdelr: every block of a tree once,
    children before their parent. */
module Enumeration {
  import opened Constants
  import opened Blocks
  import opened Seqs
  import opened Trees
  import opened Paths
  import opened Orders
  import opened Context
  import opened Split
  import opened Find
  import opened Leaf

  /** The blocks of a tree, children first. */
  ghost function Post(s: Store, b: int, h: nat): seq<int>
    decreases h, 0, 0
  {
    (if b in s && h > 0 then PostOf(s, Links(s[b]), h - 1) else []) + [b]
  }

  ghost function PostOf(s: Store, ls: seq<int>, h: nat): seq<int>
    decreases h, 1, |ls|
  {
    if |ls| == 0 then [] else Post(s, ls[0], h) + PostOf(s, ls[1..], h)
  }

  /** What is left of a block from child pos on, the block itself last. */
  ghost function RestAt(s: Store, f: Frame, h: nat): seq<int> {
    (if f.blk in s && h > 0 && 0 <= f.pos <= Count(s[f.blk]) then PostOf(s, Links(s[f.blk])[f.pos..], h - 1) else [])
    + [f.blk]
  }

  /** What is left above the end of a path. */
  ghost function Rest(s: Store, H: nat, fs: seq<Frame>): seq<int>
    requires |fs| <= H
    decreases |fs|
  {
    if |fs| == 0 then []
    else
      var f := fs[|fs| - 1];
      RestAt(s, Frame(f.blk, f.pos + 1), H - |fs| + 1) + Rest(s, H, fs[..|fs| - 1])
  }

  ghost function Remaining(s: Store, H: nat, front: seq<Frame>, f: Frame): seq<int>
    requires |front| <= H
  {
    RestAt(s, f, H - |front|) + Rest(s, H, front)
  }

  lemma PostNode(s: Store, b: int, h: nat)
    ensures b in s && h > 0 ==> Post(s, b, h) == PostOf(s, Links(s[b]), h - 1) + [b]
    ensures !(b in s && h > 0) ==> Post(s, b, h) == [b] && Blks(s, b, h) == multiset{b}
  {
  }

  lemma PostOfFirst(s: Store, ls: seq<int>, h: nat)
    requires |ls| > 0
    ensures PostOf(s, ls, h) == Post(s, ls[0], h) + PostOf(s, ls[1..], h)
  {
  }

  lemma PostOfNone(s: Store, h: nat)
    ensures PostOf(s, [], h) == [] && BlksOf(s, [], h) == multiset{}
  {
  }

  lemma MultisetConcat(a: seq<int>, b: seq<int>)
    ensures multiset(a + b) == multiset(a) + multiset(b)
  {
  }

  /** The enumeration holds exactly the blocks of the tree. */
  lemma {:induction false} PostBlocks(s: Store, b: int, h: nat)
    ensures multiset(Post(s, b, h)) == Blks(s, b, h)
    decreases h, 0, 0
  {
    hide *;
    PostNode(s, b, h);
    if b in s && h > 0 {
      PostOfBlocks(s, Links(s[b]), h - 1);
      BlksNode(s, b, h);
      MultisetConcat(PostOf(s, Links(s[b]), h - 1), [b]);
    }
  }

  lemma {:induction false} PostOfBlocks(s: Store, ls: seq<int>, h: nat)
    ensures multiset(PostOf(s, ls, h)) == BlksOf(s, ls, h)
    decreases h, 1, |ls|
  {
    hide *;
    if |ls| > 0 {
      PostBlocks(s, ls[0], h);
      PostOfBlocks(s, ls[1..], h);
      PostOfFirst(s, ls, h);
      BlksOne(s, ls[0], h);
      BlksConcat(s, [ls[0]], ls[1..], h);
      Unfirst(ls);
      MultisetConcat(Post(s, ls[0], h), PostOf(s, ls[1..], h));
    } else {
      PostOfNone(s, h);
      assert ls == [];
    }
  }

  lemma PostEnd(s: Store, b: int, h: nat)
    ensures |Post(s, b, h)| > 0 && Post(s, b, h)[|Post(s, b, h)| - 1] == b
    ensures h == 0 ==> Post(s, b, h) == [b]
  {
  }

  /** Going down to a first child takes nothing away. */
  lemma RemainingDown(s: Store, H: nat, front: seq<Frame>, f: Frame)
    requires |front| < H && f.blk in s && 0 <= f.pos <= Count(s[f.blk])
    requires Child(s, f) in s
    ensures Remaining(s, H, front + [f], Frame(Child(s, f), 0)) == Remaining(s, H, front, f)
  {
    hide PostOf;
    var h, c, ls := H - |front|, Child(s, f), Links(s[f.blk]);
    assert (front + [f])[..|front|] == front;
    PostOfFirst(s, ls[f.pos..], h - 1);
    assert ls[f.pos..][1..] == ls[f.pos + 1..];
    assert Links(s[c])[0..] == Links(s[c]);
    PostAt(s, c, h - 1);
    PastLast(s, f, h);
    var up := RestAt(s, Frame(f.blk, f.pos + 1), h);
    Assoc(Post(s, c, h - 1), PostOf(s, ls[f.pos + 1..], h - 1), [f.blk]);
    Assoc(Post(s, c, h - 1), up, Rest(s, H, front));
  }

  lemma PostAt(s: Store, c: int, h: nat)
    requires c in s
    ensures Post(s, c, h) == RestAt(s, Frame(c, 0), h)
  {
    assert Links(s[c])[0..] == Links(s[c]);
  }

  lemma PastLast(s: Store, f: Frame, h: nat)
    requires h > 0 && f.blk in s && 0 <= f.pos <= Count(s[f.blk])
    ensures RestAt(s, Frame(f.blk, f.pos + 1), h) == PostOf(s, Links(s[f.blk])[f.pos + 1..], h - 1) + [f.blk]
  {
    if f.pos == Count(s[f.blk]) {
      assert Links(s[f.blk])[f.pos + 1..] == [];
    }
  }

  /** The way bleaf takes to the left leaves the rest as it is. */
  lemma {:induction false} RemainingLeaf(s: Store, root: int, H: nat, front: seq<Frame>, f: Frame,
                                         front': seq<Frame>, f': Frame)
    requires AtPos(s, root, H, front', f') && |front| < |front'| <= H && f'.pos == 0
    requires front'[..|front|] == front && front'[|front|] == f && LeftEdge(front', |front| + 1)
    ensures Remaining(s, H, front', f') == Remaining(s, H, front, f)
    decreases |front'|
  {
    hide *;
    var up, g := front'[..|front'| - 1], front'[|front'| - 1];
    EndOfBlock(s, root, H, front', f');
    AtPosFacts(s, root, H, up, g);
    AtPosIs(s, root, H, front', f');
    AtPosIs(s, root, H, up, g);
    PathStep(s, root, H, front');
    assert front' == up + [g];
    assert f' == Frame(Child(s, g), 0);
    RemainingDown(s, H, up, g);
    if |up| > |front| {
      EdgeCut(front', |front| + 1);
      assert up[..|front|] == front;
      RemainingLeaf(s, root, H, front, f, up, g);
    } else {
      assert up == front && g == f;
    }
  }

  lemma EdgeCut(fs: seq<Frame>, m: nat)
    requires LeftEdge(fs, m) && m < |fs|
    ensures fs[|fs| - 1].pos == 0 && LeftEdge(fs[..|fs| - 1], m)
  {
  }

  lemma AtPosIs(s: Store, root: int, H: nat, front: seq<Frame>, f: Frame)
    requires AtPos(s, root, H, front, f)
    ensures NodeOK(s, root, H) && Unique(Blks(s, root, H)) && PathOK(s, root, H, front) && |front| <= H
    ensures f.blk == Target(s, root, front) && f.blk in s && 0 <= f.pos <= Count(s[f.blk])
  {
  }

  // ---------------------------------------------------------------------
  // bnxtbk
  // ---------------------------------------------------------------------

  /** The blocks still to come are in the store as they are in the tree. */
  ghost predicate Clean(s: Store, now: Store, rem: seq<int>) {
    forall x :: x in rem && x in s ==> x in now && now[x] == s[x]
  }

  /** The enumeration of tree s has rem still to come. */
  ghost predicate Listing(ix: Index, s: Store, front: seq<Frame>, rem: seq<int>)
    reads ix`store, ix`scroot, ix`height, ix`lfblk, ix`lfpos, ix`stk
  {
    if ix.lfblk == ZNULL then rem == []
    else
      && TreeOK(s, ix.scroot, ix.height)
      && PathOK(s, ix.scroot, ix.height, front) && |front| <= ix.height
      && ix.lfblk == Target(s, ix.scroot, front) && ix.lfpos >= 0
      && StackOn(ix.stk, front + [Frame(ix.lfblk, ix.lfpos)])
      && rem == Remaining(s, ix.height, front, Frame(ix.lfblk, ix.lfpos))
      && Clean(s, ix.store, rem)
  }

  lemma ListingFacts(ix: Index, s: Store, front: seq<Frame>, rem: seq<int>)
    requires Listing(ix, s, front, rem) && ix.lfblk != ZNULL
    ensures PathOK(s, ix.scroot, ix.height, front) && |front| <= ix.height && ix.lfblk == Target(s, ix.scroot, front)
    ensures NodeOK(s, ix.lfblk, ix.height - |front|) && ix.lfblk in s && 0 <= ix.lfblk && ix.lfpos >= 0
    ensures TreeOK(s, ix.scroot, ix.height) && NodeOK(s, ix.scroot, ix.height) && Unique(Blks(s, ix.scroot, ix.height))
    ensures |front| < ix.height ==> s[ix.lfblk].nkeys >= 1
    ensures StackOn(ix.stk, front + [Frame(ix.lfblk, ix.lfpos)])
    ensures rem == Remaining(s, ix.height, front, Frame(ix.lfblk, ix.lfpos)) && ix.lfblk in rem
    ensures Clean(s, ix.store, rem) && ix.lfblk in ix.store && ix.store[ix.lfblk] == s[ix.lfblk]
    ensures 0 <= s[ix.lfblk].nkeys <= ZMXKEY && Count(s[ix.lfblk]) == s[ix.lfblk].nkeys
    ensures ix.lfpos <= s[ix.lfblk].nkeys ==> AtPos(s, ix.scroot, ix.height, front, Frame(ix.lfblk, ix.lfpos))
  {
    hide Ents, Blks, Unique, NodeOK, PathOK, StackOn, Rest, RestAt, Remaining, KidOK;
    PathNode(s, ix.scroot, ix.height, front);
    NodeKids(s, ix.lfblk, ix.height - |front|);
    if |front| > 0 {
      KidType(s, ix.lfblk, ix.height - |front|);
    }
    SelfLeft(s, ix.height, front, Frame(ix.lfblk, ix.lfpos));
  }

  lemma MakeListing(ix: Index, s: Store, front: seq<Frame>, rem: seq<int>)
    requires ix.lfblk == ZNULL ==> rem == []
    requires ix.lfblk != ZNULL ==>
      && TreeOK(s, ix.scroot, ix.height)
      && PathOK(s, ix.scroot, ix.height, front) && |front| <= ix.height
      && ix.lfblk == Target(s, ix.scroot, front) && ix.lfpos >= 0
      && StackOn(ix.stk, front + [Frame(ix.lfblk, ix.lfpos)])
      && rem == Remaining(s, ix.height, front, Frame(ix.lfblk, ix.lfpos))
      && Clean(s, ix.store, rem)
    ensures Listing(ix, s, front, rem)
  {
    hide Blks, Unique, NodeOK, PathOK, StackOn, Remaining;
  }

  /** What bleaf is going to look at has not been touched. */
  lemma CleanBelow(s: Store, now: Store, H: nat, front: seq<Frame>, f: Frame)
    requires |front| <= H && f.blk in s && 0 <= f.pos <= Count(s[f.blk])
    requires Clean(s, now, Remaining(s, H, front, f))
    ensures SeesBelow(s, now, H, front, f)
  {
    hide Blks, PostOf, Rest, Remaining, RestAt;
    SelfLeft(s, H, front, f);
    if |front| < H {
      forall x | x in Blks(s, Child(s, f), H - |front| - 1) && x in s
        ensures x in now && now[x] == s[x]
      {
        BelowLeft(s, H, front, f, x);
      }
    }
  }

  lemma SelfLeft(s: Store, H: nat, front: seq<Frame>, f: Frame)
    requires |front| <= H
    ensures f.blk in Remaining(s, H, front, f)
  {
    hide PostOf, Rest;
    var r := RestAt(s, f, H - |front|);
    assert r[|r| - 1] == f.blk && f.blk in r;
  }

  /** The blocks under the next child are among those left. */
  lemma BelowLeft(s: Store, H: nat, front: seq<Frame>, f: Frame, x: int)
    requires |front| < H && f.blk in s && 0 <= f.pos <= Count(s[f.blk]) && x in Blks(s, Child(s, f), H - |front| - 1)
    ensures x in Remaining(s, H, front, f)
  {
    hide Blks, PostOf, Rest, Post;
    var h := H - |front|;
    var ls := Links(s[f.blk])[f.pos..];
    PostOfFirst(s, ls, h - 1);
    PostBlocks(s, Child(s, f), h - 1);
    var p := Post(s, Child(s, f), h - 1);
    assert ls[0] == Child(s, f) && x in p;
    assert x in p + PostOf(s, ls[1..], h - 1);
    assert x in RestAt(s, f, h);
  }

  /** A block of the enumeration, with its place in the tree. */
  ghost predicate Given(s: Store, now: Store, root: int, H: nat, blk: int, depth: nat, size: nat) {
    && depth <= H && NodeOK(s, blk, H - depth) && size == 2 * depth && blk != ZNULL
    && blk in now && blk in s && now[blk] == s[blk]
    && (depth > 0 ==> KidOK(s, blk, H - depth)) && (depth == 0 ==> blk == root)
  }

  lemma MakeGiven(s: Store, now: Store, root: int, H: nat, front: seq<Frame>, blk: int)
    requires TreeOK(s, root, H) && PathOK(s, root, H, front) && |front| <= H && blk == Target(s, root, front)
    requires blk in now && blk in s && now[blk] == s[blk]
    ensures Given(s, now, root, H, blk, |front|, 2 * |front|)
  {
    assert ZNULL == -1;
    hide Ents, Blks, Unique, NodeOK, KidOK, PathOK;
    PathTarget(s, root, H, front);
    NodeKids(s, blk, H - |front|);
  }

  /** One block of the enumeration, or none when all have been given.  The first
      call is made with a null block. */
  method NextBlock(ix: Index, blk0: int, ghost s: Store, ghost front: seq<Frame>, ghost rem: seq<int>)
    returns (blk: int, ghost front': seq<Frame>, ghost rem': seq<int>, ghost depth: nat)
    requires Calm(ix)
    requires blk0 != ZNULL ==> Listing(ix, s, front, rem)
    requires blk0 == ZNULL ==>
               TreeOK(s, ix.scroot, ix.height) && rem == Post(s, ix.scroot, ix.height) && Clean(s, ix.store, rem)
    modifies ix`stk, ix`lfblk, ix`lfpos
    ensures Listing(ix, s, front', rem')
    ensures if rem == [] then blk == blk0 && rem' == []
            else rem == [blk] + rem' && Given(s, ix.store, ix.scroot, ix.height, blk, depth, |ix.stk|)
  {
    assert ZNULL == -1;
    hide *;
    blk, front', rem', depth := blk0, front, rem, 0;
    if blk == ZNULL {
      front' := StartList(ix, s, rem);
    }
    var done := false;
    while ix.lfblk >= 0 && !done
      invariant Calm(ix)
      invariant !done ==> Listing(ix, s, front', rem) && blk == blk0
      invariant done ==> Listing(ix, s, front', rem') && rem == [blk] + rem'
                         && Given(s, ix.store, ix.scroot, ix.height, blk, depth, |ix.stk|)
      decreases Passes(ix, s, done)
    {
      ghost var more;
      done, front', more, depth, blk := NextPass(ix, blk, s, front', rem);
      rem' := if done then more else rem';
    }
    if !done {
      ListingOver(ix, s, front', rem);
      rem' := rem;
    }
  }

  /** Passes left until a block is given. */
  ghost function Passes(ix: Index, s: Store, done: bool): nat
    reads ix`lfblk, ix`lfpos
  {
    if ix.lfblk < 0 || done then 0 else if ix.lfblk in s && ix.lfpos <= s[ix.lfblk].nkeys then 2 else 1
  }

  lemma PassesIs(ix: Index, s: Store, done: bool)
    ensures Passes(ix, s, done) == if ix.lfblk < 0 || done then 0
                                   else if ix.lfblk in s && ix.lfpos <= s[ix.lfblk].nkeys then 2 else 1
  {
  }

  /** One pass of bnxtbk's loop: the block is given and its parent is next, or the
      search goes down to the first leaf ahead. */
  method NextPass(ix: Index, blk0: int, ghost s: Store, ghost front: seq<Frame>, ghost rem: seq<int>)
    returns (done: bool, ghost front': seq<Frame>, ghost rem': seq<int>, ghost depth: nat, blk: int)
    requires Calm(ix) && Listing(ix, s, front, rem) && ix.lfblk >= 0
    modifies ix`stk, ix`lfblk, ix`lfpos
    ensures Calm(ix) && Passes(ix, s, done) < old(Passes(ix, s, false))
    ensures !done ==> Listing(ix, s, front', rem) && blk == blk0
    ensures done ==> Listing(ix, s, front', rem') && rem == [blk] + rem'
                     && Given(s, ix.store, ix.scroot, ix.height, blk, depth, |ix.stk|)
  {
    assert ZNULL == -1;
    hide *;
    CalmIs(ix);
    PassesIs(ix, s, false);
    ListingFacts(ix, s, front, rem);
    var b := Read(ix, ix.lfblk);
    blk, rem', depth := blk0, rem, |front|;
    done := ix.lfpos > b.nkeys;
    if done {
      blk := ix.lfblk;
      MakeGiven(s, ix.store, ix.scroot, ix.height, front, blk);
      front', rem' := Yield(ix, s, front, rem);
    } else {
      front' := ToLeaf(ix, s, front, rem);
      FinishLeaf(ix, s, front', rem);
    }
    PassesIs(ix, s, done);
    CalmIs(ix);
  }

  lemma ListingOver(ix: Index, s: Store, front: seq<Frame>, rem: seq<int>)
    requires Listing(ix, s, front, rem) && ix.lfblk < 0
    ensures rem == []
  {
    hide *;
    if ix.lfblk != ZNULL {
      ListingFacts(ix, s, front, rem);
    } else {
      ListingNull(ix, s, front, rem);
    }
  }

  /** When nothing remains the context has left the tree. */
  lemma ListingDone(ix: Index, s: Store, front: seq<Frame>)
    requires Listing(ix, s, front, [])
    ensures ix.lfblk == ZNULL
  {
    hide *;
    if ix.lfblk != ZNULL {
      ListingFacts(ix, s, front, []);
    }
  }

  lemma ListingNull(ix: Index, s: Store, front: seq<Frame>, rem: seq<int>)
    requires Listing(ix, s, front, rem) && ix.lfblk == ZNULL
    ensures rem == []
  {
  }

  /** The first call: at the leftmost leaf. */
  method StartList(ix: Index, ghost s: Store, ghost rem: seq<int>) returns (ghost front: seq<Frame>)
    requires Calm(ix)
    requires TreeOK(s, ix.scroot, ix.height)
    requires rem == Post(s, ix.scroot, ix.height) && Clean(s, ix.store, rem)
    modifies ix`stk, ix`lfblk, ix`lfpos
    ensures Listing(ix, s, front, rem)
  {
    assert ZNULL == -1;
    hide *;
    ix.stk := [];
    Push(ix, -1);
    Push(ix, -1);
    ix.lfblk := ix.scroot;
    ix.lfpos := 0;
    RootStack(ix.stk, Frame(ix.lfblk, ix.lfpos));
    NodeKids(s, ix.scroot, ix.height);
    PathNil(s, ix.scroot, ix.height, []);
    PostAt(s, ix.scroot, ix.height);
    RemainingTop(s, ix.height, Frame(ix.scroot, 0));
    MakeListing(ix, s, [], rem);
    front := ToLeaf(ix, s, [], rem);
  }

  lemma RemainingTop(s: Store, H: nat, f: Frame)
    ensures Remaining(s, H, [], f) == RestAt(s, f, H)
  {
  }

  lemma RootStack(stk: seq<int>, f: Frame)
    requires stk == [] + [-1] + [-1]
    ensures StackOn(stk, [] + [f])
  {
    var all := [NOWHERE] + ([] + [f]);
    assert all[..1] == [NOWHERE];
    assert [NOWHERE][..0] == [];
    assert Flat([NOWHERE]) == Flat([]) + [ZNULL] + [ZNULL];
  }

  /** bleaf, from a position of the enumeration. */
  method ToLeaf(ix: Index, ghost s: Store, ghost front: seq<Frame>, ghost rem: seq<int>)
    returns (ghost front': seq<Frame>)
    requires Calm(ix)
    requires Listing(ix, s, front, rem) && ix.lfblk != ZNULL && ix.lfblk in s && ix.lfpos <= s[ix.lfblk].nkeys
    modifies ix`stk, ix`lfblk, ix`lfpos
    ensures Listing(ix, s, front', rem) && ix.lfblk != ZNULL && |front'| == ix.height
  {
    hide *;
    ListingFacts(ix, s, front, rem);
    ghost var root, H, f := ix.scroot, ix.height, Frame(ix.lfblk, ix.lfpos);
    CleanBelow(s, ix.store, H, front, f);
    OnPathLast(ix.stk, front, f);
    front' := GoLeaf(ix, 0, front, s);
    if |front| < H {
      ghost var f' := Frame(ix.lfblk, ix.lfpos);
      RemainingLeaf(s, root, H, front, f, front', f');
      AtPosIs(s, root, H, front', f');
      AtPosFacts(s, root, H, front', f');
      OnPathStack(ix.stk, ix.lfblk, ix.lfpos, front' + [f']);
      PathTarget(s, root, H, front');
      NodeKids(s, f'.blk, H - |front'|);
    }
    NotNull(ix.lfblk);
    MakeListing(ix, s, front', rem);
  }

  lemma NotNull(b: int)
    ensures 0 <= b ==> b != ZNULL
  {
  }

  /** A leaf is finished at once. */
  method FinishLeaf(ix: Index, ghost s: Store, ghost front: seq<Frame>, ghost rem: seq<int>)
    requires Calm(ix)
    requires Listing(ix, s, front, rem) && ix.lfblk != ZNULL && |front| == ix.height
    modifies ix`lfpos
    ensures Listing(ix, s, front, rem) && ix.lfblk in s && ix.lfpos > s[ix.lfblk].nkeys
  {
    hide *;
    ListingFacts(ix, s, front, rem);
    ghost var f := Frame(ix.lfblk, ix.lfpos);
    var b := Read(ix, ix.lfblk);
    ix.lfpos := b.nkeys;
    ix.lfpos := ix.lfpos + 2;
    StackTop(ix.stk, front, f, Frame(ix.lfblk, ix.lfpos));
    LeafRest(s, ix.height, front, f, ix.lfpos);
    MakeListing(ix, s, front, rem);
  }

  lemma LeafRest(s: Store, H: nat, front: seq<Frame>, f: Frame, pos: int)
    requires |front| == H
    ensures Remaining(s, H, front, Frame(f.blk, pos)) == Remaining(s, H, front, f)
  {
  }

  /** A finished block is given, and its parent is next. */
  method Yield(ix: Index, ghost s: Store, ghost front: seq<Frame>, ghost rem: seq<int>)
    returns (ghost up: seq<Frame>, ghost rem': seq<int>)
    requires Listing(ix, s, front, rem) && ix.lfblk != ZNULL && ix.lfblk in s && ix.lfpos > s[ix.lfblk].nkeys
    modifies ix`stk, ix`lfblk, ix`lfpos
    ensures rem == [old(ix.lfblk)] + rem' && Listing(ix, s, up, rem') && |ix.stk| == 2 * |front|
  {
    hide *;
    ListingFacts(ix, s, front, rem);
    ghost var H, f := ix.height, Frame(ix.lfblk, ix.lfpos);
    up := if |front| > 0 then front[..|front| - 1] else [];
    rem' := Rest(s, H, front);
    BlockDone(s, H, front, f);
    CleanRest(s, ix.store, f.blk, rem, rem');
    PullAfter(ix, front);
    Above(ix, s, front, rem');
  }

  /** Pulling a frame and moving on to its next child. */
  method PullAfter(ix: Index, ghost front: seq<Frame>)
    requires StackOn(ix.stk, front + [Frame(ix.lfblk, ix.lfpos)])
    modifies ix`stk, ix`lfblk, ix`lfpos
    ensures |ix.stk| == 2 * |front| && StackOn(ix.stk, front)
    ensures |front| > 0 ==> front[|front| - 1] == Frame(ix.lfblk, ix.lfpos - 1)
    ensures |front| == 0 ==> ix.lfblk == ZNULL
  {
    hide *;
    ghost var fs := front + [Frame(ix.lfblk, ix.lfpos)];
    PullFrame(ix, fs);
    assert fs[..|fs| - 1] == front;
    OnPathStack(ix.stk, ix.lfblk, ix.lfpos, front);
    StackSize(ix.stk, front);
    ix.lfpos := ix.lfpos + 1;
  }

  lemma TreeNode(s: Store, root: int, H: nat)
    requires TreeOK(s, root, H)
    ensures NodeOK(s, root, H) && Unique(Blks(s, root, H)) && root in s && 0 <= root
  {
    NodeKids(s, root, H);
  }

  lemma Above(ix: Index, s: Store, front: seq<Frame>, rem: seq<int>)
    requires TreeOK(s, ix.scroot, ix.height) && PathOK(s, ix.scroot, ix.height, front) && |front| <= ix.height
    requires StackOn(ix.stk, front) && rem == Rest(s, ix.height, front) && Clean(s, ix.store, rem)
    requires |front| > 0 ==> front[|front| - 1] == Frame(ix.lfblk, ix.lfpos - 1)
    requires |front| == 0 ==> ix.lfblk == ZNULL
    ensures Listing(ix, s, if |front| > 0 then front[..|front| - 1] else [], rem)
  {
    hide *;
    if |front| > 0 {
      var up, g := front[..|front| - 1], front[|front| - 1];
      PathStep(s, ix.scroot, ix.height, front);
      assert front == up + [g];
      StackTop(ix.stk, up, g, Frame(ix.lfblk, ix.lfpos));
      RestUp(s, ix.height, front);
      TreeNode(s, ix.scroot, ix.height);
      PathTarget(s, ix.scroot, ix.height, up);
      NodeKids(s, g.blk, ix.height - |up|);
      NotNull(g.blk);
      MakeListing(ix, s, up, rem);
    } else {
      RestNone(s, ix.height, front);
      MakeListing(ix, s, [], rem);
    }
  }

  lemma BlockDone(s: Store, H: nat, front: seq<Frame>, f: Frame)
    requires |front| <= H && f.blk in s && f.pos > Count(s[f.blk])
    ensures Remaining(s, H, front, f) == [f.blk] + Rest(s, H, front)
  {
  }

  lemma CleanRest(s: Store, now: Store, b: int, rem: seq<int>, rem': seq<int>)
    requires Clean(s, now, rem) && rem == [b] + rem'
    ensures Clean(s, now, rem')
  {
    assert forall x :: x in rem' ==> x in rem;
  }

  lemma StackSize(stk: seq<int>, fs: seq<Frame>)
    requires StackOn(stk, fs)
    ensures |stk| == 2 * |fs|
  {
  }

  lemma RestUp(s: Store, H: nat, fs: seq<Frame>)
    requires 0 < |fs| <= H
    ensures var g := fs[|fs| - 1];
            Rest(s, H, fs) == Remaining(s, H, fs[..|fs| - 1], Frame(g.blk, g.pos + 1))
  {
  }

  lemma RestNone(s: Store, H: nat, fs: seq<Frame>)
    requires |fs| == 0
    ensures Rest(s, H, fs) == []
  {
  }

  // ---------------------------------------------------------------------
  // btkeys
  // ---------------------------------------------------------------------

  ghost function KeysIn(s: Store, bs: seq<int>): nat {
    if |bs| == 0 then 0 else KeysIn(s, bs[..|bs| - 1]) + if bs[|bs| - 1] in s then Count(s[bs[|bs| - 1]]) else 0
  }

  lemma {:induction false} KeysInConcat(s: Store, a: seq<int>, b: seq<int>)
    ensures KeysIn(s, a + b) == KeysIn(s, a) + KeysIn(s, b)
    decreases |b|
  {
    if |b| == 0 {
      assert a + b == a;
    } else {
      KeysInConcat(s, a, b[..|b| - 1]);
      assert (a + b)[..|a + b| - 1] == a + b[..|b| - 1];
    }
  }

  lemma KeysInOne(s: Store, b: int)
    requires b in s
    ensures KeysIn(s, [b]) == Count(s[b])
  {
    assert [b][..0] == [];
  }

  /** The blocks of a node hold its entries. */
  lemma {:induction false} NodeSize(s: Store, b: int, h: nat)
    requires NodeOK(s, b, h)
    ensures KeysIn(s, Post(s, b, h)) == |Ents(s, b, h)|
    decreases h, 1, 0
  {
    hide *;
    NodeKids(s, b, h);
    PostNode(s, b, h);
    EntsNode(s, b, h);
    KeysInOne(s, b);
    CountKeys(s[b]);
    if h > 0 {
      KidsSize(s, Keys(s[b]), Links(s[b]), h);
      KeysInConcat(s, PostOf(s, Links(s[b]), h - 1), [b]);
    }
  }

  lemma {:induction false} KidsSize(s: Store, ks: seq<Entry>, ls: seq<int>, h: nat)
    requires h > 0 && |ls| == |ks| + 1 && KidsOK(s, ls, h - 1)
    ensures KeysIn(s, PostOf(s, ls, h - 1)) + |ks| == |Between(s, ks, ls, h)|
    decreases h, 0, |ls|
  {
    hide *;
    KidAt0(s, ls, h - 1);
    PostOfFirst(s, ls, h - 1);
    KeysInConcat(s, Post(s, ls[0], h - 1), PostOf(s, ls[1..], h - 1));
    NodeSize(s, ls[0], h - 1);
    BetweenOne(s, ls[0], h);
    if |ks| == 0 {
      PostOfNone(s, h - 1);
      assert ls[1..] == [] && ks == [] && ls == [ls[0]];
      KeysInNone(s);
    } else {
      KidsSize(s, ks[1..], ls[1..], h);
      BetweenConcat(s, [], [ls[0]], ks[0], ks[1..], ls[1..], h);
      assert ks == [] + [ks[0]] + ks[1..] && ls == [ls[0]] + ls[1..];
    }
  }

  lemma KidAt0(s: Store, ls: seq<int>, h: nat)
    requires KidsOK(s, ls, h) && |ls| > 0
    ensures NodeOK(s, ls[0], h) && KidsOK(s, ls[1..], h)
  {
    hide NodeOK;
    assert KidOK(s, ls[0], h);
    assert forall i :: 0 <= i < |ls| - 1 ==> ls[1..][i] == ls[i + 1];
  }

  lemma KeysInNone(s: Store)
    ensures KeysIn(s, []) == 0
  {
  }

  lemma {:induction false} MapSize(es: seq<Entry>)
    requires Sorted(es)
    ensures |ToMap(es)| == |es|
  {
    if |es| > 0 {
      MapSize(es[..|es| - 1]);
      FrontMap(es);
      var m, k, v := ToMap(es[..|es| - 1]), es[|es| - 1].key, es[|es| - 1].val;
      assert m[k := v].Keys == m.Keys + {k};
      assert |m[k := v]| == |m[k := v].Keys|;
    }
  }

  /** In an enumeration without repetition the last block comes last. */
  lemma LastOnce(done: seq<int>, b: int, rem: seq<int>, all: seq<int>, root: int)
    requires all == done + ([b] + rem) && |all| > 0 && all[|all| - 1] == root
    requires forall x :: multiset(all)[x] <= 1
    ensures b == root <==> rem == []
    ensures b !in rem && b !in done
  {
    assert multiset(all) == multiset(done) + multiset{b} + multiset(rem);
    assert multiset(all)[b] <= 1;
    assert rem != [] ==> all[|all| - 1] == rem[|rem| - 1];
  }

  /** What btkeys sees in one block of a whole tree. */
  lemma BlockSeen(s: Store, now: Store, root: int, H: nat, blk: int, depth: nat, size: nat)
    requires Given(s, now, root, H, blk, depth, size) && root in s && s[root].btype == ZROOT
    ensures blk in now && blk in s && now[blk] == s[blk] && 0 <= s[blk].nkeys <= ZMXKEY && Count(s[blk]) == s[blk].nkeys
    ensures size == 2 * depth && depth <= H && blk != ZNULL
    ensures s[blk].nkeys == 0 ==> depth == 0 && s[blk].btype == ZROOT
    ensures |Links(s[blk])| == s[blk].nkeys + 1
    ensures s[blk].nkeys > 0 ==> (Links(s[blk])[0] == ZNULL <==> depth == H)
  {
    hide Ents, Blks, Unique, NodeOK, KidOK, PathOK;
    NodeKids(s, blk, H - depth);
    CountKeys(s[blk]);
    if depth > 0 {
      KidType(s, blk, H - depth);
    }
    if depth < H {
      FirstChild(s, blk, H - depth);
    }
  }

  lemma FirstChild(s: Store, b: int, h: nat)
    requires h > 0 && NodeOK(s, b, h)
    ensures b in s && |Links(s[b])| > 0 && Links(s[b])[0] != ZNULL
  {
    assert KidOK(s, Links(s[b])[0], h - 1);
    KidNode(s, Links(s[b])[0], h - 1);
  }

  /** btkeys on a whole tree without duplicates: the number of keys in its map.
      The counts per level that it prints are left out. */
  method KeyCount(ix: Index) returns (n: int)
    requires Calm(ix)
    requires ix.Valid()
    modifies ix`stk, ix`lfblk, ix`lfpos
    ensures n == |ix.Contents()| && ix.lfblk == ZNULL
  {
    hide *;
    ghost var s, root, H := ix.store, ix.scroot, ix.height;
    ghost var front, rem, d := [], Post(s, root, H), 0;
    ghost var all, done := rem, [];
    CountStart(ix, all);
    var tnkeys, blkno, emptyBlk := 0, ZNULL, ZNULL;
    var leafDepth, balanced := -1, true;
    blkno, front, rem, d := NextBlock(ix, blkno, s, front, rem);
    tnkeys, emptyBlk, leafDepth, balanced := Tally(ix, blkno, tnkeys, emptyBlk, leafDepth, balanced, s, d);
    CountBlock(s, all, done, blkno, rem);
    done := done + [blkno];
    while blkno != ix.scroot
      invariant Listing(ix, s, front, rem) && all == done + rem && ix.store == s
      invariant blkno != ZNULL && emptyBlk == ZNULL && balanced && (leafDepth == -1 || leafDepth == H)
      invariant tnkeys == KeysIn(s, done)
      invariant blkno == root <==> rem == []
      decreases |rem|
    {
      blkno, front, rem, d := NextBlock(ix, blkno, s, front, rem);
      tnkeys, emptyBlk, leafDepth, balanced := Tally(ix, blkno, tnkeys, emptyBlk, leafDepth, balanced, s, d);
      CountBlock(s, all, done, blkno, rem);
      done := done + [blkno];
    }
    ListingDone(ix, s, front);
    CountEnd(ix, all, done);
    n := if emptyBlk != ZNULL || !balanced then ZNULL else tnkeys;
  }

  /** The body of the loop of btkeys. */
  method Tally(ix: Index, blkno: int, tnkeys: int, emptyBlk: int, leafDepth: int, balanced: bool, ghost s: Store,
               ghost d: nat)
    returns (tnkeys': int, emptyBlk': int, leafDepth': int, balanced': bool)
    requires Calm(ix)
    requires TreeOK(s, ix.scroot, ix.height) && Given(s, ix.store, ix.scroot, ix.height, blkno, d, |ix.stk|)
    requires emptyBlk == ZNULL && balanced && (leafDepth == -1 || leafDepth == ix.height)
    ensures blkno in s && tnkeys' == tnkeys + Count(s[blkno]) && blkno != ZNULL
    ensures emptyBlk' == ZNULL && balanced' && (leafDepth' == -1 || leafDepth' == ix.height)
  {
    hide *;
    TreeType(s, ix.scroot, ix.height);
    BlockSeen(s, ix.store, ix.scroot, ix.height, blkno, d, |ix.stk|);
    tnkeys', emptyBlk', leafDepth', balanced' := tnkeys, emptyBlk, leafDepth, balanced;
    var depth := |ix.stk| / 2;
    var b := Read(ix, blkno);
    var nkeys := b.nkeys;
    if nkeys == 0 && emptyBlk == ZNULL {
      if b.btype != ZROOT {
        emptyBlk' := blkno;
      }
    } else {
      var e, link1, link2, result := Fetch(ix, blkno, 0);
      if link1 == ZNULL {
        if leafDepth < 0 {
          leafDepth' := depth;
        } else if leafDepth != depth {
          balanced' := false;
          if depth > leafDepth {
            leafDepth' := depth;
          }
        }
      }
      tnkeys' := tnkeys + nkeys;
    }
  }

  lemma TreeType(s: Store, root: int, H: nat)
    requires TreeOK(s, root, H)
    ensures root in s && s[root].btype == ZROOT
  {
  }

  lemma CountStart(ix: Index, all: seq<int>)
    requires ix.Valid() && all == Post(ix.store, ix.scroot, ix.height)
    ensures TreeOK(ix.store, ix.scroot, ix.height) && Clean(ix.store, ix.store, all)
    ensures |all| > 0 && all[|all| - 1] == ix.scroot && (forall x :: multiset(all)[x] <= 1)
    ensures KeysIn(ix.store, []) == 0 && all == [] + all
  {
    hide Post, Blks;
    PostBlocks(ix.store, ix.scroot, ix.height);
    PostEnd(ix.store, ix.scroot, ix.height);
  }

  lemma CountBlock(s: Store, all: seq<int>, done: seq<int>, b: int, rem: seq<int>)
    requires all == done + ([b] + rem) && b in s && |all| > 0
    requires forall x :: multiset(all)[x] <= 1
    ensures all == (done + [b]) + rem && KeysIn(s, done + [b]) == KeysIn(s, done) + Count(s[b])
    ensures b == all[|all| - 1] <==> rem == []
  {
    KeysInConcat(s, done, [b]);
    KeysInOne(s, b);
    LastOnce(done, b, rem, all, all[|all| - 1]);
  }

  lemma CountEnd(ix: Index, all: seq<int>, done: seq<int>)
    requires ix.Valid() && all == Post(ix.store, ix.scroot, ix.height) && all == done + []
    ensures KeysIn(ix.store, done) == |ix.Contents()|
  {
    assert done == all;
    NodeSize(ix.store, ix.scroot, ix.height);
    MapSize(ix.Entries());
  }

  // ---------------------------------------------------------------------
  // btdelr: freeing a tree
  // ---------------------------------------------------------------------

  ghost function Reverse(bs: seq<int>): seq<int> {
    if |bs| == 0 then [] else [bs[|bs| - 1]] + Reverse(bs[..|bs| - 1])
  }

  lemma ReverseMore(bs: seq<int>, b: int)
    ensures Reverse(bs + [b]) == [b] + Reverse(bs)
  {
    assert (bs + [b])[..|bs|] == bs;
  }

  lemma {:induction false} ReverseBlocks(bs: seq<int>)
    ensures multiset(Reverse(bs)) == multiset(bs)
  {
    if |bs| > 0 {
      var n := |bs| - 1;
      ReverseBlocks(bs[..n]);
      MultisetConcat([bs[n]], Reverse(bs[..n]));
      MultisetConcat(bs[..n], [bs[n]]);
      Unlast(bs);
    }
  }

  /** Freeing in progress: the blocks done are on the free list, last one first,
      and every other block is as it was. */
  ghost predicate Freeing(ix: Index, s: Store, all: seq<int>, done: seq<int>, free: seq<int>)
    reads ix`store, ix`sblkmx, ix`snfree, ix`sfreep, ix`free, ix`rest
  {
    && AllocOK(ix.store, ix.sblkmx, ix.sfreep, ix.snfree, ix.free, multiset(all) - multiset(done) + multiset(ix.rest))
    && ix.free == Reverse(done) + free
    && (forall x :: x in s && x !in done ==> x in ix.store && ix.store[x] == s[x])
    && (forall x :: (multiset(all) + multiset(ix.rest))[x] <= 1)
    && (forall x :: x in ix.rest ==> x in s)
  }

  lemma FreeStart(ix: Index, all: seq<int>)
    requires ix.Valid() && all == Post(ix.store, ix.scroot, ix.height)
    ensures TreeOK(ix.store, ix.scroot, ix.height) && Clean(ix.store, ix.store, all)
    ensures |all| > 0 && all[|all| - 1] == ix.scroot && (forall x :: multiset(all)[x] <= 1)
    ensures all == [] + all
    ensures Freeing(ix, ix.store, all, [], ix.free)
  {
    hide Post, Blks;
    CountStart(ix, all);
    PostBlocks(ix.store, ix.scroot, ix.height);
    assert multiset(all) - multiset([]) == multiset(all);
    assert Reverse([]) + ix.free == ix.free;
    RestThere(ix);
    forall x
      ensures (multiset(all) + multiset(ix.rest))[x] <= 1
    {
      assert (multiset(all) + multiset(ix.rest) + multiset(ix.free))[x] == multiset(ix.store.Keys)[x];
    }
  }

  lemma GivenOpen(s: Store, now: Store, root: int, H: nat, blk: int, depth: nat, size: nat)
    requires Given(s, now, root, H, blk, depth, size)
    ensures blk in s && blk != ZNULL
  {
  }

  /** The next block goes to the free list; the rest of the enumeration is not
      touched by that. */
  method FreeOne(ix: Index, blk: int, ghost s: Store, ghost all: seq<int>, ghost done: seq<int>, ghost rem: seq<int>,
                 ghost front: seq<Frame>, ghost free: seq<int>)
    requires Calm(ix)
    requires Freeing(ix, s, all, done, free) && Listing(ix, s, front, rem) && all == (done + [blk]) + rem
    modifies ix`store, ix`snfree, ix`sfreep, ix`free
    ensures Freeing(ix, s, all, done + [blk], free) && Listing(ix, s, front, rem) && (rem == [] ==> ix.lfblk == ZNULL)
  {
    hide *;
    if rem == [] {
      ListingDone(ix, s, front);
    }
    ghost var used := multiset(all) - multiset(done) + multiset(ix.rest);
    FreeingNext(ix, s, all, done, rem, blk, free);
    ListingClean(ix, s, front, rem);
    ghost var now := ix.store;
    MakeFree(ix, blk, used);
    CleanKept(s, now, ix.store, rem, blk);
    FreedOne(ix, s, now, all, done, rem, blk, free);
    if ix.lfblk != ZNULL {
      MakeListing(ix, s, front, rem);
    } else {
      MakeListing(ix, s, front, []);
    }
  }

  lemma ListingClean(ix: Index, s: Store, front: seq<Frame>, rem: seq<int>)
    requires Listing(ix, s, front, rem)
    ensures Clean(s, ix.store, rem)
    ensures ix.lfblk == ZNULL ==> rem == []
    ensures ix.lfblk != ZNULL ==>
      && TreeOK(s, ix.scroot, ix.height)
      && PathOK(s, ix.scroot, ix.height, front) && |front| <= ix.height
      && ix.lfblk == Target(s, ix.scroot, front) && ix.lfpos >= 0
      && StackOn(ix.stk, front + [Frame(ix.lfblk, ix.lfpos)])
      && rem == Remaining(s, ix.height, front, Frame(ix.lfblk, ix.lfpos))
  {
    hide TreeOK, PathOK, Target, StackOn, Remaining;
  }

  lemma FreeingNext(ix: Index, s: Store, all: seq<int>, done: seq<int>, rem: seq<int>, blk: int, free: seq<int>)
    requires Freeing(ix, s, all, done, free) && all == (done + [blk]) + rem
    ensures AllocOK(ix.store, ix.sblkmx, ix.sfreep, ix.snfree, ix.free, multiset(all) - multiset(done) + multiset(ix.rest))
    ensures blk in multiset(all) - multiset(done) + multiset(ix.rest)
    ensures blk !in rem && blk !in done && blk !in ix.rest && ix.free == Reverse(done) + free
    ensures forall x :: x in s && x !in done ==> x in ix.store && ix.store[x] == s[x]
    ensures forall x :: (multiset(all) + multiset(ix.rest))[x] <= 1
    ensures forall x :: x in ix.rest ==> x in s
  {
    hide AllocOK, Reverse;
    assert multiset(all) == multiset(done) + multiset{blk} + multiset(rem);
    assert (multiset(all) + multiset(ix.rest))[blk] <= 1;
  }

  lemma CleanKept(s: Store, now: Store, now': Store, rem: seq<int>, blk: int)
    requires Clean(s, now, rem) && blk !in rem
    requires blk in now && forall x :: x != blk ==> (x in now ==> x in now' && now'[x] == now[x])
    ensures Clean(s, now', rem)
  {
  }

  lemma FreedOne(ix: Index, s: Store, now: Store, all: seq<int>, done: seq<int>, rem: seq<int>, blk: int,
                 free: seq<int>)
    requires all == (done + [blk]) + rem && blk !in done && blk !in ix.rest
    requires AllocOK(ix.store, ix.sblkmx, ix.sfreep, ix.snfree, ix.free,
                     multiset(all) - multiset(done) + multiset(ix.rest) - multiset{blk})
    requires ix.free == [blk] + (Reverse(done) + free)
    requires forall x :: x in s && x !in done ==> x in now && now[x] == s[x]
    requires forall x :: x != blk && x in now ==> x in ix.store && ix.store[x] == now[x]
    requires forall x :: (multiset(all) + multiset(ix.rest))[x] <= 1
    requires forall x :: x in ix.rest ==> x in s
    ensures Freeing(ix, s, all, done + [blk], free)
  {
    hide AllocOK, Reverse;
    ReverseMore(done, blk);
    Assoc([blk], Reverse(done), free);
    var m := multiset(all) - multiset(done) + multiset(ix.rest) - multiset{blk};
    forall x
      ensures m[x] == (multiset(all) - multiset(done + [blk]) + multiset(ix.rest))[x]
    {
      MultisetConcat(done, [blk]);
      MultisetConcat(done + [blk], rem);
    }
    assert m == multiset(all) - multiset(done + [blk]) + multiset(ix.rest);
  }

  /** The freeing of the index blocks in btdelr: all of the current root's tree
      goes to the free list, and nothing else changes. */
  method FreeTree(ix: Index)
    requires Calm(ix)
    requires ix.Valid()
    modifies ix`store, ix`snfree, ix`sfreep, ix`free, ix`stk, ix`lfblk, ix`lfpos
    ensures AllocOK(ix.store, ix.sblkmx, ix.sfreep, ix.snfree, ix.free, multiset(ix.rest))
    ensures ix.free == Reverse(old(Post(ix.store, ix.scroot, ix.height))) + old(ix.free)
    ensures multiset(ix.free) == old(Blks(ix.store, ix.scroot, ix.height)) + multiset(old(ix.free))
    ensures RestKept(old(ix.store), ix.store, ix.rest) && ix.lfblk == ZNULL
  {
    hide *;
    ghost var s, root, H, free := ix.store, ix.scroot, ix.height, ix.free;
    ghost var front, rem, d := [], Post(s, root, H), 0;
    ghost var all, done := rem, [];
    FreeStart(ix, all);
    PostBlocks(s, root, H);
    var blk := ZNULL;
    blk, front, rem, d := NextBlock(ix, blk, s, front, rem);
    GivenOpen(s, ix.store, root, H, blk, d, |ix.stk|);
    CountBlock(s, all, done, blk, rem);
    while blk != ix.scroot
      invariant Listing(ix, s, front, rem) && all == (done + [blk]) + rem
      invariant blk != ZNULL && (blk == root <==> rem == [])
      invariant Freeing(ix, s, all, done, free)
      decreases |rem|
    {
      FreeOne(ix, blk, s, all, done, rem, front, free);
      done := done + [blk];
      blk, front, rem, d := NextBlock(ix, blk, s, front, rem);
      GivenOpen(s, ix.store, root, H, blk, d, |ix.stk|);
      CountBlock(s, all, done, blk, rem);
    }
    FreeOne(ix, ix.scroot, s, all, done, rem, front, free);
    FreeEnd(ix, s, all, done + [root], free);
  }

  lemma FreeEnd(ix: Index, s: Store, all: seq<int>, done: seq<int>, free: seq<int>)
    requires Freeing(ix, s, all, done, free) && all == done + []
    ensures AllocOK(ix.store, ix.sblkmx, ix.sfreep, ix.snfree, ix.free, multiset(ix.rest))
    ensures ix.free == Reverse(all) + free && multiset(ix.free) == multiset(all) + multiset(free)
    ensures RestKept(s, ix.store, ix.rest)
  {
    hide AllocOK;
    assert done == all;
    assert multiset(all) - multiset(done) + multiset(ix.rest) == multiset(ix.rest);
    ReverseBlocks(all);
    MultisetConcat(Reverse(all), free);
    forall x | x in ix.rest
      ensures x !in all
    {
      assert (multiset(all) + multiset(ix.rest))[x] <= 1;
    }
  }
}
