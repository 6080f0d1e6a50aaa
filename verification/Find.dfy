/** bfndky: the descent that splits every full block it meets and looks at the
    parent again. */
module Find {
  import opened Constants
  import opened Blocks
  import opened Seqs
  import opened Trees
  import opened Paths
  import opened Orders
  import opened Context
  import opened Split
  import opened Routes
  import opened Promotions

  /** The search for key stands before block cblk, at the end of path fs:
      the tree is whole, still holds es, and key can only be below cblk. */
  ghost predicate Searching(s: Store, root: int, H: nat, es: seq<Entry>, fs: seq<Frame>, cblk: int, key: int) {
    && TreeOK(s, root, H) && Ents(s, root, H) == es && Sorted(es)
    && PathOK(s, root, H, fs) && |fs| <= H && cblk == Target(s, root, fs)
    && AllBelow(Lft(s, root, H, fs), key) && AllAbove(Rgt(s, root, H, fs), key)
  }

  /** No block on the path is full. */
  ghost predicate PathSlack(s: Store, fs: seq<Frame>) {
    forall i :: 0 <= i < |fs| ==> fs[i].blk in s && s[fs[i].blk].nkeys < ZMXKEY
  }

  /** Every non-leaf block of the tree, except perhaps one, has a free key slot. */
  ghost predicate SlackBut(s: Store, m: multiset<int>, but: int) {
    forall x :: x in m && x in s && s[x].link[0] != ZNULL && x != but ==> s[x].nkeys < ZMXKEY
  }

  /** The block a search stands at, seen from the whole tree. */
  lemma SearchBlockOK(s: Store, root: int, H: nat, es: seq<Entry>, fs: seq<Frame>, cblk: int, key: int)
    requires Searching(s, root, H, es, fs, cblk, key)
    ensures var h := H - |fs|;
            && NodeOK(s, cblk, h) && cblk in s && cblk != ZNULL && 0 <= s[cblk].nkeys <= ZMXKEY
            && Count(s[cblk]) == s[cblk].nkeys
            && (|fs| > 0 ==> KidOK(s, cblk, h) && s[cblk].btype == ZINUSE && s[cblk].nkeys >= 1)
            && (h > 0 ==> s[cblk].nkeys >= 1)
            && cblk in Blks(s, root, H) && Blks(s, cblk, h) <= Blks(s, root, H) && Unique(Blks(s, cblk, h))
            && es == Lft(s, root, H, fs) + Ents(s, cblk, h) + Rgt(s, root, H, fs)
            && Sorted(Ents(s, cblk, h)) && Sorted(Keys(s[cblk]))
  {
    hide Ents, Blks, Sorted, PathOK, Lft, Rgt, NodeOK, KidOK, AllBelow, AllAbove, Unique;
    var h := H - |fs|;
    PathTarget(s, root, H, fs);
    NodeKids(s, cblk, h);
    BlksNode(s, cblk, h);
    if |fs| > 0 {
      KidType(s, cblk, h);
    }
    UniquePart(Blks(s, cblk, h), Blks(s, root, H));
    SortedThree(Lft(s, root, H, fs), Ents(s, cblk, h), Rgt(s, root, H, fs));
    EntsNode(s, cblk, h);
    KeysSorted(s, Keys(s[cblk]), Links(s[cblk]), h);
  }

  lemma SearchKeys(s: Store, root: int, H: nat, es: seq<Entry>, fs: seq<Frame>, cblk: int, key: int)
    requires Searching(s, root, H, es, fs, cblk, key)
    ensures cblk in s && 0 <= s[cblk].nkeys <= ZMXKEY && Sorted(Keys(s[cblk]))
  {
    hide *;
    SearchBlockOK(s, root, H, es, fs, cblk, key);
  }

  lemma UniquePart(a: multiset<int>, b: multiset<int>)
    requires a <= b && Unique(b)
    ensures Unique(a)
  {
    forall x
      ensures a[x] <= 1
    {
      assert a[x] <= b[x];
    }
  }

  /** Splitting the root and searching it again. */
  lemma RootSplitStep(s: Store, s': Store, root: int, H: nat, es: seq<Entry>, key: int, a: int, b: int)
    requires Searching(s, root, H, es, [], root, key)
    requires RootSplitResult(s, s', root, a, b)
    requires a !in Blks(s, root, H) && b !in Blks(s, root, H)
    ensures Searching(s', root, H + 1, es, [], root, key)
    ensures Blks(s', root, H + 1) == Blks(s, root, H) + multiset{a} + multiset{b}
  {
    hide Ents, Blks, Sorted, Halves, Keys, Links, NodeOK, Unique;
    GrowRoot(s, s', root, H, a, b, ZMXKEY / 2);
  }

  /** Splitting the block at hand and searching its parent again. */
  lemma SplitStep(s: Store, s': Store, root: int, H: nat, es: seq<Entry>, fs: seq<Frame>, c: int, key: int, n: int)
    requires |fs| > 0 && Searching(s, root, H, es, fs, c, key)
    requires SplitResult(s, s', fs[|fs| - 1].blk, c, n) && n !in Blks(s, root, H)
    ensures var front, p := fs[..|fs| - 1], fs[|fs| - 1].blk;
            Searching(s', root, H, es, front, p, key)
    ensures Blks(s', root, H) == Blks(s, root, H) + multiset{n}
  {
    hide *;
    var front, f := fs[..|fs| - 1], fs[|fs| - 1];
    var hp := H - |front|;
    ParentFacts(s, root, H, es, fs, c, key);
    NotIn(n, Blks(s, f.blk, hp), Blks(s, root, H));
    SplitResultFacts(s, s', f.blk, c, n);
    SplitChild(s, s', f, hp, n);
    SplitOff(s, s', root, H, f.blk, c, n, Blks(s, f.blk, hp));
    Plug(s, s', root, H, front);
    GraftBlks(Blks(s, root, H), Blks(s', root, H), Blks(s, f.blk, hp), Blks(s', f.blk, hp), n);
    SplitTree(s, s', root, H, front, f.blk, hp, n);
    PathTarget(s', root, H, front);
    MakeSearching(s', root, H, es, front, f.blk, key);
  }

  /** A search path seen from its last frame. */
  lemma ParentFacts(s: Store, root: int, H: nat, es: seq<Entry>, fs: seq<Frame>, c: int, key: int)
    requires |fs| > 0 && Searching(s, root, H, es, fs, c, key)
    ensures var front, f := fs[..|fs| - 1], fs[|fs| - 1];
            var hp := H - |front|;
            && |front| < H && hp > 0
            && Searching(s, root, H, es, front, f.blk, key)
            && Child(s, f) == c && NodeOK(s, f.blk, hp) && f.blk in s && 0 <= f.pos <= s[f.blk].nkeys && 0 < s[f.blk].nkeys
            && (|front| > 0 ==> KidOK(s, f.blk, hp))
            && Unique(Blks(s, f.blk, hp)) && Sorted(Ents(s, f.blk, hp))
            && Blks(s, f.blk, hp) <= Blks(s, root, H)
            && f.blk in Blks(s, f.blk, hp) && c in Blks(s, f.blk, hp)
            && c != f.blk
            && PathOK(s, root, H, front) && Target(s, root, front) == f.blk
            && es == Lft(s, root, H, front) + Ents(s, f.blk, hp) + Rgt(s, root, H, front)
            && AllBelow(Lft(s, root, H, front), key) && AllAbove(Rgt(s, root, H, front), key)
            && NodeOK(s, root, H) && Unique(Blks(s, root, H)) && TreeOK(s, root, H)
            && Sorted(es)
  {
    hide *;
    var front, f := fs[..|fs| - 1], fs[|fs| - 1];
    var hp := H - |front|;
    SearchParent(s, root, H, es, fs, c, key);
    SearchFacts(s, root, H, es, front, f.blk, key);
    SearchBlockOK(s, root, H, es, front, f.blk, key);
    NodeParts(s, f, hp);
    BlksNode(s, f.blk, hp);
    BlksNode(s, c, hp - 1);
    ChildNotSelf(f.blk, c, Blks(s, f.blk, hp), Blks(s, c, hp - 1));
  }

  /** Going back one frame, the key is still ahead. */
  lemma SearchParent(s: Store, root: int, H: nat, es: seq<Entry>, fs: seq<Frame>, c: int, key: int)
    requires |fs| > 0 && Searching(s, root, H, es, fs, c, key)
    ensures var front, f := fs[..|fs| - 1], fs[|fs| - 1];
            && |front| < H
            && Searching(s, root, H, es, front, f.blk, key)
            && Child(s, f) == c && f.blk in s && 0 <= f.pos <= Count(s[f.blk]) && c in s
  {
    hide Ents, Sorted, Lft, Rgt, AllBelow, AllAbove, TreeOK, PathOK, Target;
    var front, f := fs[..|fs| - 1], fs[|fs| - 1];
    PathStep(s, root, H, fs);
    BelowConcat(Lft(s, root, H, front), PreAt(s, f, H - |fs| + 1), key);
    BelowConcat(SufAt(s, f, H - |fs| + 1), Rgt(s, root, H, front), key);
    SearchBlockOK(s, root, H, es, fs, c, key);
  }

  lemma SearchFacts(s: Store, root: int, H: nat, es: seq<Entry>, fs: seq<Frame>, c: int, key: int)
    requires Searching(s, root, H, es, fs, c, key)
    ensures TreeOK(s, root, H) && Ents(s, root, H) == es && Sorted(es)
    ensures PathOK(s, root, H, fs) && |fs| <= H && c == Target(s, root, fs)
    ensures AllBelow(Lft(s, root, H, fs), key) && AllAbove(Rgt(s, root, H, fs), key)
    ensures NodeOK(s, root, H) && Unique(Blks(s, root, H)) && root in s && s[root].btype == ZROOT
  {
  }

  lemma ChildNotSelf(p: int, c: int, mp: multiset<int>, mc: multiset<int>)
    requires Unique(mp) && multiset{p} + mc <= mp && c in mc
    ensures p != c
  {
    assert (multiset{p} + mc)[p] <= mp[p] <= 1;
  }

  lemma NotIn(n: int, a: multiset<int>, b: multiset<int>)
    requires a <= b && n !in b
    ensures n !in a
  {
    assert a[n] <= b[n];
  }

  lemma SplitResultFacts(s: Store, s': Store, p: int, c: int, n: int)
    requires SplitResult(s, s', p, c, n)
    ensures p in s && p in s' && s'[p].btype == s[p].btype && c in s
    ensures forall x :: x in s && x != p && x != c && x != n ==> x in s' && s'[x] == s[x]
  {
  }

  lemma SplitOff(s: Store, s': Store, root: int, H: nat, p: int, c: int, n: int, below: multiset<int>)
    requires NodeOK(s, root, H) && n !in Blks(s, root, H)
    requires p in below && c in below
    requires forall x :: x in s && x != p && x != c && x != n ==> x in s' && s'[x] == s[x]
    ensures Off(s, s', Blks(s, root, H), below)
  {
    hide Blks, NodeOK;
    forall x | x in Blks(s, root, H) && x !in below
      ensures x in s && x in s' && s'[x] == s[x]
    {
      BlksAllocated(s, root, H, x);
    }
  }

  lemma GraftBlks(a: multiset<int>, a': multiset<int>, b: multiset<int>, b': multiset<int>, n: int)
    requires a' + b == a + b' && b' == b + multiset{n} && Unique(a) && n !in a
    ensures a' == a + multiset{n} && Unique(a')
  {
    assert a' + b == a + multiset{n} + b;
    Cancel(a', a + multiset{n}, b);
  }

  lemma SplitTree(s: Store, s': Store, root: int, H: nat, front: seq<Frame>, p: int, hp: nat, n: int)
    requires TreeOK(s, root, H) && H > 0
    requires PathOK(s', root, H, front) && Target(s', root, front) == p && Target(s, root, front) == p
    requires hp == H - |front|
    requires NodeOK(s', p, hp) && p in s && s'[p].nkeys == s[p].nkeys + 1 && s'[p].btype == s[p].btype
    requires |front| > 0 ==> KidOK(s, p, hp)
    requires |front| > 0 ==> root in s' && root in s && s'[root] == s[root]
    requires |front| > 0 && KidOK(s', p, hp) ==> NodeOK(s', root, H)
    requires Unique(Blks(s', root, H))
    ensures TreeOK(s', root, H) && NodeOK(s', root, H)
  {
    hide Blks, NodeOK, Unique, PathOK;
    if |front| > 0 {
      KidType(s, p, hp);
      MakeKid(s', p, hp);
    }
  }

  lemma MakeSearching(s: Store, root: int, H: nat, es: seq<Entry>, fs: seq<Frame>, c: int, key: int)
    requires TreeOK(s, root, H) && Ents(s, root, H) == es && Sorted(es)
    requires PathOK(s, root, H, fs) && |fs| <= H && c == Target(s, root, fs)
    requires AllBelow(Lft(s, root, H, fs), key) && AllAbove(Rgt(s, root, H, fs), key)
    ensures Searching(s, root, H, es, fs, c, key)
  {
  }

  // ---------------------------------------------------------------------
  // Full blocks
  // ---------------------------------------------------------------------

  ghost function FullBlocks(s: Store): set<int> {
    set x | x in s && s[x].nkeys == ZMXKEY
  }

  /** A split leaves fewer full blocks, unless the parent just became full. */
  lemma FewerFull(s: Store, s': Store, p: int, c: int, n: int)
    requires SplitResult(s, s', p, c, n)
    requires forall x :: x in s' ==> x in s || x == n
    ensures |FullBlocks(s')| <= |FullBlocks(s)|
    ensures s'[p].nkeys != ZMXKEY ==> |FullBlocks(s')| < |FullBlocks(s)|
  {
    hide Halves, Keys, PutKey;
    var f, f' := FullBlocks(s), FullBlocks(s');
    assert c in f && p !in f;
    forall x | x in f'
      ensures x == p || x in f - {c}
    {
      assert x in s' && s'[x].nkeys == ZMXKEY;
    }
    if s'[p].nkeys == ZMXKEY {
      Subset(f', f - {c} + {p});
    } else {
      Subset(f', f - {c});
    }
  }

  lemma FewerFullRoot(s: Store, s': Store, r: int, a: int, b: int)
    requires RootSplitResult(s, s', r, a, b)
    requires forall x :: x in s' ==> x in s || x == a || x == b
    ensures |FullBlocks(s')| < |FullBlocks(s)|
  {
    hide Halves, Keys, Links;
    assert r in FullBlocks(s);
    forall x | x in FullBlocks(s')
      ensures x in FullBlocks(s) - {r}
    {
      assert x in s' && s'[x].nkeys == ZMXKEY;
    }
    Subset(FullBlocks(s'), FullBlocks(s) - {r});
  }

  lemma SlackAfterSplit(s: Store, s': Store, m: multiset<int>, p: int, c: int, n: int)
    requires SplitResult(s, s', p, c, n) && SlackBut(s, m, c)
    requires forall x :: x in s' ==> x in s || x == n
    ensures SlackBut(s', m + multiset{n}, p)
  {
    hide Halves, Keys, PutKey;
  }

  lemma SlackAfterRootSplit(s: Store, s': Store, m: multiset<int>, r: int, a: int, b: int)
    requires RootSplitResult(s, s', r, a, b) && SlackBut(s, m, r)
    requires forall x :: x in s' ==> x in s || x == a || x == b
    ensures SlackBut(s', m + multiset{a} + multiset{b}, r)
  {
    hide Halves, Keys, Links;
  }

  /** The path above the parent is out of reach of a split. */
  lemma PathSlackAfterSplit(s: Store, s': Store, root: int, H: nat, es: seq<Entry>, fs: seq<Frame>, c: int,
                            key: int, n: int)
    requires |fs| > 0 && Searching(s, root, H, es, fs, c, key) && PathSlack(s, fs)
    requires SplitResult(s, s', fs[|fs| - 1].blk, c, n) && n !in Blks(s, root, H)
    ensures PathSlack(s', fs[..|fs| - 1])
  {
    hide Ents, Blks, Halves, PathOK, Lft, Rgt, NodeOK, Sorted, Unique, Searching, PutKey;
    var front, f := fs[..|fs| - 1], fs[|fs| - 1];
    ParentFacts(s, root, H, es, fs, c, key);
    forall i | 0 <= i < |front|
      ensures front[i].blk in s' && s'[front[i].blk].nkeys < ZMXKEY
    {
      PathAbove(s, root, H, front, i);
      assert front[i] == fs[i];
    }
  }

  // ---------------------------------------------------------------------
  // The descent
  // ---------------------------------------------------------------------

  /** Not found here: the key is below child q. */
  lemma Descend(s: Store, root: int, H: nat, es: seq<Entry>, fs: seq<Frame>, c: int, key: int, q: nat)
    requires Searching(s, root, H, es, fs, c, key) && |fs| < H
    requires c in s && q <= |Keys(s[c])|
    requires AllBelow(Keys(s[c])[..q], key) && AllAbove(Keys(s[c])[q..], key)
    ensures Searching(s, root, H, es, fs + [Frame(c, q)], Links(s[c])[q], key)
    ensures Links(s[c])[q] in s && Links(s[c])[q] != ZNULL
  {
    hide *;
    var f, fs' := Frame(c, q), fs + [Frame(c, q)];
    var h := H - |fs|;
    assert fs'[..|fs'| - 1] == fs;
    SearchFacts(s, root, H, es, fs, c, key);
    SearchBlockOK(s, root, H, es, fs, c, key);
    CountKeys(s[c]);
    PathStepBack(s, root, H, fs');
    NodeParts(s, f, h);
    SortedThree(PreAt(s, f, h), Ents(s, Child(s, f), h - 1), SufAt(s, f, h));
    BesideKeys(s, f, h, key);
    BelowConcat(Lft(s, root, H, fs), PreAt(s, f, h), key);
    BelowConcat(SufAt(s, f, h), Rgt(s, root, H, fs), key);
    MakeSearching(s, root, H, es, fs', Child(s, f), key);
    ChildIs(s, f);
    SearchBlockOK(s, root, H, es, fs', Child(s, f), key);
  }

  lemma ChildIs(s: Store, f: Frame)
    requires f.blk in s && 0 <= f.pos <= Count(s[f.blk])
    ensures Child(s, f) == Links(s[f.blk])[f.pos]
  {
  }

  lemma BesideKeys(s: Store, f: Frame, h: nat, k: int)
    requires f.blk in s && 0 <= f.pos <= Count(s[f.blk])
    requires Sorted(PreAt(s, f, h)) && Sorted(SufAt(s, f, h))
    requires AllBelow(Keys(s[f.blk])[..f.pos], k) && AllAbove(Keys(s[f.blk])[f.pos..], k)
    ensures AllBelow(PreAt(s, f, h), k) && AllAbove(SufAt(s, f, h), k)
  {
    PreBelow(s, Keys(s[f.blk])[..f.pos], Links(s[f.blk])[..f.pos], h, k);
    SufAbove(s, Keys(s[f.blk])[f.pos..], Links(s[f.blk])[f.pos + 1..], h, k);
  }

  // ---------------------------------------------------------------------
  // bfndky
  // ---------------------------------------------------------------------

  /** Blocks outside the current tree keep their contents, the root keeps its
      words (among them whether it allows duplicates, its data blocks and their
      active block), and so do the blocks below it; new ones have those of a split. */
  ghost predicate Kept(s: Store, s': Store, root: int, rest: set<int>) {
    RestKept(s, s', rest) && RootSame(s, s', root) && Worded(s, s', root)
  }

  ghost predicate RootSame(s: Store, s': Store, root: int) {
    root in s && root in s' && SameInfo(s[root], s'[root])
  }

  ghost predicate RestKept(s: Store, s': Store, rest: set<int>) {
    forall x :: x in rest ==> x in s && x in s' && s'[x] == s[x]
  }

  lemma RootWords(s: Store, s': Store, root: int, rest: set<int>)
    requires Kept(s, s', root, rest)
    ensures RootSame(s, s', root) && root in s && root in s' && SameInfo(s[root], s'[root])
  {
  }

  /** What a successful search leaves behind: the key at pos of blk. */
  ghost predicate FoundAt(s: Store, root: int, H: nat, es: seq<Entry>, front: seq<Frame>, blk: int, pos: int,
                          key: int) {
    && Searching(s, root, H, es, front, blk, key)
    && blk in s && 0 <= pos < Count(s[blk]) && Keys(s[blk])[pos].key == key
  }

  /** What a failed search leaves behind: the gap for key in leaf blk.  In an
      empty root the position is -1. */
  ghost predicate GapAt(s: Store, root: int, H: nat, es: seq<Entry>, front: seq<Frame>, blk: int, pos: int, key: int) {
    && Searching(s, root, H, es, front, blk, key)
    && |front| == H && blk in s
    && (if Count(s[blk]) == 0 then pos == -1 else 0 <= pos <= Count(s[blk]))
    && AllBelow(Keys(s[blk])[..if pos < 0 then 0 else pos], key)
    && AllAbove(Keys(s[blk])[if pos < 0 then 0 else pos..], key)
  }

  lemma RestApart(s: Store, m: multiset<int>, rest: set<int>, free: seq<int>, x: int)
    requires m + multiset(rest) + multiset(free) == multiset(s.Keys)
    ensures x in m ==> x !in rest
    ensures x in rest ==> x in s
  {
    assert (m + multiset(rest) + multiset(free))[x] == multiset(s.Keys)[x];
  }

  lemma KeptByChange(s: Store, s': Store, m: multiset<int>, root: int, rest: set<int>, free: seq<int>, p: int,
                     c: int, a: int, b: int)
    requires root in s && Worded(s, s', root)
    requires m + multiset(rest) + multiset(free) == multiset(s.Keys)
    requires p in m && c in m && a !in m + multiset(rest) && b !in m + multiset(rest)
    requires forall x :: x in s && x != p && x != c && x != a && x != b ==> x in s' && s'[x] == s[x]
    ensures Kept(s, s', root, rest)
  {
    forall x | x in rest
      ensures x in s && x in s' && s'[x] == s[x]
    {
      RestApart(s, m, rest, free, x);
      assert x in m + multiset(rest);
    }
  }

  /** The kind of step a split made, for one loop iteration of the search. */
  lemma SplitIteration(s: Store, s': Store, root: int, H: nat, es: seq<Entry>, fs: seq<Frame>, c: int, key: int,
                       n: int, rest: set<int>, free: seq<int>)
    requires |fs| > 0 && Searching(s, root, H, es, fs, c, key) && PathSlack(s, fs)
    requires SplitResult(s, s', fs[|fs| - 1].blk, c, n)
    requires Blks(s, root, H) + multiset(rest) + multiset(free) == multiset(s.Keys)
    requires n !in Blks(s, root, H) + multiset(rest)
    requires forall x :: x in s' ==> x in s || x == n
    requires Worded(s, s', root)
    ensures var front, p := fs[..|fs| - 1], fs[|fs| - 1].blk;
            && Searching(s', root, H, es, front, p, key) && PathSlack(s', front)
            && Blks(s', root, H) + multiset(rest) == Blks(s, root, H) + multiset(rest) + multiset{n}
            && (SlackBut(s, Blks(s, root, H), c) ==> SlackBut(s', Blks(s', root, H), p))
            && (FullOn(s, Blks(s, root, H), Route(s, c, Levels(H, |fs|), key)) ==>
                  FullOn(s', Blks(s', root, H), Route(s', p, Levels(H, |front|), key)))
            && Kept(s, s', root, rest)
            && p in s'
            && |FullBlocks(s')| <= |FullBlocks(s)|
            && (s'[p].nkeys != ZMXKEY ==> |FullBlocks(s')| < |FullBlocks(s)|)
  {
    hide *;
    NotInSum(n, Blks(s, root, H), rest);
    ParentFacts(s, root, H, es, fs, c, key);
    var p := fs[|fs| - 1].blk;
    SplitStep(s, s', root, H, es, fs, c, key, n);
    PathSlackAfterSplit(s, s', root, H, es, fs, c, key, n);
    if SlackBut(s, Blks(s, root, H), c) {
      SlackAfterSplit(s, s', Blks(s, root, H), p, c, n);
    }
    RouteIteration(s, s', root, H, es, fs, c, key, n);
    SplitResultFacts(s, s', p, c, n);
    SearchRoot(s, root, H, es, fs, c, key);
    KeptByChange(s, s', Blks(s, root, H), root, rest, free, p, c, n, n);
    FewerFull(s, s', p, c, n);
  }

  /** Levels below a block at the given depth. */
  function Levels(H: nat, depth: nat): nat {
    if depth <= H then H - depth else 0
  }

  lemma LevelsIs(H: nat, depth: nat)
    requires depth <= H
    ensures Levels(H, depth) == H - depth
  {
  }

  /** A split keeps the full blocks on the route of the key. */
  lemma RouteIteration(s: Store, s': Store, root: int, H: nat, es: seq<Entry>, fs: seq<Frame>, c: int, key: int, n: int)
    requires |fs| > 0 && Searching(s, root, H, es, fs, c, key)
    requires SplitResult(s, s', fs[|fs| - 1].blk, c, n) && n !in Blks(s, root, H)
    requires forall x :: x in s' ==> x in s || x == n
    ensures var front, p := fs[..|fs| - 1], fs[|fs| - 1].blk;
            FullOn(s, Blks(s, root, H), Route(s, c, Levels(H, |fs|), key)) ==>
              FullOn(s', Blks(s, root, H) + multiset{n}, Route(s', p, Levels(H, |front|), key))
  {
    hide *;
    var front, f := fs[..|fs| - 1], fs[|fs| - 1];
    SearchDepth(s, root, H, es, fs, c, key);
    LevelsIs(H, |fs|);
    LevelsIs(H, |front|);
    ParentFacts(s, root, H, es, fs, c, key);
    NotIn(n, Blks(s, f.blk, H - |front|), Blks(s, root, H));
    CountKeys(s[f.blk]);
    SearchAimed(s, root, H, es, fs, c, key);
    AimedUp(s, root, H, fs, key);
    NodeKids(s, f.blk, H - |front|);
    RouteSplit(s, s', f, H - |front|, n, key);
    var road := Route(s, c, H - |fs|, key);
    if FullOn(s, Blks(s, root, H), road) {
      FullAfterSplit(s, s', Blks(s, root, H), f.blk, c, n, road, Route(s', f.blk, H - |front|, key));
    }
  }

  lemma SearchAimed(s: Store, root: int, H: nat, es: seq<Entry>, fs: seq<Frame>, c: int, key: int)
    requires Searching(s, root, H, es, fs, c, key)
    ensures Aimed(s, root, H, fs, key)
  {
    hide Lft, Rgt, PathOK, TreeOK, AllBelow, AllAbove;
  }

  lemma RouteRootIteration(s: Store, s': Store, root: int, H: nat, es: seq<Entry>, key: int, a: int, b: int)
    requires Searching(s, root, H, es, [], root, key)
    requires RootSplitResult(s, s', root, a, b) && a !in Blks(s, root, H) && b !in Blks(s, root, H)
    requires forall x :: x in s' ==> x in s || x == a || x == b
    ensures FullOn(s, Blks(s, root, H), Route(s, root, H, key)) ==>
              FullOn(s', Blks(s, root, H) + multiset{a} + multiset{b}, Route(s', root, H + 1, key))
  {
    hide *;
    SearchFacts(s, root, H, es, [], root, key);
    RouteRootSplit(s, s', root, H, a, b, key);
    var road := Route(s, root, H, key);
    if FullOn(s, Blks(s, root, H), road) {
      FullAfterRootSplit(s, s', Blks(s, root, H), root, a, b, road, Route(s', root, H + 1, key));
    }
  }

  lemma NotInSum(n: int, m: multiset<int>, rest: set<int>)
    requires n !in m + multiset(rest)
    ensures n !in m
  {
  }

  lemma RootSplitIteration(s: Store, s': Store, root: int, H: nat, es: seq<Entry>, key: int,
                           a: int, b: int, rest: set<int>, free: seq<int>)
    requires Searching(s, root, H, es, [], root, key)
    requires RootSplitResult(s, s', root, a, b)
    requires Blks(s, root, H) + multiset(rest) + multiset(free) == multiset(s.Keys)
    requires a !in Blks(s, root, H) + multiset(rest) && b !in Blks(s, root, H) + multiset(rest)
    requires forall x :: x in s' ==> x in s || x == a || x == b
    requires Worded(s, s', root)
    ensures Searching(s', root, H + 1, es, [], root, key) && PathSlack(s', [])
    ensures Blks(s', root, H + 1) + multiset(rest) == Blks(s, root, H) + multiset(rest) + multiset{a} + multiset{b}
    ensures SlackBut(s, Blks(s, root, H), root) ==> SlackBut(s', Blks(s', root, H + 1), root)
    ensures FullOn(s, Blks(s, root, H), Route(s, root, Levels(H, 0), key)) ==>
              FullOn(s', Blks(s', root, H + 1), Route(s', root, Levels(H + 1, 0), key))
    ensures Kept(s, s', root, rest)
    ensures |FullBlocks(s')| < |FullBlocks(s)|
  {
    hide *;
    NotInSum(a, Blks(s, root, H), rest);
    NotInSum(b, Blks(s, root, H), rest);
    RootSplitStep(s, s', root, H, es, key, a, b);
    if SlackBut(s, Blks(s, root, H), root) {
      SlackAfterRootSplit(s, s', Blks(s, root, H), root, a, b);
    }
    LevelsIs(H, 0);
    LevelsIs(H + 1, 0);
    RouteRootIteration(s, s', root, H, es, key, a, b);
    BlksSelf(s, root, H);
    RootSplitFacts(s, s', root, a, b);
    SearchFacts(s, root, H, es, [], root, key);
    KeptByChange(s, s', Blks(s, root, H), root, rest, free, root, root, a, b);
    FewerFullRoot(s, s', root, a, b);
    NilSlack(s');
  }

  lemma NilSlack(s: Store)
    ensures PathSlack(s, [])
  {
  }

  lemma BlksSelf(s: Store, b: int, h: nat)
    ensures b in Blks(s, b, h)
  {
  }

  lemma RootSplitFacts(s: Store, s': Store, r: int, a: int, b: int)
    requires RootSplitResult(s, s', r, a, b)
    ensures forall x :: x in s && x != r && x != a && x != b ==> x in s' && s'[x] == s[x]
  {
  }

  /** The context of a search in progress. */
  ghost predicate Walking(ix: Index, es: seq<Entry>, fs: seq<Frame>, cblk: int, key: int)
    reads ix`store, ix`sblkmx, ix`snfree, ix`sfreep, ix`free, ix`rest, ix`scroot, ix`height,
          ix`lfblk, ix`lfpos, ix`stk
  {
    && Searching(ix.store, ix.scroot, ix.height, es, fs, cblk, key)
    && OnPath(ix.stk, ix.lfblk, ix.lfpos, fs)
    && AllocOK(ix.store, ix.sblkmx, ix.sfreep, ix.snfree, ix.free, ix.Owned())
  }

  lemma WalkingParts(ix: Index, es: seq<Entry>, fs: seq<Frame>, cblk: int, key: int)
    requires Walking(ix, es, fs, cblk, key)
    ensures Searching(ix.store, ix.scroot, ix.height, es, fs, cblk, key) && OnPath(ix.stk, ix.lfblk, ix.lfpos, fs)
    ensures AllocOK(ix.store, ix.sblkmx, ix.sfreep, ix.snfree, ix.free,
                    Blks(ix.store, ix.scroot, ix.height) + multiset(ix.rest))
  {
    hide Searching, OnPath, AllocOK;
  }

  lemma WalkingFacts(ix: Index, es: seq<Entry>, fs: seq<Frame>, cblk: int, key: int)
    requires Walking(ix, es, fs, cblk, key)
    ensures Searching(ix.store, ix.scroot, ix.height, es, fs, cblk, key)
    ensures OnPath(ix.stk, ix.lfblk, ix.lfpos, fs)
    ensures AllocOK(ix.store, ix.sblkmx, ix.sfreep, ix.snfree, ix.free,
                    Blks(ix.store, ix.scroot, ix.height) + multiset(ix.rest))
    ensures Blks(ix.store, ix.scroot, ix.height) + multiset(ix.rest) + multiset(ix.free) == multiset(ix.store.Keys)
    ensures |fs| <= ix.height && cblk == Target(ix.store, ix.scroot, fs)
    ensures |fs| > 0 ==> Frame(ix.lfblk, ix.lfpos) == fs[|fs| - 1]
  {
  }

  lemma WalkingCount(ix: Index, es: seq<Entry>, fs: seq<Frame>, cblk: int, key: int)
    requires Walking(ix, es, fs, cblk, key)
    ensures cblk in ix.store && 0 <= ix.store[cblk].nkeys <= ZMXKEY
  {
    SearchBlockOK(ix.store, ix.scroot, ix.height, es, fs, cblk, key);
  }

  lemma MakeWalking(ix: Index, es: seq<Entry>, fs: seq<Frame>, cblk: int, key: int, used: multiset<int>)
    requires Searching(ix.store, ix.scroot, ix.height, es, fs, cblk, key)
    requires OnPath(ix.stk, ix.lfblk, ix.lfpos, fs)
    requires AllocOK(ix.store, ix.sblkmx, ix.sfreep, ix.snfree, ix.free, used)
    requires used == Blks(ix.store, ix.scroot, ix.height) + multiset(ix.rest)
    ensures Walking(ix, es, fs, cblk, key)
  {
  }

  /** A split on the way does not change where the search ends. */
  lemma EndsIteration(s: Store, s': Store, root: int, H: nat, es: seq<Entry>, fs: seq<Frame>, c: int, key: int, n: int,
                      used: multiset<int>)
    requires |fs| > 0 && Searching(s, root, H, es, fs, c, key)
    requires SplitResult(s, s', fs[|fs| - 1].blk, c, n) && n !in used && Blks(s, root, H) <= used
    requires Searching(s', root, H, es, fs[..|fs| - 1], fs[|fs| - 1].blk, key)
    ensures EndsAbove(s', root, H, key) == EndsAbove(s, root, H, key)
  {
    hide *;
    var front, f := fs[..|fs| - 1], fs[|fs| - 1];
    SearchDepth(s, root, H, es, fs, c, key);
    ParentFacts(s, root, H, es, fs, c, key);
    NotIn(n, Blks(s, root, H), used);
    NotIn(n, Blks(s, f.blk, H - |front|), Blks(s, root, H));
    CountKeys(s[f.blk]);
    SearchAimed(s, root, H, es, fs, c, key);
    AimedUp(s, root, H, fs, key);
    NodeKids(s, f.blk, H - |front|);
    EndsThrough(s, root, H, front, key);
    EndsSplit(s, s', f, H - |front|, n, key);
    SearchAimed(s', root, H, es, front, f.blk, key);
    SearchFacts(s', root, H, es, front, f.blk, key);
    EndsThrough(s', root, H, front, key);
  }

  lemma EndsRootIteration(s: Store, s': Store, root: int, H: nat, es: seq<Entry>, key: int, a: int, b: int,
                          rest: set<int>)
    requires Searching(s, root, H, es, [], root, key) && RootSplitResult(s, s', root, a, b)
    requires a !in Blks(s, root, H) + multiset(rest) && b !in Blks(s, root, H) + multiset(rest)
    ensures EndsAbove(s', root, H + 1, key) == EndsAbove(s, root, H, key)
  {
    hide *;
    NotInSum(a, Blks(s, root, H), rest);
    NotInSum(b, Blks(s, root, H), rest);
    SearchFacts(s, root, H, es, [], root, key);
    EndsRootSplit(s, s', root, H, a, b, key);
  }


  /** A full block is split, and the search goes back to its parent; after a
      root split it starts again at the root. */
  method SplitAndRetreat(ix: Index, cblk: int, ghost es: seq<Entry>, ghost fs: seq<Frame>, ghost key: int)
    returns (next: int, ghost fs': seq<Frame>)
    requires Calm(ix)
    requires Walking(ix, es, fs, cblk, key) && PathSlack(ix.store, fs)
    requires cblk in ix.store && ix.store[cblk].nkeys == ZMXKEY
    modifies ix`store, ix`sblkmx, ix`snfree, ix`sfreep, ix`free, ix`stk, ix`lfblk, ix`lfpos, ix`height, ix`busy
    ensures Calm(ix)
    ensures Walking(ix, es, fs', next, key) && PathSlack(ix.store, fs')
    ensures SlackBut(old(ix.store), Blks(old(ix.store), ix.scroot, old(ix.height)), cblk)
        ==> SlackBut(ix.store, Blks(ix.store, ix.scroot, ix.height), next)
    ensures FullOn(old(ix.store), Blks(old(ix.store), ix.scroot, old(ix.height)),
                   Route(old(ix.store), cblk, Levels(old(ix.height), |fs|), key))
        ==> FullOn(ix.store, Blks(ix.store, ix.scroot, ix.height), Route(ix.store, next, Levels(ix.height, |fs'|), key))
    ensures Kept(old(ix.store), ix.store, ix.scroot, ix.rest)
    ensures next in ix.store && next != ZNULL && |fs'| <= ix.height
    ensures |FullBlocks(ix.store)| < |FullBlocks(old(ix.store))|
         || (|FullBlocks(ix.store)| == |FullBlocks(old(ix.store))| && ix.store[next].nkeys == ZMXKEY && |fs'| < |fs|)
    ensures |fs'| <= |fs|
    ensures EndsAbove(ix.store, ix.scroot, ix.height, key) == old(EndsAbove(ix.store, ix.scroot, ix.height, key))
  {
    hide *;
    ghost var s, H, root, rest, free := ix.store, ix.height, ix.scroot, ix.rest, ix.free;
    WalkingFacts(ix, es, fs, cblk, key);
    SearchBlockOK(s, root, H, es, fs, cblk, key);
    SearchRoot(s, root, H, es, fs, cblk, key);
    ghost var used := Blks(s, root, H) + multiset(rest);
    if |fs| > 0 {
      ParentFacts(s, root, H, es, fs, cblk, key);
      SlackAt(s, fs, |fs| - 1);
      InUsed(fs[|fs| - 1].blk, Blks(s, fs[|fs| - 1].blk, H - |fs| + 1), Blks(s, root, H), rest);
    }
    var newblk;
    ghost var blk2;
    RootOwned(s, root, H, rest);
    newblk, blk2 := SplitBlock(ix, cblk, used);
    if cblk != ix.scroot {
      next := ix.lfblk;
      OnPathStack(ix.stk, ix.lfblk, ix.lfpos, fs);
      PullFrame(ix, fs);
      fs' := fs[..|fs| - 1];
      SplitIteration(s, ix.store, root, H, es, fs, cblk, key, newblk, rest, free);
      EndsIteration(s, ix.store, root, H, es, fs, cblk, key, newblk, Blks(s, root, H) + multiset(rest));
      MakeWalking(ix, es, fs', next, key, used + multiset{newblk});
    } else {
      next := cblk;
      fs' := fs;
      RootSplitIteration(s, ix.store, root, H, es, key, newblk, blk2, rest, free);
      EndsRootIteration(s, ix.store, root, H, es, key, newblk, blk2, rest);
      ix.height := ix.height + 1;
      MakeWalking(ix, es, fs', next, key, used + multiset{newblk} + multiset{blk2});
    }
    WalkingFacts(ix, es, fs', next, key);
    SearchBlockOK(ix.store, ix.scroot, ix.height, es, fs', next, key);
  }

  lemma SlackAt(s: Store, fs: seq<Frame>, i: nat)
    requires PathSlack(s, fs) && i < |fs|
    ensures fs[i].blk in s && s[fs[i].blk].nkeys < ZMXKEY
  {
  }

  lemma RootOwned(s: Store, root: int, H: nat, rest: set<int>)
    ensures root in Blks(s, root, H) + multiset(rest)
  {
    hide Blks;
    BlksSelf(s, root, H);
  }

  lemma InUsed(p: int, m: multiset<int>, all: multiset<int>, rest: set<int>)
    requires p in m && m <= all
    ensures p in all && p in all + multiset(rest)
  {
    assert m[p] <= all[p];
  }

  /** The block at hand is the root exactly when the path is empty, and only the
      root has the root type. */
  lemma SearchRoot(s: Store, root: int, H: nat, es: seq<Entry>, fs: seq<Frame>, c: int, key: int)
    requires Searching(s, root, H, es, fs, c, key)
    ensures c in s && root in s && (c == root <==> |fs| == 0) && (s[c].btype == ZROOT <==> c == root)
    ensures |fs| == 0 ==> fs == []
  {
    hide NodeOK, Ents, Blks, Unique, AllBelow, AllAbove, Lft, Rgt, Sorted;
    SearchBlockOK(s, root, H, es, fs, c, key);
    SearchFacts(s, root, H, es, fs, c, key);
  }

  lemma FoundInMap(s: Store, root: int, H: nat, es: seq<Entry>, front: seq<Frame>, blk: int, pos: int, key: int)
    requires FoundAt(s, root, H, es, front, blk, pos, key)
    ensures key in ToMap(es) && ToMap(es)[key] == Keys(s[blk])[pos].val
  {
    hide Ents, Between, Lft, Rgt, PathOK, TreeOK, ToMap, AllBelow, AllAbove;
    var h := H - |front|;
    SearchBlockOK(s, root, H, es, front, blk, key);
    EntsNode(s, blk, h);
    KeysWithin(s, Keys(s[blk]), Links(s[blk]), h, pos);
    var mid := Ents(s, blk, h);
    var i :| 0 <= i < |mid| && mid[i] == Keys(s[blk])[pos];
    assert es[|Lft(s, root, H, front)| + i] == mid[i];
    ToMapAt(es, |Lft(s, root, H, front)| + i);
  }

  lemma GapNotInMap(s: Store, root: int, H: nat, es: seq<Entry>, front: seq<Frame>, blk: int, pos: int, key: int)
    requires GapAt(s, root, H, es, front, blk, pos, key)
    ensures key !in ToMap(es)
  {
    hide *;
    GapParts(s, root, H, es, front, blk, pos, key);
    var ks, q := Keys(s[blk]), if pos < 0 then 0 else pos;
    var a, b := Lft(s, root, H, front), Rgt(s, root, H, front);
    BelowConcat(a, ks[..q], key);
    BelowConcat(ks[q..], b, key);
    Cut(ks, q);
    Assoc(a, ks[..q], ks[q..]);
    Assoc(a + ks[..q], ks[q..], b);
    NotAround(a + ks[..q], ks[q..] + b, key);
  }

  /** The entries around a gap. */
  lemma GapParts(s: Store, root: int, H: nat, es: seq<Entry>, front: seq<Frame>, blk: int, pos: int, key: int)
    requires GapAt(s, root, H, es, front, blk, pos, key)
    ensures PathOK(s, root, H, front) && blk in s && |front| == H && 0 <= s[blk].nkeys <= ZMXKEY
    ensures pos <= |Keys(s[blk])| && |Keys(s[blk])| == s[blk].nkeys
    ensures var q := if pos < 0 then 0 else pos;
            && AllBelow(Lft(s, root, H, front), key) && AllBelow(Keys(s[blk])[..q], key)
            && AllAbove(Keys(s[blk])[q..], key) && AllAbove(Rgt(s, root, H, front), key)
            && es == Lft(s, root, H, front) + Keys(s[blk]) + Rgt(s, root, H, front)
            && Ents(s, blk, 0) == Keys(s[blk])
            && Sorted(es)
  {
    hide Ents, Blks, Sorted, PathOK, Lft, Rgt, NodeOK, AllBelow, AllAbove;
    SearchBlockOK(s, root, H, es, front, blk, key);
    EntsNode(s, blk, 0);
  }

  lemma NotAround(a: seq<Entry>, b: seq<Entry>, k: int)
    requires AllBelow(a, k) && AllAbove(b, k)
    ensures k !in ToMap(a + b)
  {
    ToMapKeys(a + b, k);
  }

  /** Position and next block after the binary search of block b. */
  function PosAfter(index: int, result: int): int {
    if result > 0 then index + 1 else index
  }

  function NextAfter(b: Block, index: int, result: int): int {
    if index < 0 || index >= ZMXKEY then ZNULL
    else if result < 0 then b.link[index]
    else if result > 0 then b.link[index + 1]
    else ZNULL
  }

  /** What the binary search of bsrhbk promises about its result. */
  ghost predicate Searched(b: Block, key: int, index: int, result: int) {
    && 0 <= b.nkeys <= ZMXKEY
    && (b.nkeys == 0 ==> index == -1 && result < 0)
    && (b.nkeys > 0 ==> 0 <= index < b.nkeys)
    && (result == 0 ==> Keys(b)[index].key == key)
    && (result != 0 && b.nkeys > 0 ==>
          AllBelow(Keys(b)[..PosAfter(index, result)], key) && AllAbove(Keys(b)[PosAfter(index, result)..], key))
  }

  /** Where the search of one block leads. */
  lemma SearchOutcome(s: Store, root: int, H: nat, es: seq<Entry>, fs: seq<Frame>, c: int, key: int,
                      index: int, result: int)
    requires Searching(s, root, H, es, fs, c, key) && c in s && Searched(s[c], key, index, result)
    ensures var pos, next := PosAfter(index, result), NextAfter(s[c], index, result);
            if result == 0 then
              && next == ZNULL && FoundAt(s, root, H, es, fs, c, pos, key)
              && 0 <= pos < |Keys(s[c])| && s[c].key[pos] == Keys(s[c])[pos]
            else if |fs| == H then
              next == ZNULL && GapAt(s, root, H, es, fs, c, pos, key)
            else
              next in s && next != ZNULL && Searching(s, root, H, es, fs + [Frame(c, pos)], next, key)
  {
    hide Searching, NodeOK, KidOK, Sorted, Blks, Ents, Lft, Rgt, AllBelow, AllAbove, Unique;
    var pos, next := PosAfter(index, result), NextAfter(s[c], index, result);
    SearchBlockOK(s, root, H, es, fs, c, key);
    SearchDepth(s, root, H, es, fs, c, key);
    KeysInArray(s[c]);
    if result == 0 {
      MakeFound(s, root, H, es, fs, c, pos, key);
    } else if |fs| == H {
      LeafLinks(s, c);
      MakeGap(s, root, H, es, fs, c, pos, key);
    } else {
      Descend(s, root, H, es, fs, c, key, pos);
    }
  }

  /** Searching one block: the path gains the block with the position of the
      key or of its gap. */
  method Examine(ix: Index, cblk: int, key: int, ghost es: seq<Entry>, ghost fs: seq<Frame>)
    returns (next: int, status: int, val: int)
    requires Calm(ix)
    requires Walking(ix, es, fs, cblk, key) && cblk in ix.store
    requires !ix.lfexct
    modifies ix`stk, ix`lfblk, ix`lfpos, ix`lfexct
    ensures status == 0 || status == QNOKEY
    ensures ix.lfexct == (status == 0)
    ensures ix.lfblk == cblk
    ensures next == ZNULL ==> Landed(ix, es, fs, key, status, val)
    ensures next != ZNULL ==> status == QNOKEY && next in ix.store && |fs| < ix.height
                              && Walking(ix, es, fs + [Frame(cblk, ix.lfpos)], next, key)
  {
    assert ZNULL == -1 && QNOKEY != 0;
    hide *;
    WalkingParts(ix, es, fs, cblk, key);
    SearchKeys(ix.store, ix.scroot, ix.height, es, fs, cblk, key);
    var b := Read(ix, cblk);
    KeysInArray(b);
    var index, result := SearchBlock(b, key);
    MakeSearched(b, key, index, result);
    PosBound(b, key, index, result);
    var pos := PosAfter(index, result);
    next := NextAfter(b, index, result);
    PushFrame(ix, fs, Frame(cblk, pos));
    status, val := QNOKEY, 0;
    if result == 0 {
      status, val := 0, b.key[pos].val;
      ix.lfexct := true;
    }
    Examined(ix, es, fs, key, cblk, index, result, next, status, val);
  }

  lemma Examined(ix: Index, es: seq<Entry>, fs: seq<Frame>, key: int, c: int, index: int, result: int,
                 next: int, status: int, val: int)
    requires Searching(ix.store, ix.scroot, ix.height, es, fs, c, key)
    requires AllocOK(ix.store, ix.sblkmx, ix.sfreep, ix.snfree, ix.free,
                     Blks(ix.store, ix.scroot, ix.height) + multiset(ix.rest))
    requires OnPath(ix.stk, ix.lfblk, ix.lfpos, fs + [Frame(c, PosAfter(index, result))])
    requires ix.lfblk == c && ix.lfpos == PosAfter(index, result)
    requires c in ix.store && Searched(ix.store[c], key, index, result)
    requires next == NextAfter(ix.store[c], index, result)
    requires status == if result == 0 then 0 else QNOKEY
    requires result == 0 ==> 0 <= ix.lfpos < ZMXKEY && val == ix.store[c].key[ix.lfpos].val
    ensures next == ZNULL ==> Landed(ix, es, fs, key, status, val)
    ensures next != ZNULL ==> status == QNOKEY && next in ix.store && |fs| < ix.height
                              && Walking(ix, es, fs + [Frame(c, ix.lfpos)], next, key)
  {
    assert QNOKEY != 0;
    hide *;
    SearchOutcome(ix.store, ix.scroot, ix.height, es, fs, c, key, index, result);
    if next == ZNULL {
      MakeLanded(ix, es, fs, key, status, val);
    } else {
      MakeWalking(ix, es, fs + [Frame(c, ix.lfpos)], next, key,
                  Blks(ix.store, ix.scroot, ix.height) + multiset(ix.rest));
      SearchDepth(ix.store, ix.scroot, ix.height, es, fs + [Frame(c, ix.lfpos)], next, key);
    }
  }

  lemma PosBound(b: Block, key: int, index: int, result: int)
    requires Searched(b, key, index, result)
    ensures result == 0 ==> 0 <= PosAfter(index, result) < ZMXKEY
  {
  }

  lemma SearchDepth(s: Store, root: int, H: nat, es: seq<Entry>, fs: seq<Frame>, c: int, key: int)
    requires Searching(s, root, H, es, fs, c, key)
    ensures |fs| <= H
  {
  }

  lemma MakeSearched(b: Block, key: int, index: int, result: int)
    requires 0 <= b.nkeys <= ZMXKEY
    requires b.nkeys == 0 ==> index == -1 && result < 0
    requires b.nkeys > 0 ==> 0 <= index < b.nkeys
    requires result == 0 ==> Keys(b)[index].key == key
    requires result < 0 && b.nkeys > 0 ==> AllBelow(Keys(b)[..index], key) && AllAbove(Keys(b)[index..], key)
    requires result > 0 ==> AllBelow(Keys(b)[..index + 1], key) && AllAbove(Keys(b)[index + 1..], key)
    ensures Searched(b, key, index, result)
  {
  }

  lemma KeysInArray(b: Block)
    requires 0 <= b.nkeys <= ZMXKEY && Sorted(Keys(b))
    ensures |Keys(b)| == b.nkeys && |Links(b)| == b.nkeys + 1
    ensures forall i :: 0 <= i < b.nkeys ==> Keys(b)[i] == b.key[i]
    ensures forall i :: 0 <= i <= b.nkeys ==> Links(b)[i] == b.link[i]
    ensures forall i, j :: 0 <= i < j < b.nkeys ==> b.key[i].key < b.key[j].key
  {
    assert forall i :: 0 <= i < b.nkeys ==> Keys(b)[i] == b.key[i];
  }

  lemma LeafLinks(s: Store, b: int)
    requires NodeOK(s, b, 0)
    ensures b in s && (s[b].nkeys > 0 ==> forall i :: 0 <= i < |Links(s[b])| ==> Links(s[b])[i] == ZNULL)
  {
  }

  lemma MakeFound(s: Store, root: int, H: nat, es: seq<Entry>, front: seq<Frame>, blk: int, pos: int, key: int)
    requires Searching(s, root, H, es, front, blk, key)
    requires blk in s && 0 <= pos < Count(s[blk]) && Keys(s[blk])[pos].key == key
    ensures FoundAt(s, root, H, es, front, blk, pos, key)
  {
  }

  lemma MakeGap(s: Store, root: int, H: nat, es: seq<Entry>, front: seq<Frame>, blk: int, pos: int, key: int)
    requires Searching(s, root, H, es, front, blk, key) && |front| == H && blk in s
    requires if Count(s[blk]) == 0 then pos == -1 else 0 <= pos <= Count(s[blk])
    requires pos >= 0 ==> AllBelow(Keys(s[blk])[..pos], key) && AllAbove(Keys(s[blk])[pos..], key)
    ensures GapAt(s, root, H, es, front, blk, pos, key)
  {
  }

  /** The start of a search: nothing on the stack, the root ahead. */
  lemma StartSearch(ix: Index, key: int)
    requires ix.Valid()
    ensures Searching(ix.store, ix.scroot, ix.height, ix.Entries(), [], ix.scroot, key)
    ensures AllocOK(ix.store, ix.sblkmx, ix.sfreep, ix.snfree, ix.free,
                    Blks(ix.store, ix.scroot, ix.height) + multiset(ix.rest))
    ensures PathSlack(ix.store, []) && OnPath([], ZNULL, ZNULL, [])
    ensures ix.scroot in ix.store && ix.scroot != ZNULL && ZNULL !in ix.store
    ensures forall x :: x in ix.rest ==> x in ix.store
    ensures ix.Contents() == ToMap(ix.Entries())
  {
    assert [NOWHERE] + [] == [NOWHERE];
    NodeKids(ix.store, ix.scroot, ix.height);
    RestThere(ix);
  }

  lemma SearchValid(ix: Index, es: seq<Entry>, fs: seq<Frame>, cblk: int, key: int)
    requires Searching(ix.store, ix.scroot, ix.height, es, fs, cblk, key)
    requires AllocOK(ix.store, ix.sblkmx, ix.sfreep, ix.snfree, ix.free,
                     Blks(ix.store, ix.scroot, ix.height) + multiset(ix.rest))
    ensures ix.Valid() && ix.Entries() == es && ix.Contents() == ToMap(es)
  {
  }

  /** The context when the search is over. */
  ghost predicate Landed(ix: Index, es: seq<Entry>, front: seq<Frame>, key: int, status: int, val: int)
    reads ix`store, ix`sblkmx, ix`snfree, ix`sfreep, ix`free, ix`rest, ix`scroot, ix`height,
          ix`lfblk, ix`lfpos, ix`stk
  {
    && AllocOK(ix.store, ix.sblkmx, ix.sfreep, ix.snfree, ix.free, ix.Owned())
    && OnPath(ix.stk, ix.lfblk, ix.lfpos, front + [Frame(ix.lfblk, ix.lfpos)])
    && (status == 0 ==>
          && FoundAt(ix.store, ix.scroot, ix.height, es, front, ix.lfblk, ix.lfpos, key)
          && val == Keys(ix.store[ix.lfblk])[ix.lfpos].val)
    && (status != 0 ==> GapAt(ix.store, ix.scroot, ix.height, es, front, ix.lfblk, ix.lfpos, key))
  }

  lemma LandedFacts(ix: Index, es: seq<Entry>, front: seq<Frame>, key: int, status: int, val: int)
    requires Landed(ix, es, front, key, status, val)
    ensures ix.Valid() && ix.Entries() == es && ix.Contents() == ToMap(es)
    ensures status == 0 <==> key in ToMap(es)
    ensures status == 0 ==> val == ToMap(es)[key]
  {
    hide Searching, AllocOK, Keys, OnPath, ToMap, AllBelow, AllAbove;
    SearchValid(ix, es, front, ix.lfblk, key);
    if status == 0 {
      FoundInMap(ix.store, ix.scroot, ix.height, es, front, ix.lfblk, ix.lfpos, key);
    } else {
      GapNotInMap(ix.store, ix.scroot, ix.height, es, front, ix.lfblk, ix.lfpos, key);
    }
  }

  lemma MakeLanded(ix: Index, es: seq<Entry>, front: seq<Frame>, key: int, status: int, val: int)
    requires AllocOK(ix.store, ix.sblkmx, ix.sfreep, ix.snfree, ix.free,
                     Blks(ix.store, ix.scroot, ix.height) + multiset(ix.rest))
    requires OnPath(ix.stk, ix.lfblk, ix.lfpos, front + [Frame(ix.lfblk, ix.lfpos)])
    requires status == 0 ==> FoundAt(ix.store, ix.scroot, ix.height, es, front, ix.lfblk, ix.lfpos, key)
    requires status == 0 ==> ix.lfblk in ix.store && 0 <= ix.lfpos < |Keys(ix.store[ix.lfblk])|
    requires status == 0 ==> val == Keys(ix.store[ix.lfblk])[ix.lfpos].val
    requires status != 0 ==> GapAt(ix.store, ix.scroot, ix.height, es, front, ix.lfblk, ix.lfpos, key)
    ensures Landed(ix, es, front, key, status, val)
  {
    hide Searching, AllocOK, OnPath, Keys, AllBelow, AllAbove;
  }

  /** Every non-leaf block of the current tree has a free key slot. */
  ghost predicate Slack(ix: Index)
    reads ix`store, ix`scroot, ix`height
  {
    SlackBut(ix.store, Blks(ix.store, ix.scroot, ix.height), ZNULL)
  }

  lemma SlackIs(ix: Index)
    ensures Slack(ix) <==> SlackBut(ix.store, Blks(ix.store, ix.scroot, ix.height), ZNULL)
  {
  }

  /** Every full non-leaf block of the current tree is one that a search for key
      passes. */
  ghost predicate FullAhead(ix: Index, key: int)
    reads ix`store, ix`scroot, ix`height
  {
    FullOn(ix.store, Blks(ix.store, ix.scroot, ix.height), Route(ix.store, ix.scroot, ix.height, key))
  }

  lemma FullAheadIs(ix: Index, key: int)
    ensures FullAhead(ix, key)
       <==> FullOn(ix.store, Blks(ix.store, ix.scroot, ix.height), Route(ix.store, ix.scroot, ix.height, key))
  {
  }

  /** No block on the route of the key is full. */
  ghost predicate Unhindered(ix: Index, key: int)
    reads ix`store, ix`scroot, ix`height
  {
    Open(ix.store, Route(ix.store, ix.scroot, ix.height, key))
  }

  lemma UnhinderedIs(ix: Index, key: int)
    ensures Unhindered(ix, key) <==> Open(ix.store, Route(ix.store, ix.scroot, ix.height, key))
  {
  }

  /** bfndky in exclusive mode, for a key that is not a duplicate.  The frames
      of front lie on the stack, (lfblk, lfpos) is the last one. */
  method FindKey(ix: Index, key: int) returns (status: int, val: int, ghost front: seq<Frame>)
    requires Calm(ix)
    requires ix.Valid()
    modifies ix`store, ix`sblkmx, ix`snfree, ix`sfreep, ix`free, ix`stk, ix`lfblk, ix`lfpos, ix`lfexct, ix`lfkey,
             ix`height, ix`busy
    ensures Calm(ix)
    ensures ix.Valid() && ix.Entries() == old(ix.Entries()) && ix.Contents() == old(ix.Contents())
    ensures ix.lfkey == key && ix.lfexct == (status == 0)
    ensures status == 0 || status == QNOKEY
    ensures status == 0 <==> key in ix.Contents()
    ensures status == 0 ==> val == ix.Contents()[key]
    ensures Landed(ix, ix.Entries(), front, key, status, val)
    ensures ix.smode == 0 ==> PathSlack(ix.store, front + [Frame(ix.lfblk, ix.lfpos)])
    ensures ix.smode != 0 ==> ix.store == old(ix.store)
    ensures old(Slack(ix)) ==> Slack(ix)
    ensures ix.smode == 0 && status != 0 && old(FullAhead(ix, key)) ==> Slack(ix)
    ensures old(Unhindered(ix, key)) ==> ix.store == old(ix.store) && ix.height == old(ix.height)
    ensures ix.smode == 0 ==> (old(EndsAbove(ix.store, ix.scroot, ix.height, key)) <==> status == 0 && |front| < ix.height)
    ensures Kept(old(ix.store), ix.store, ix.scroot, ix.rest)
  {
    hide *;
    ghost var es := ix.Entries();
    ghost var H0 := ix.height;
    SlackIs(ix);
    UnhinderedIs(ix, key);
    FullAheadIs(ix, key);
    ghost var s0, m0 := ix.store, Blks(ix.store, ix.scroot, ix.height);
    StartFind(ix, key);
    ghost var road := Route(s0, ix.scroot, Levels(ix.height, 0), key);
    LevelsIs(ix.height, 0);
    status, val, front := FindLoop(ix, key, es, s0, m0, road, H0);
    SinceOver(s0, m0, H0, road, ix.store, ix.height, Blks(ix.store, ix.scroot, ix.height), ix.smode,
              Levels(ix.height, |front|), key,
              status, ix.scroot, ix.rest);
    FindOver(ix, es, front, key, status, val);
    if ix.smode == 0 {
      LandedEnds(ix, es, front, key, status, val);
    }
    SlackIs(ix);
  }

  /** Where a search on a path without full blocks has ended. */
  lemma LandedEnds(ix: Index, es: seq<Entry>, front: seq<Frame>, key: int, status: int, val: int)
    requires Landed(ix, es, front, key, status, val) && PathSlack(ix.store, front + [Frame(ix.lfblk, ix.lfpos)])
    ensures EndsAbove(ix.store, ix.scroot, ix.height, key) <==> status == 0 && |front| < ix.height
  {
    hide *;
    var s, root, H, blk := ix.store, ix.scroot, ix.height, ix.lfblk;
    LandedSearch(ix, es, front, key, status, val);
    SearchAimed(s, root, H, es, front, blk, key);
    SearchFacts(s, root, H, es, front, blk, key);
    SearchBlockOK(s, root, H, es, front, blk, key);
    EndsThrough(s, root, H, front, key);
    SlackAt(s, front + [Frame(blk, ix.lfpos)], |front|);
    if status == 0 {
      EndsAt(s, blk, H - |front|, key, ix.lfpos);
    } else {
      EndsNode(s, blk, 0, key);
      var pos := if ix.lfpos < 0 then 0 else ix.lfpos;
      PutPosIs(Keys(s[blk]), key, pos);
      GapKey(Keys(s[blk]), pos, key);
    }
  }

  lemma GapKey(ks: seq<Entry>, pos: nat, key: int)
    requires pos <= |ks| && AllAbove(ks[pos..], key)
    ensures pos < |ks| ==> ks[pos].key != key
  {
    assert pos < |ks| ==> ks[pos..][0] == ks[pos];
  }

  lemma LandedSearch(ix: Index, es: seq<Entry>, front: seq<Frame>, key: int, status: int, val: int)
    requires Landed(ix, es, front, key, status, val)
    ensures Searching(ix.store, ix.scroot, ix.height, es, front, ix.lfblk, key) && ix.lfblk in ix.store
    ensures status == 0 ==> 0 <= ix.lfpos < |Keys(ix.store[ix.lfblk])| && Keys(ix.store[ix.lfblk])[ix.lfpos].key == key
    ensures status != 0 ==>
              && |front| == ix.height
              && var pos := if ix.lfpos < 0 then 0 else ix.lfpos;
                 pos <= |Keys(ix.store[ix.lfblk])| && AllBelow(Keys(ix.store[ix.lfblk])[..pos], key)
                 && AllAbove(Keys(ix.store[ix.lfblk])[pos..], key)
  {
    hide Searching, AllBelow, AllAbove, AllocOK, OnPath;
  }

  /** The loop of bfndky. */
  method FindLoop(ix: Index, key: int, ghost es: seq<Entry>, ghost s0: Store, ghost m0: multiset<int>,
                  ghost road: set<int>, ghost H0: nat)
    returns (status: int, val: int, ghost front: seq<Frame>)
    requires Calm(ix)
    requires InFind(ix, es, [], ix.scroot, key, QNOKEY, 0) && !ix.lfexct
    requires SinceStart(s0, m0, H0, road, ix.store, ix.height, Blks(ix.store, ix.scroot, ix.height), ix.smode, ix.scroot,
                        Levels(ix.height, 0), key, QNOKEY, ix.scroot, ix.rest)
    modifies ix`store, ix`sblkmx, ix`snfree, ix`sfreep, ix`free, ix`stk, ix`lfblk, ix`lfpos, ix`lfexct, ix`height, ix`busy
    ensures Calm(ix)
    ensures InFind(ix, es, front, ZNULL, key, status, val) && ix.lfexct == (status == 0)
    ensures SinceStart(s0, m0, H0, road, ix.store, ix.height, Blks(ix.store, ix.scroot, ix.height), ix.smode, ZNULL,
                       Levels(ix.height, |front|), key, status, ix.scroot, ix.rest)
    ensures EndsAbove(ix.store, ix.scroot, ix.height, key) == old(EndsAbove(ix.store, ix.scroot, ix.height, key))
  {
    assert QNOKEY != 0;
    hide *;
    status, val, front := QNOKEY, 0, [];
    var cblk := ix.scroot;
    ghost var ends := EndsAbove(ix.store, ix.scroot, ix.height, key);
    OnTheWayIs(ix, es, front, cblk, key, status, val, s0, m0, H0, road, ends);
    while cblk != ZNULL
      invariant OnTheWay(ix, es, front, cblk, key, status, val, s0, m0, H0, road, ends)
      decreases |FullBlocks(ix.store)|, Turn(ix.store, ix.smode, cblk),
                Way(ix.store, ix.smode, cblk, ix.height, |front|)
    {
      ghost var s1, H1, here, depth := ix.store, ix.height, cblk, |front|;
      cblk, status, val, front := FindPass(ix, cblk, key, status, val, es, front, s0, m0, H0, road, ends);
      CloserIs(ix.smode, s1, H1, here, depth, ix.store, ix.height, cblk, |front|);
    }
    OnTheWayIs(ix, es, front, cblk, key, status, val, s0, m0, H0, road, ends);
  }

  /** The invariant of the loop. */
  ghost predicate OnTheWay(ix: Index, es: seq<Entry>, front: seq<Frame>, cblk: int, key: int, status: int, val: int,
                           s0: Store, m0: multiset<int>, H0: nat, road: set<int>, ends: bool)
    reads ix
  {
    && Calm(ix) && InFind(ix, es, front, cblk, key, status, val)
    && (cblk != ZNULL ==> status == QNOKEY) && ix.lfexct == (status == 0)
    && SinceStart(s0, m0, H0, road, ix.store, ix.height, Blks(ix.store, ix.scroot, ix.height), ix.smode, cblk,
                  Levels(ix.height, |front|), key, status, ix.scroot, ix.rest)
    && EndsAbove(ix.store, ix.scroot, ix.height, key) == ends
  }

  lemma OnTheWayIs(ix: Index, es: seq<Entry>, front: seq<Frame>, cblk: int, key: int, status: int, val: int,
                   s0: Store, m0: multiset<int>, H0: nat, road: set<int>, ends: bool)
    ensures OnTheWay(ix, es, front, cblk, key, status, val, s0, m0, H0, road, ends) <==>
            && Calm(ix) && InFind(ix, es, front, cblk, key, status, val)
            && (cblk != ZNULL ==> status == QNOKEY) && ix.lfexct == (status == 0)
            && SinceStart(s0, m0, H0, road, ix.store, ix.height, Blks(ix.store, ix.scroot, ix.height), ix.smode, cblk,
                          Levels(ix.height, |front|), key, status, ix.scroot, ix.rest)
            && EndsAbove(ix.store, ix.scroot, ix.height, key) == ends
    ensures InFind(ix, es, front, cblk, key, status, val) && cblk != ZNULL ==> InFind(ix, es, front, cblk, key, QNOKEY, 0)
  {
    hide Calm, Walking, Landed, PathSlack, SinceStart, Blks, Levels, EndsAbove;
  }

  /** One pass: a split, or the search of one block. */
  method FindPass(ix: Index, cblk: int, key: int, ghost status0: int, ghost val0: int, ghost es: seq<Entry>,
                  ghost front0: seq<Frame>,
                  ghost s0: Store, ghost m0: multiset<int>, ghost H0: nat, ghost road: set<int>, ghost ends: bool)
    returns (next: int, status: int, val: int, ghost front: seq<Frame>)
    requires cblk != ZNULL && OnTheWay(ix, es, front0, cblk, key, status0, val0, s0, m0, H0, road, ends)
    modifies ix`store, ix`sblkmx, ix`snfree, ix`sfreep, ix`free, ix`stk, ix`lfblk, ix`lfpos, ix`lfexct, ix`height, ix`busy
    ensures OnTheWay(ix, es, front, next, key, status, val, s0, m0, H0, road, ends)
    ensures Closer(ix.smode, old(ix.store), old(ix.height), cblk, |front0|, ix.store, ix.height, next, |front|)
  {
    assert QNOKEY != 0;
    hide *;
    OnTheWayIs(ix, es, front0, cblk, key, status0, val0, s0, m0, H0, road, ends);
    InFindOpen(ix, es, front0, cblk, key, status0, val0);
    next, status, val, front := FindStep(ix, cblk, key, es, front0);
    SinceStep(s0, m0, H0, road, ix.scroot, ix.rest, ix.smode, key, old(ix.store), old(ix.height), cblk, |front0|,
              ix.store, ix.height, next, |front|, status);
    OnTheWayIs(ix, es, front, next, key, status, val, s0, m0, H0, road, ends);
  }

  /** What the search has done to the store (s0, m0) it started from. */
  ghost predicate SinceStart(s0: Store, m0: multiset<int>, H0: nat, road: set<int>, s: Store, H: nat, m: multiset<int>,
                             smode: int, cblk: int, h: nat, key: int, status: int, root: int,
                             rest: set<int>) {
    && (Open(s0, road) ==> s == s0 && H == H0 && (cblk != ZNULL ==> Route(s, cblk, h, key) <= road))
    && (smode != 0 ==> s == s0 && m == m0)
    && (smode == 0 && FullOn(s0, m0, road) ==> Clearing(s, m, cblk, h, key, status))
    && (smode == 0 && SlackBut(s0, m0, ZNULL) ==> SlackBut(s, m, cblk))
    && Kept(s0, s, root, rest)
  }

  lemma SinceStep(s0: Store, m0: multiset<int>, H0: nat, road: set<int>, root: int, rest: set<int>, smode: int,
                  key: int,
                  s: Store, H: nat, cblk: int, depth: nat, s': Store, H': nat, next: int, depth': nat, status: int)
    requires SinceStart(s0, m0, H0, road, s, H, Blks(s, root, H), smode, cblk, Levels(H, depth), key, QNOKEY, root, rest)
    requires cblk in s && cblk != ZNULL
    requires Passed(root, rest, smode, key, s, H, cblk, depth, s', H', next, depth', status)
    ensures SinceStart(s0, m0, H0, road, s', H', Blks(s', root, H'), smode, next, Levels(H', depth'), key, status, root, rest)
    ensures Closer(smode, s, H, cblk, depth, s', H', next, depth')
  {
    hide SlackBut, Clearing, FullOn, Closer, Blks, Route, Levels, Kept;
    RouteNode(s, cblk, Levels(H, depth), key);
    KeptTrans(s0, s, s', root, rest);
  }

  lemma CloserIs(smode: int, s: Store, H: nat, cblk: int, depth: nat, s': Store, H': nat, next: int, depth': nat)
    requires Closer(smode, s, H, cblk, depth, s', H', next, depth')
    ensures || |FullBlocks(s')| < |FullBlocks(s)|
            || (&& |FullBlocks(s')| == |FullBlocks(s)|
                && (|| Turn(s', smode, next) < Turn(s, smode, cblk)
                    || (&& Turn(s', smode, next) == Turn(s, smode, cblk)
                        && Way(s', smode, next, H', depth') < Way(s, smode, cblk, H, depth))))
  {
    hide FullBlocks, Turn, Way;
  }

  lemma SinceNow(s: Store, H: nat, m: multiset<int>, smode: int, cblk: int, h: nat, key: int, root: int,
                 rest: set<int>)
    requires SlackBut(s, m, ZNULL) ==> SlackBut(s, m, cblk)
    requires Kept(s, s, root, rest) && cblk != ZNULL
    ensures SinceStart(s, m, H, Route(s, cblk, h, key), s, H, m, smode, cblk, h, key, QNOKEY, root, rest)
  {
    hide SlackBut, Kept, FullOn, Route;
  }

  lemma SinceOver(s0: Store, m0: multiset<int>, H0: nat, road: set<int>, s: Store, H: nat, m: multiset<int>,
                  smode: int, h: nat,
                  key: int, status: int, root: int, rest: set<int>)
    requires SinceStart(s0, m0, H0, road, s, H, m, smode, ZNULL, h, key, status, root, rest)
    ensures smode != 0 ==> s == s0
    ensures Open(s0, road) ==> s == s0 && H == H0
    ensures SlackBut(s0, m0, ZNULL) ==> SlackBut(s, m, ZNULL)
    ensures smode == 0 && status != 0 && FullOn(s0, m0, road) ==> SlackBut(s, m, ZNULL)
    ensures Kept(s0, s, root, rest)
  {
    hide Kept, SlackBut, FullOn;
    if smode == 0 && FullOn(s0, m0, road) {
      ClearingDone(s, m, h, key, status);
    }
  }

  lemma FindOver(ix: Index, es: seq<Entry>, front: seq<Frame>, key: int, status: int, val: int)
    requires InFind(ix, es, front, ZNULL, key, status, val)
    ensures ix.Valid() && ix.Entries() == es && ix.Contents() == ToMap(es)
    ensures status == 0 || status == QNOKEY
    ensures status == 0 <==> key in ToMap(es)
    ensures status == 0 ==> val == ToMap(es)[key]
    ensures Landed(ix, es, front, key, status, val)
    ensures ix.smode == 0 ==> PathSlack(ix.store, front + [Frame(ix.lfblk, ix.lfpos)])
  {
    hide *;
    InFindOpen(ix, es, front, ZNULL, key, status, val);
    LandedFacts(ix, es, front, key, status, val);
  }

  /** bstkin, bclrlf and the copy of the key: the search starts at the root. */
  method StartFind(ix: Index, key: int)
    requires Calm(ix)
    requires ix.Valid()
    modifies ix`stk, ix`lfblk, ix`lfpos, ix`lfexct, ix`lfkey
    ensures InFind(ix, old(ix.Entries()), [], ix.scroot, key, QNOKEY, 0) && ix.scroot != ZNULL
    ensures ix.lfkey == key && !ix.lfexct
    ensures var m := Blks(ix.store, ix.scroot, ix.height);
            SinceStart(ix.store, m, ix.height, Route(ix.store, ix.scroot, Levels(ix.height, 0), key), ix.store, ix.height, m,
                       ix.smode, ix.scroot, Levels(ix.height, 0), key, QNOKEY, ix.scroot, ix.rest)
    ensures old(ix.Contents()) == ToMap(old(ix.Entries()))
  {
    hide *;
    ghost var es := ix.Entries();
    StartSearch(ix, key);
    KeptRefl(ix.store, ix.scroot, ix.rest);
    SlackAnywhere(ix.store, Blks(ix.store, ix.scroot, ix.height), ix.scroot);
    SinceNow(ix.store, ix.height, Blks(ix.store, ix.scroot, ix.height), ix.smode, ix.scroot, Levels(ix.height, 0), key,
             ix.scroot, ix.rest);
    ix.stk := [];
    ix.lfblk, ix.lfpos, ix.lfexct := ZNULL, ZNULL, false;
    ix.lfkey := key;
    MakeWalking(ix, es, [], ix.scroot, key, Blks(ix.store, ix.scroot, ix.height) + multiset(ix.rest));
    InFindClose(ix, es, [], ix.scroot, key, QNOKEY, 0);
  }

  /** The measure of the search, below the number of full blocks: whether the
      block at hand is about to be split, and how far there is to go, up when it
      is and down when it is not. */
  ghost function Turn(s: Store, smode: int, cblk: int): nat {
    if cblk in s && smode == 0 && s[cblk].nkeys == ZMXKEY then 0 else 1
  }

  ghost function Way(s: Store, smode: int, cblk: int, H: nat, depth: nat): nat {
    if cblk == ZNULL then 0
    else if Turn(s, smode, cblk) == 0 then depth + 1
    else if depth <= H then H - depth + 1
    else 0
  }

  /** What one pass does to the store: nothing in read-only mode; else no new
      full blocks but the next one; and always a smaller measure. */
  ghost predicate Passed(root: int, rest: set<int>, smode: int, key: int, s: Store, H: nat, cblk: int, depth: nat,
                         s': Store, H': nat, next: int, depth': nat, status: int) {
    && (smode != 0 ==> s' == s && H' == H)
    && (cblk in s && s[cblk].nkeys < ZMXKEY ==>
          s' == s && H' == H && (next != ZNULL ==> Route(s, next, Levels(H, depth'), key) <= Route(s, cblk, Levels(H, depth), key)))
    && (smode == 0 && SlackBut(s, Blks(s, root, H), cblk) ==> SlackBut(s', Blks(s', root, H'), next))
    && (smode == 0 && Clearing(s, Blks(s, root, H), cblk, Levels(H, depth), key, QNOKEY)
        ==> Clearing(s', Blks(s', root, H'), next, Levels(H', depth'), key, status))
    && Kept(s, s', root, rest)
    && Closer(smode, s, H, cblk, depth, s', H', next, depth')
  }

  ghost predicate Closer(smode: int, s: Store, H: nat, cblk: int, depth: nat, s': Store, H': nat, next: int,
                         depth': nat) {
    || |FullBlocks(s')| < |FullBlocks(s)|
    || (&& |FullBlocks(s')| == |FullBlocks(s)|
        && (|| Turn(s', smode, next) < Turn(s, smode, cblk)
            || (&& Turn(s', smode, next) == Turn(s, smode, cblk)
                && Way(s', smode, next, H', depth') < Way(s, smode, cblk, H, depth))))
  }

  /** One pass through the loop of bfndky. */
  method FindStep(ix: Index, cblk: int, key: int, ghost es: seq<Entry>, ghost fs: seq<Frame>)
    returns (next: int, status: int, val: int, ghost front: seq<Frame>)
    requires Calm(ix)
    requires InFind(ix, es, fs, cblk, key, QNOKEY, 0) && cblk != ZNULL
    requires !ix.lfexct
    modifies ix`store, ix`sblkmx, ix`snfree, ix`sfreep, ix`free, ix`stk, ix`lfblk, ix`lfpos, ix`lfexct, ix`height, ix`busy
    ensures Calm(ix)
    ensures InFind(ix, es, front, next, key, status, val)
    ensures next != ZNULL ==> status == QNOKEY
    ensures ix.lfexct == (status == 0)
    ensures Passed(ix.scroot, ix.rest, ix.smode, key, old(ix.store), old(ix.height), cblk, |fs|,
                   ix.store, ix.height, next, |front|, status)
    ensures EndsAbove(ix.store, ix.scroot, ix.height, key) == old(EndsAbove(ix.store, ix.scroot, ix.height, key))
  {
    hide *;
    InFindOpen(ix, es, fs, cblk, key, QNOKEY, 0);
    var b := Read(ix, cblk);
    var nkeys := b.nkeys;
    if nkeys == ZMXKEY && ix.smode == 0 {
      status, val := QNOKEY, 0;
      next, front := StepUp(ix, cblk, key, es, fs);
    } else {
      next, status, val, front := StepDown(ix, cblk, key, es, fs);
    }
  }

  /** The pass over a full block. */
  method StepUp(ix: Index, cblk: int, key: int, ghost es: seq<Entry>, ghost fs: seq<Frame>)
    returns (next: int, ghost front: seq<Frame>)
    requires Calm(ix)
    requires Walking(ix, es, fs, cblk, key) && PathSlack(ix.store, fs) && cblk != ZNULL && ix.smode == 0
    requires cblk in ix.store && ix.store[cblk].nkeys == ZMXKEY
    requires !ix.lfexct
    modifies ix`store, ix`sblkmx, ix`snfree, ix`sfreep, ix`free, ix`stk, ix`lfblk, ix`lfpos, ix`height, ix`busy
    ensures Calm(ix)
    ensures InFind(ix, es, front, next, key, QNOKEY, 0) && QNOKEY != 0
    ensures Passed(ix.scroot, ix.rest, 0, key, old(ix.store), old(ix.height), cblk, |fs|,
                   ix.store, ix.height, next, |front|, QNOKEY)
    ensures EndsAbove(ix.store, ix.scroot, ix.height, key) == old(EndsAbove(ix.store, ix.scroot, ix.height, key))
  {
    assert QNOKEY != 0;
    hide *;
    ghost var s, H := ix.store, ix.height;
    next, front := SplitAndRetreat(ix, cblk, es, fs, key);
    UpPassed(ix.scroot, ix.rest, key, s, H, cblk, |fs|, ix.store, ix.height, next, |front|);
    InFindClose(ix, es, front, next, key, QNOKEY, 0);
  }

  lemma UpPassed(root: int, rest: set<int>, key: int, s: Store, H: nat, cblk: int, depth: nat,
                 s': Store, H': nat, next: int, depth': nat)
    requires cblk in s && s[cblk].nkeys == ZMXKEY && cblk != ZNULL && next in s' && next != ZNULL && depth' <= depth
    requires SlackBut(s, Blks(s, root, H), cblk) ==> SlackBut(s', Blks(s', root, H'), next)
    requires FullOn(s, Blks(s, root, H), Route(s, cblk, Levels(H, depth), key))
         ==> FullOn(s', Blks(s', root, H'), Route(s', next, Levels(H', depth'), key))
    requires Kept(s, s', root, rest)
    requires |FullBlocks(s')| < |FullBlocks(s)|
         || (|FullBlocks(s')| == |FullBlocks(s)| && s'[next].nkeys == ZMXKEY && depth' < depth)
    ensures Passed(root, rest, 0, key, s, H, cblk, depth, s', H', next, depth', QNOKEY)
  {
    hide SlackBut, Blks, FullOn, Route, Levels, Kept, FullBlocks, Turn, Way;
    TurnSplit(s, s', cblk, next, H, H', depth, depth');
  }

  /** The pass over a block that is not split. */
  method StepDown(ix: Index, cblk: int, key: int, ghost es: seq<Entry>, ghost fs: seq<Frame>)
    returns (next: int, status: int, val: int, ghost front: seq<Frame>)
    requires Calm(ix)
    requires InFind(ix, es, fs, cblk, key, QNOKEY, 0) && cblk != ZNULL && cblk in ix.store
    requires !(ix.store[cblk].nkeys == ZMXKEY && ix.smode == 0) && !ix.lfexct
    modifies ix`stk, ix`lfblk, ix`lfpos, ix`lfexct
    ensures InFind(ix, es, front, next, key, status, val)
    ensures next != ZNULL ==> status == QNOKEY
    ensures ix.lfexct == (status == 0)
    ensures Passed(ix.scroot, ix.rest, ix.smode, key, ix.store, ix.height, cblk, |fs|,
                   ix.store, ix.height, next, |front|, status)
  {
    hide *;
    ghost var s, H := ix.store, ix.height;
    InFindOpen(ix, es, fs, cblk, key, QNOKEY, 0);
    WalkingRest(ix, es, fs, cblk, key);
    SlackDown(s, Blks(s, ix.scroot, H), fs, cblk, s[cblk].nkeys, ix.smode);
    KeptRefl(s, ix.scroot, ix.rest);
    next, status, val := Examine(ix, cblk, key, es, fs);
    front := if next == ZNULL then fs else fs + [Frame(cblk, ix.lfpos)];
    if ix.smode == 0 {
      ClearingDown(ix, es, fs, cblk, key, next, status, val);
    }
    if next != ZNULL {
      NextOnRoute(ix, es, fs, cblk, key, next);
    }
    DownPassed(ix.scroot, ix.rest, ix.smode, key, s, H, cblk, |fs|, next, |front|, status);
    InFindClose(ix, es, front, next, key, status, val);
  }

  lemma DownPassed(root: int, rest: set<int>, smode: int, key: int, s: Store, H: nat, cblk: int, depth: nat,
                   next: int, depth': nat, status: int)
    requires cblk in s && cblk != ZNULL && !(s[cblk].nkeys == ZMXKEY && smode == 0) && depth <= H
    requires depth' == if next == ZNULL then depth else depth + 1
    requires next != ZNULL ==> depth < H
    requires smode == 0 && SlackBut(s, Blks(s, root, H), cblk) ==> SlackBut(s, Blks(s, root, H), next)
    requires smode == 0 && Clearing(s, Blks(s, root, H), cblk, Levels(H, depth), key, QNOKEY)
         ==> Clearing(s, Blks(s, root, H), next, Levels(H, depth'), key, status)
    requires Kept(s, s, root, rest)
    requires next != ZNULL ==> Route(s, next, Levels(H, depth'), key) <= Route(s, cblk, Levels(H, depth), key)
    ensures Passed(root, rest, smode, key, s, H, cblk, depth, s, H, next, depth', status)
  {
    hide Route, SlackBut, Blks, Clearing, Levels, Kept, FullBlocks, Turn, Way;
    TurnDown(s, smode, cblk, next, H, depth, depth');
  }

  /** What is left to clear: full non-leaf blocks on the rest of the route, and
      nothing once the search ended at a gap. */
  ghost predicate Clearing(s: Store, m: multiset<int>, cblk: int, h: nat, key: int, status: int) {
    if cblk != ZNULL then FullOn(s, m, Route(s, cblk, h, key)) else status != 0 ==> SlackBut(s, m, ZNULL)
  }

  lemma ClearingOpen(s: Store, m: multiset<int>, cblk: int, h: nat, key: int, status: int)
    requires cblk != ZNULL
    ensures Clearing(s, m, cblk, h, key, status) <==> FullOn(s, m, Route(s, cblk, h, key))
  {
  }

  /** Going down leaves a block behind that is not full. */
  lemma ClearingDown(ix: Index, es: seq<Entry>, fs: seq<Frame>, cblk: int, key: int, next: int, status: int, val: int)
    requires ix.lfblk == cblk && cblk in ix.store && ix.store[cblk].nkeys < ZMXKEY && cblk != ZNULL
    requires |fs| <= ix.height
    requires next == ZNULL ==> Landed(ix, es, fs, key, status, val)
    requires next != ZNULL ==> |fs| < ix.height && Walking(ix, es, fs + [Frame(cblk, ix.lfpos)], next, key)
    ensures var m, h := Blks(ix.store, ix.scroot, ix.height), Levels(ix.height, |fs|);
            Clearing(ix.store, m, cblk, h, key, QNOKEY) ==>
              Clearing(ix.store, m, next, Levels(ix.height, if next == ZNULL then |fs| else |fs| + 1), key, status)
  {
    hide *;
    var s, H := ix.store, ix.height;
    var m := Blks(s, ix.scroot, H);
    LevelsIs(H, |fs|);
    RouteNode(s, cblk, H - |fs|, key);
    ClearingOpen(s, m, cblk, H - |fs|, key, QNOKEY);
    if Clearing(s, m, cblk, H - |fs|, key, QNOKEY) {
      if next != ZNULL {
        var fs' := fs + [Frame(cblk, ix.lfpos)];
        assert fs'[|fs'| - 1] == Frame(cblk, ix.lfpos);
        LevelsIs(H, |fs| + 1);
        WalkingFacts(ix, es, fs', next, key);
        SearchAimed(s, ix.scroot, H, es, fs', next, key);
        PathLast(s, ix.scroot, H, fs');
        AimedUp(s, ix.scroot, H, fs', key);
        FullPast(s, m, cblk, Route(s, next, H - |fs| - 1, key));
        ClearingOpen(s, m, next, H - |fs| - 1, key, status);
      } else {
        if status != 0 {
          LandedDepth(ix, es, fs, key, status, val);
          assert {cblk} + {} == {cblk};
          FullPast(s, m, cblk, {});
          FullNone(s, m);
        }
        ClearingOver(s, m, Levels(H, |fs|), key, status);
      }
    }
  }

  /** The next block is on the route. */
  lemma NextOnRoute(ix: Index, es: seq<Entry>, fs: seq<Frame>, cblk: int, key: int, next: int)
    requires ix.lfblk == cblk && cblk in ix.store && |fs| < ix.height && next != ZNULL
    requires Walking(ix, es, fs + [Frame(cblk, ix.lfpos)], next, key)
    ensures Route(ix.store, next, Levels(ix.height, |fs| + 1), key) <= Route(ix.store, cblk, Levels(ix.height, |fs|), key)
  {
    hide *;
    var s, H := ix.store, ix.height;
    var fs' := fs + [Frame(cblk, ix.lfpos)];
    assert fs'[|fs'| - 1] == Frame(cblk, ix.lfpos);
    LevelsIs(H, |fs|);
    LevelsIs(H, |fs| + 1);
    RouteNode(s, cblk, H - |fs|, key);
    WalkingFacts(ix, es, fs', next, key);
    SearchAimed(s, ix.scroot, H, es, fs', next, key);
    PathLast(s, ix.scroot, H, fs');
    AimedUp(s, ix.scroot, H, fs', key);
  }

  lemma PathLast(s: Store, root: int, H: nat, fs: seq<Frame>)
    requires |fs| > 0 && PathOK(s, root, H, fs)
    ensures Target(s, root, fs) == Child(s, fs[|fs| - 1])
  {
  }

  lemma LandedDepth(ix: Index, es: seq<Entry>, fs: seq<Frame>, key: int, status: int, val: int)
    requires Landed(ix, es, fs, key, status, val) && status != 0
    ensures |fs| == ix.height
  {
    hide Searching, AllBelow, AllAbove, AllocOK;
  }

  lemma FullNone(s: Store, m: multiset<int>)
    requires FullOn(s, m, {})
    ensures SlackBut(s, m, ZNULL)
  {
  }

  lemma ClearingOver(s: Store, m: multiset<int>, h: nat, key: int, status: int)
    requires status != 0 ==> SlackBut(s, m, ZNULL)
    ensures Clearing(s, m, ZNULL, h, key, status)
  {
  }

  lemma ClearingDone(s: Store, m: multiset<int>, h: nat, key: int, status: int)
    requires Clearing(s, m, ZNULL, h, key, status)
    ensures status != 0 ==> SlackBut(s, m, ZNULL)
  {
  }

  lemma WalkingRest(ix: Index, es: seq<Entry>, fs: seq<Frame>, cblk: int, key: int)
    requires Walking(ix, es, fs, cblk, key)
    ensures |fs| <= ix.height && ix.scroot in ix.store && forall x :: x in ix.rest ==> x in ix.store
  {
    SearchRoot(ix.store, ix.scroot, ix.height, es, fs, cblk, key);
    forall x | x in ix.rest
      ensures x in ix.store
    {
      RestApart(ix.store, Blks(ix.store, ix.scroot, ix.height), ix.rest, ix.free, x);
    }
  }

  lemma TurnSplit(s: Store, s': Store, c: int, p: int, H: nat, H': nat, depth: nat, depth': nat)
    requires c in s && s[c].nkeys == ZMXKEY && c != ZNULL && p in s' && p != ZNULL
    requires s'[p].nkeys == ZMXKEY ==> depth' <= depth
    ensures Turn(s, 0, c) == 0 && Way(s, 0, c, H, depth) == depth + 1
    ensures s'[p].nkeys == ZMXKEY ==> Turn(s', 0, p) == 0 && Way(s', 0, p, H', depth') == depth' + 1
  {
  }

  lemma TurnDown(s: Store, smode: int, c: int, next: int, H: nat, depth: nat, depth': nat)
    requires c in s && c != ZNULL && !(s[c].nkeys == ZMXKEY && smode == 0)
    requires depth <= H
    requires next != ZNULL ==> depth' == depth + 1 && depth < H
    ensures Turn(s, smode, c) == 1 && Way(s, smode, c, H, depth) == H - depth + 1
    ensures Turn(s, smode, next) <= 1
    ensures Turn(s, smode, next) == 1 ==> Way(s, smode, next, H, depth') < Way(s, smode, c, H, depth)
  {
  }

  /** The state of the search loop: still walking, or landed. */
  ghost predicate InFind(ix: Index, es: seq<Entry>, front: seq<Frame>, cblk: int, key: int, status: int, val: int)
    reads ix`store, ix`sblkmx, ix`snfree, ix`sfreep, ix`free, ix`rest, ix`scroot, ix`height,
          ix`lfblk, ix`lfpos, ix`stk, ix`smode
  {
    if cblk != ZNULL then
      Walking(ix, es, front, cblk, key) && status == QNOKEY && (ix.smode == 0 ==> PathSlack(ix.store, front))
    else
      && Landed(ix, es, front, key, status, val) && (status == 0 || status == QNOKEY)
      && (ix.smode == 0 ==> PathSlack(ix.store, front + [Frame(ix.lfblk, ix.lfpos)]))
  }

  lemma InFindOpen(ix: Index, es: seq<Entry>, front: seq<Frame>, cblk: int, key: int, status: int, val: int)
    requires InFind(ix, es, front, cblk, key, status, val)
    ensures cblk != ZNULL ==>
              Walking(ix, es, front, cblk, key) && status == QNOKEY && (ix.smode == 0 ==> PathSlack(ix.store, front))
              && cblk in ix.store && 0 <= ix.store[cblk].nkeys <= ZMXKEY
    ensures cblk == ZNULL ==>
              && Landed(ix, es, front, key, status, val) && (status == 0 || status == QNOKEY)
              && (ix.smode == 0 ==> PathSlack(ix.store, front + [Frame(ix.lfblk, ix.lfpos)]))
  {
    if cblk != ZNULL {
      WalkingCount(ix, es, front, cblk, key);
    }
  }

  lemma InFindClose(ix: Index, es: seq<Entry>, front: seq<Frame>, cblk: int, key: int, status: int, val: int)
    requires cblk != ZNULL ==>
              Walking(ix, es, front, cblk, key) && status == QNOKEY && (ix.smode == 0 ==> PathSlack(ix.store, front))
    requires cblk == ZNULL ==>
              && Landed(ix, es, front, key, status, val) && (status == 0 || status == QNOKEY)
              && (ix.smode == 0 ==> PathSlack(ix.store, front + [Frame(ix.lfblk, ix.lfpos)]))
    ensures InFind(ix, es, front, cblk, key, status, val)
  {
  }

  /** Going down from a block that was not split. */
  lemma SlackDown(s: Store, m: multiset<int>, fs: seq<Frame>, c: int, nkeys: int, smode: int)
    requires c in s && nkeys == s[c].nkeys <= ZMXKEY
    requires !(nkeys == ZMXKEY && smode == 0)
    requires smode == 0 ==> PathSlack(s, fs)
    ensures smode == 0 ==> forall pos :: PathSlack(s, fs + [Frame(c, pos)])
    ensures smode == 0 && SlackBut(s, m, c) ==> forall y :: SlackBut(s, m, y)
  {
    hide PathSlack, SlackBut;
    if smode == 0 {
      PathSlackMore(s, fs, c);
      if SlackBut(s, m, c) {
        forall y
          ensures SlackBut(s, m, y)
        {
          SlackMoves(s, m, c, y);
        }
      }
    }
  }

  lemma SlackAnywhere(s: Store, m: multiset<int>, x: int)
    requires ZNULL !in s
    ensures SlackBut(s, m, ZNULL) ==> SlackBut(s, m, x)
  {
  }

  lemma SlackMoves(s: Store, m: multiset<int>, x: int, y: int)
    requires SlackBut(s, m, x) && x in s && s[x].nkeys < ZMXKEY
    ensures SlackBut(s, m, y)
  {
  }

  lemma PathSlackMore(s: Store, fs: seq<Frame>, c: int)
    requires PathSlack(s, fs) && c in s && s[c].nkeys < ZMXKEY
    ensures forall pos :: PathSlack(s, fs + [Frame(c, pos)])
  {
  }

  lemma RestThere(ix: Index)
    requires ix.Valid()
    ensures ix.scroot in ix.store && forall x :: x in ix.rest ==> x in ix.store
  {
    hide Blks, Ents, Sorted, Unique;
    forall x | x in ix.rest
      ensures x in ix.store
    {
      RestApart(ix.store, Blks(ix.store, ix.scroot, ix.height), ix.rest, ix.free, x);
    }
  }

  /** A failed search has no value. */
  lemma NoValue(ix: Index, es: seq<Entry>, front: seq<Frame>, key: int, val: int)
    requires Landed(ix, es, front, key, QNOKEY, val)
    ensures Landed(ix, es, front, key, QNOKEY, 0)
  {
    hide AllocOK, OnPath, GapAt;
  }

  lemma KeptRefl(s: Store, root: int, rest: set<int>)
    requires root in s && forall x :: x in rest ==> x in s
    ensures Kept(s, s, root, rest)
  {
    WordedRefl(s, root);
  }

  lemma KeptTrans(s: Store, s': Store, s'': Store, root: int, rest: set<int>)
    requires Kept(s, s', root, rest) && Kept(s', s'', root, rest)
    ensures Kept(s, s'', root, rest)
  {
    WordedTrans(s, s', s'', root);
  }
}
