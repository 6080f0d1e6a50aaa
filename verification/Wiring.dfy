/** Three slots are enough (inc/bc.h): the routines that hold on to a block while
    they read others, run on the cache.

    Apart from the current root at most one block is wired whenever a block may
    have to be loaded, so with the smallest allowed number of slots there is
    always one to load it into; that is what the preconditions of the cache
    routines ask for here.  Each method also says what it leaves in the file,
    which is what the tree model takes the routine to do. */
module Wiring {
  import opened Constants
  import opened Blocks
  import opened Lru
  import opened Seqs
  import opened Caching
  import opened Context
  import opened Split
  import opened Repair
  import opened Delete

  /** Only the current root is wired, or nothing. */
  ghost predicate AtRest(c: Cache, root: int)
    reads c, c.cntrl, c.memrec
  {
    c.Valid() && c.Busy() <= {root}
  }

  lemma Few(s: set<int>, a: int, b: int)
    requires s <= {a, b}
    ensures |s| <= 2
  {
    Subset(s, {a, b});
  }

  lemma RestFacts(c: Cache, root: int)
    requires AtRest(c, root)
    ensures c.Valid() && c.cntrl.Length >= 3 && c.cntrl.Length == c.memrec.Length
    ensures c.Busy() <= {root} && |c.Busy()| <= 2
    ensures c.File().Keys == c.disk.Keys
    ensures root in c.Busy() ==> c.Resident(root)
  {
    Few(c.Busy(), root, root);
    BusyResident(c.cntrl[..], c.memrec[..], c.disk, root);
    assert forall b :: b in c.File() <==> b in c.disk;
  }

  lemma MakeRest(c: Cache, root: int)
    requires c.Valid() && c.Busy() <= {root}
    ensures AtRest(c, root)
  {
  }

  lemma FileKeys(c: Cache)
    requires c.Valid()
    ensures c.File().Keys == c.disk.Keys && c.cntrl.Length >= 3 && c.cntrl.Length == c.memrec.Length
  {
    assert forall b :: b in c.File() <==> b in c.disk;
  }

  lemma Twice(m: map<int, Block>, k: int, a: Block, b: Block)
    ensures m[k := a][k := b] == m[k := b]
  {
  }

  lemma Apart(m: map<int, Block>, k: int, a: Block, j: int)
    ensures m[k := a][k] == a
    ensures j != k && j in m ==> m[k := a][j] == m[j]
    ensures k in m ==> m[k := a].Keys == m.Keys
  {
  }

  /** Reading and changing one block. */
  method Change(c: Cache, root: int, wired: int, blk: int, ghost s: map<int, Block>, img: Block)
    requires c.Valid() && c.Busy() <= {root, wired} && c.File() == s && blk in s
    modifies c`lruh, c`lrut, c`queue, c`disk, c.cntrl, c.memrec
    ensures c.Valid() && c.Busy() == old(c.Busy()) && c.File() == s[blk := img] && c.Dirty(blk)
  {
    hide *;
    FileKeys(c);
    Few(c.Busy(), root, wired);
    c.Update(blk, img, 1);
  }

  /** Reading one block. */
  method Look(c: Cache, root: int, wired: int, blk: int, ghost s: map<int, Block>) returns (b: Block)
    requires c.Valid() && c.Busy() <= {root, wired} && c.File() == s && blk in s
    modifies c`lruh, c`lrut, c`queue, c`disk, c.cntrl, c.memrec
    ensures c.Valid() && c.Busy() == old(c.Busy()) && c.File() == s && b == s[blk]
    ensures wired in c.Busy() && old(c.Dirty(wired)) ==> c.Dirty(wired)
  {
    hide *;
    FileKeys(c);
    Few(c.Busy(), root, wired);
    var i := c.ReadBlock(blk);
    b := c.memrec[i];
  }

  /** Wiring a block down or releasing it. */
  method Wire(c: Cache, root: int, blk: int, busy: bool, ghost s: map<int, Block>)
    requires c.Valid() && c.Busy() <= {root, blk} && c.File() == s && blk in s
    modifies c`lruh, c`lrut, c`queue, c`disk, c.cntrl, c.memrec
    ensures c.Valid() && c.File() == s
    ensures c.Busy() == if busy then old(c.Busy()) + {blk} else old(c.Busy()) - {blk}
  {
    hide *;
    FileKeys(c);
    Few(c.Busy(), root, blk);
    c.SetBusy(blk, busy);
  }

  /** Copying from a block that is wired, or into the one that is. */
  method CopyTo(c: Cache, root: int, wired: int, t: int, f: int, ts: nat, fs: nat, n: nat, ghost s: map<int, Block>)
    requires c.Valid() && c.Busy() <= {root, wired} && c.File() == s && t in s && f in s && t != f
    requires ts + n <= ZMXKEY && fs + n <= ZMXKEY && (n > 0 || c.Dirty(t))
    requires f in c.Busy() || t == root || t == wired
    modifies c`lruh, c`lrut, c`queue, c`disk, c.cntrl, c.memrec
    ensures c.Valid() && c.File() == s[t := CopyKeys(s[t], s[f], ts, fs, n)] && c.Busy() == old(c.Busy()) - {t}
  {
    hide *;
    FileKeys(c);
    Few(c.Busy(), root, wired);
    if t == root || t == wired {
      Few(c.Busy() + {t}, root, wired);
    }
    c.CopyBlock(t, f, ts, fs, n);
  }

  /** bjoin on the cache. */
  method JoinOnCache(c: Cache, root: int, lf: int, pos: nat, l: int, r: int, k: Entry, sfreep: int,
                     ghost s: map<int, Block>)
    requires AtRest(c, root) && c.File() == s && lf in s && l in s && r in s && l != r && lf != l && lf != r
    requires pos < s[lf].nkeys <= ZMXKEY && 0 <= s[l].nkeys && 0 <= s[r].nkeys && s[l].nkeys + 1 + s[r].nkeys <= ZMXKEY
    modifies c`lruh, c`lrut, c`queue, c`disk, c.cntrl, c.memrec
    ensures AtRest(c, root)
    ensures c.File() == s[lf := RemKey(s[lf], pos)][l := JoinedLeaf(s[l], s[r], k)]
                         [r := SetInfo(s[r], ZFREE, 0, sfreep, 0, 0, ZNULL)]
  {
    hide *;
    RestFacts(c, root);
    var b := Look(c, root, root, lf, s);
    ghost var s1: map<int, Block> := s[lf := RemKey(b, pos)];
    Apart(s, lf, RemKey(b, pos), l);
    Apart(s, lf, RemKey(b, pos), r);
    Change(c, root, root, lf, s, RemKey(b, pos));
    Wire(c, root, l, true, s1);
    FillLeft(c, root, l, r, k, s1);
    ghost var joined: Block := JoinedLeaf(s[l], s[r], k);
    Apart(s1, l, joined, r);
    b := Look(c, root, l, r, s1[l := joined]);
    Change(c, root, l, r, s1[l := joined], SetInfo(b, ZFREE, 0, sfreep, 0, 0, ZNULL));
    ghost var s2: map<int, Block> := s1[l := joined][r := SetInfo(b, ZFREE, 0, sfreep, 0, 0, ZNULL)];
    Apart(s1[l := joined], r, SetInfo(b, ZFREE, 0, sfreep, 0, 0, ZNULL), l);
    Wire(c, root, l, false, s2);
    MakeRest(c, root);
  }

  /** The part of bjoin that changes the left leaf, which is wired. */
  method FillLeft(c: Cache, root: int, l: int, r: int, k: Entry, ghost s: map<int, Block>)
    requires c.Valid() && c.Busy() <= {root, l} && l in c.Busy() && c.File() == s && l in s && r in s && l != r
    requires 0 <= s[l].nkeys && 0 <= s[r].nkeys && s[l].nkeys + 1 + s[r].nkeys <= ZMXKEY
    modifies c`lruh, c`lrut, c`queue, c`disk, c.cntrl, c.memrec
    ensures c.Valid() && c.Busy() == old(c.Busy()) - {l} && c.File() == s[l := JoinedLeaf(s[l], s[r], k)]
  {
    hide *;
    var b := Look(c, root, l, l, s);
    PutCount(b, k, ZNULL, ZNULL);
    ghost var put: Block := PutKey(b, k, ZNULL, ZNULL);
    Apart(s, l, put, r);
    Change(c, root, l, l, s, PutKey(b, k, ZNULL, ZNULL));
    b := Look(c, root, l, l, s[l := put]);
    var lnkeys := b.nkeys;
    b := Look(c, root, l, r, s[l := put]);
    var rnkeys := b.nkeys;
    CopyTo(c, root, l, l, r, lnkeys, 0, rnkeys, s[l := put]);
    ghost var copied: Block := CopyKeys(put, s[r], lnkeys, 0, rnkeys);
    Twice(s, l, put, copied);
    Apart(s, l, copied, l);
    b := Look(c, root, l, l, s[l := copied]);
    Change(c, root, l, l, s[l := copied], b.(nkeys := lnkeys + rnkeys));
    JoinedIs(s[l], s[r], k);
    Twice(s, l, copied, JoinedLeaf(s[l], s[r], k));
  }

  /** bgtfre on the cache: a block of the free list, or a new one at the end of
      the file, which then holds whatever the slot held. */
  method Acquire(c: Cache, root: int, wired: int, blk: int, ghost s: map<int, Block>) returns (
                 ghost s': map<int, Block>)
    requires c.Valid() && c.Busy() <= {root, wired} && c.File() == s && 0 <= blk
    modifies c`lruh, c`lrut, c`queue, c`disk, c.cntrl, c.memrec
    ensures c.Valid() && c.Busy() == old(c.Busy()) && c.File() == s' && blk in s'
    ensures blk in s ==> s' == s
    ensures blk !in s ==> s' == s[blk := s'[blk]]
  {
    hide *;
    FileKeys(c);
    Few(c.Busy(), root, wired);
    if blk in c.disk {
      var i := c.ReadBlock(blk);
      s' := s;
    } else {
      c.Append(blk);
      s' := c.File();
    }
  }

  lemma SplitSeen(s: map<int, Block>, s0: map<int, Block>, p: int, c: int, n: int, root: int)
    requires p in s && c in s && n in s0 && p != c && n != p && n != c && 0 <= n
    requires s[c].nkeys == ZMXKEY && 0 <= s[p].nkeys < ZMXKEY
    requires (n in s ==> s0 == s) && (n !in s ==> s0 == s[n := s0[n]])
    ensures var sp := ZMXKEY / 2;
            |Keys(s[c])| == ZMXKEY &&
            SplitResult(s, s0[n := Taken(s0[n], s[c], sp + 1, ZMXKEY - sp - 1, p, root)][c := s[c].(nkeys := sp)]
                           [p := PutKey(s[p], Keys(s[c])[sp], c, n)], p, c, n)
  {
    hide Taken, PutKey, Keys, SplitResult;
    FullKeys(s[c]);
    var sp := ZMXKEY / 2;
    var s' := s0[n := Taken(s0[n], s[c], sp + 1, ZMXKEY - sp - 1, p, root)][c := s[c].(nkeys := sp)]
                [p := PutKey(s[p], Keys(s[c])[sp], c, n)];
    SplitStore(s, s0, s', p, c, n, root);
  }

  lemma RootSplitSeen(s: map<int, Block>, s1: map<int, Block>, s2: map<int, Block>, r: int, a: int, b: int)
    requires r in s && s[r].nkeys == ZMXKEY && a != r && b != r && a != b && 0 <= a && 0 <= b
    requires (a in s ==> s1 == s) && a in s1 && (a !in s ==> s1 == s[a := s1[a]])
    requires (b in s1 ==> s2 == s1) && b in s2 && (b !in s1 ==> s2 == s1[b := s2[b]])
    ensures a in s2 && |Keys(s[r])| == ZMXKEY
    ensures var sp := ZMXKEY / 2;
            RootSplitResult(s, s2[a := Taken(s2[a], s[r], 0, sp, r, r)][b := Taken(s2[b], s[r], sp + 1, ZMXKEY - sp - 1, r, r)]
                               [r := RepKey(s[r], 0, Keys(s[r])[sp], a, b).(nkeys := 1)], r, a, b)
  {
    hide Taken, RepKey, Keys, RootSplitResult;
    FullKeys(s[r]);
    var sp := ZMXKEY / 2;
    var s' := s2[a := Taken(s2[a], s[r], 0, sp, r, r)][b := Taken(s2[b], s[r], sp + 1, ZMXKEY - sp - 1, r, r)]
                [r := RepKey(s[r], 0, Keys(s[r])[sp], a, b).(nkeys := 1)];
    RootSplitStore(s, s2, s', r, a, b);
  }

  /** The non-root part of bsptbk on the cache. */
  method SplitOnCache(c: Cache, root: int, blk: int, pblk: int, newblk: int, ghost s: map<int, Block>)
    returns (ghost s0: map<int, Block>)
    requires AtRest(c, root) && c.File() == s && blk in s && pblk in s && 0 <= newblk
    requires blk != pblk && newblk != blk && newblk != pblk
    requires s[blk].nkeys == ZMXKEY && 0 <= s[pblk].nkeys < ZMXKEY
    modifies c`lruh, c`lrut, c`queue, c`disk, c.cntrl, c.memrec
    ensures AtRest(c, root)
    ensures newblk in s0 && (newblk in s ==> s0 == s) && (newblk !in s ==> s0 == s[newblk := s0[newblk]])
    ensures var sp := ZMXKEY / 2;
            |Keys(s[blk])| == ZMXKEY &&
            c.File() == s0[newblk := Taken(s0[newblk], s[blk], sp + 1, ZMXKEY - sp - 1, pblk, root)]
                          [blk := s[blk].(nkeys := sp)][pblk := PutKey(s[pblk], Keys(s[blk])[sp], blk, newblk)]
    ensures SplitResult(s, c.File(), pblk, blk, newblk)
  {
    hide *;
    RestFacts(c, root);
    FullKeys(s[blk]);
    Wire(c, root, blk, true, s);
    s0 := NewHalf(c, root, blk, pblk, newblk, s);
    ghost var taken: Block := Taken(s0[newblk], s[blk], ZMXKEY / 2 + 1, ZMXKEY - ZMXKEY / 2 - 1, pblk, root);
    Apart(s0, newblk, taken, blk);
    Apart(s0, newblk, taken, pblk);
    Promote(c, root, blk, pblk, newblk, s0[newblk := taken]);
    SplitSeen(s, s0, pblk, blk, newblk, root);
    MakeRest(c, root);
  }

  /** The new block of a split: the half that moves, with its information words. */
  method NewHalf(c: Cache, root: int, blk: int, pblk: int, newblk: int, ghost s: map<int, Block>)
    returns (ghost s0: map<int, Block>)
    requires c.Valid() && c.Busy() <= {root, blk} && blk in c.Busy() && c.File() == s && blk in s && 0 <= newblk
    requires newblk != blk
    modifies c`lruh, c`lrut, c`queue, c`disk, c.cntrl, c.memrec
    ensures c.Valid() && c.Busy() == old(c.Busy()) - {newblk}
    ensures newblk in s0 && (newblk in s ==> s0 == s) && (newblk !in s ==> s0 == s[newblk := s0[newblk]])
    ensures c.File() == s0[newblk := Taken(s0[newblk], s[blk], ZMXKEY / 2 + 1, ZMXKEY - ZMXKEY / 2 - 1, pblk, root)]
  {
    hide *;
    var sp := ZMXKEY / 2;
    var sp2 := if ZMXKEY % 2 == 0 then sp - 1 else sp;
    s0 := Acquire(c, root, blk, newblk, s);
    CopyTo(c, root, blk, newblk, blk, 0, sp + 1, sp2, s0);
    ghost var t1: Block := CopyKeys(s0[newblk], s[blk], 0, sp + 1, sp2);
    Apart(s0, newblk, t1, newblk);
    var b := Look(c, root, blk, newblk, s0[newblk := t1]);
    Change(c, root, blk, newblk, s0[newblk := t1], SetInfo(b, ZINUSE, 0, pblk, sp2, root, ZNULL));
    TakenIs(s0[newblk], s[blk], sp + 1, sp2, pblk, root);
    Twice(s0, newblk, t1, Taken(s0[newblk], s[blk], sp + 1, sp2, pblk, root));
  }

  /** The middle key goes up, and the block is cut and released. */
  method Promote(c: Cache, root: int, blk: int, pblk: int, newblk: int, ghost s: map<int, Block>)
    requires c.Valid() && c.Busy() <= {root, blk} && c.File() == s && blk in s && pblk in s && blk != pblk
    requires s[blk].nkeys == ZMXKEY && 0 <= s[pblk].nkeys < ZMXKEY
    modifies c`lruh, c`lrut, c`queue, c`disk, c.cntrl, c.memrec
    ensures c.Valid() && c.Busy() == old(c.Busy()) - {blk}
    ensures |Keys(s[blk])| == ZMXKEY
         && c.File() == s[blk := s[blk].(nkeys := ZMXKEY / 2)]
                         [pblk := PutKey(s[pblk], Keys(s[blk])[ZMXKEY / 2], blk, newblk)]
  {
    hide *;
    FullKeys(s[blk]);
    var sp := ZMXKEY / 2;
    var b := Look(c, root, blk, blk, s);
    var kep := b.key[sp];
    ghost var cut: Block := b.(nkeys := sp);
    Apart(s, blk, cut, pblk);
    Change(c, root, blk, blk, s, b.(nkeys := sp));
    b := Look(c, root, blk, pblk, s[blk := cut]);
    Change(c, root, blk, pblk, s[blk := cut], PutKey(b, kep, blk, newblk));
    Apart(s[blk := cut], pblk, PutKey(b, kep, blk, newblk), blk);
    Wire(c, root, blk, false, s[blk := cut][pblk := PutKey(b, kep, blk, newblk)]);
  }

  lemma FullKeys(b: Block)
    requires b.nkeys == ZMXKEY
    ensures |Keys(b)| == ZMXKEY && (forall i :: 0 <= i < ZMXKEY ==> Keys(b)[i] == b.key[i])
  {
  }

  /** The root part of bsptbk on the cache. */
  method SplitRootOnCache(c: Cache, root: int, blk1: int, blk2: int, ghost s: map<int, Block>)
    returns (ghost s1: map<int, Block>, ghost s2: map<int, Block>)
    requires AtRest(c, root) && c.File() == s && root in s && 0 <= blk1 && 0 <= blk2
    requires blk1 != root && blk2 != root && blk1 != blk2
    requires s[root].nkeys == ZMXKEY
    modifies c`lruh, c`lrut, c`queue, c`disk, c.cntrl, c.memrec
    ensures AtRest(c, root)
    ensures (blk1 in s ==> s1 == s) && blk1 in s1 && (blk1 !in s ==> s1 == s[blk1 := s1[blk1]])
    ensures (blk2 in s1 ==> s2 == s1) && blk2 in s2 && (blk2 !in s1 ==> s2 == s1[blk2 := s2[blk2]])
    ensures var sp := ZMXKEY / 2;
            |Keys(s[root])| == ZMXKEY && blk1 in s2 &&
            c.File() == s2[blk1 := Taken(s2[blk1], s[root], 0, sp, root, root)]
                          [blk2 := Taken(s2[blk2], s[root], sp + 1, ZMXKEY - sp - 1, root, root)]
                          [root := RepKey(s[root], 0, Keys(s[root])[sp], blk1, blk2).(nkeys := 1)]
    ensures RootSplitResult(s, c.File(), root, blk1, blk2)
  {
    hide *;
    RestFacts(c, root);
    FullKeys(s[root]);
    s1 := Acquire(c, root, root, blk1, s);
    s2 := Acquire(c, root, root, blk2, s1);
    CopyHalves(c, root, blk1, blk2, s2);
    ghost var a: Block := Taken(s2[blk1], s[root], 0, ZMXKEY / 2, root, root);
    ghost var b: Block := Taken(s2[blk2], s[root], ZMXKEY / 2 + 1, ZMXKEY - ZMXKEY / 2 - 1, root, root);
    Apart(s2, blk1, a, root);
    Apart(s2[blk1 := a], blk2, b, root);
    SoleKey(c, root, blk1, blk2, s2[blk1 := a][blk2 := b]);
    RootSplitSeen(s, s1, s2, root, blk1, blk2);
    MakeRest(c, root);
  }

  /** Both halves of the root go to new blocks. */
  method CopyHalves(c: Cache, root: int, blk1: int, blk2: int, ghost s: map<int, Block>)
    requires c.Valid() && c.Busy() <= {root} && c.File() == s && root in s && blk1 in s && blk2 in s
    requires blk1 != root && blk2 != root && blk1 != blk2
    modifies c`lruh, c`lrut, c`queue, c`disk, c.cntrl, c.memrec
    ensures c.Valid() && c.Busy() <= {root}
    ensures c.File() == s[blk1 := Taken(s[blk1], s[root], 0, ZMXKEY / 2, root, root)]
                         [blk2 := Taken(s[blk2], s[root], ZMXKEY / 2 + 1, ZMXKEY - ZMXKEY / 2 - 1, root, root)]
  {
    hide *;
    var sp := ZMXKEY / 2;
    var sp2 := if ZMXKEY % 2 == 0 then sp - 1 else sp;
    CopyTo(c, root, blk1, blk1, root, 0, 0, sp, s);
    ghost var a: Block := CopyKeys(s[blk1], s[root], 0, 0, sp);
    Apart(s, blk1, a, blk2);
    Apart(s, blk1, a, root);
    CopyTo(c, root, blk2, blk2, root, 0, sp + 1, sp2, s[blk1 := a]);
    ghost var b: Block := CopyKeys(s[blk2], s[root], 0, sp + 1, sp2);
    FillInfos(c, root, blk1, blk2, sp, sp2, s, a, b, s[blk1 := a][blk2 := b]);
    TakenIs(s[blk1], s[root], 0, sp, root, root);
    TakenIs(s[blk2], s[root], sp + 1, sp2, root, root);
  }

  /** The middle key stays alone in the root. */
  method SoleKey(c: Cache, root: int, blk1: int, blk2: int, ghost s: map<int, Block>)
    requires c.Valid() && c.Busy() <= {root} && c.File() == s && root in s && s[root].nkeys == ZMXKEY
    modifies c`lruh, c`lrut, c`queue, c`disk, c.cntrl, c.memrec
    ensures c.Valid() && c.Busy() <= {root}
    ensures |Keys(s[root])| == ZMXKEY
         && c.File() == s[root := RepKey(s[root], 0, Keys(s[root])[ZMXKEY / 2], blk1, blk2).(nkeys := 1)]
  {
    hide *;
    FullKeys(s[root]);
    var sp := ZMXKEY / 2;
    var b := Look(c, root, root, root, s);
    ghost var r: Block := RepKey(b, 0, b.key[sp], blk1, blk2);
    Change(c, root, root, root, s, RepKey(b, 0, b.key[sp], blk1, blk2));
    Apart(s, root, r, root);
    b := Look(c, root, root, root, s[root := r]);
    Change(c, root, root, root, s[root := r], b.(nkeys := 1));
    Twice(s, root, r, r.(nkeys := 1));
  }

  /** The information words of the two new halves. */
  method FillInfos(c: Cache, root: int, blk1: int, blk2: int, n1: int, n2: int, ghost s: map<int, Block>,
                   ghost a: Block, ghost b: Block, ghost s': map<int, Block>)
    requires c.Valid() && c.Busy() <= {root} && c.File() == s' && blk1 in s && blk2 in s && blk1 != blk2
    requires s' == s[blk1 := a][blk2 := b]
    modifies c`lruh, c`lrut, c`queue, c`disk, c.cntrl, c.memrec
    ensures c.Valid() && c.Busy() == old(c.Busy())
    ensures c.File() == s[blk1 := SetInfo(a, ZINUSE, 0, root, n1, root, ZNULL)]
                         [blk2 := SetInfo(b, ZINUSE, 0, root, n2, root, ZNULL)]
  {
    hide *;
    Apart(s, blk1, a, blk2);
    Apart(s[blk1 := a], blk2, b, blk1);
    Apart(s, blk1, a, blk1);
    var x := Look(c, root, root, blk1, s');
    ghost var a': Block := SetInfo(a, ZINUSE, 0, root, n1, root, ZNULL);
    Change(c, root, root, blk1, s', SetInfo(x, ZINUSE, 0, root, n1, root, ZNULL));
    Swap(s, blk1, a, blk2, b, a');
    ghost var s1: map<int, Block> := s[blk1 := a'][blk2 := b];
    Apart(s[blk1 := a'], blk2, b, blk2);
    x := Look(c, root, root, blk2, s1);
    Change(c, root, root, blk2, s1, SetInfo(x, ZINUSE, 0, root, n2, root, ZNULL));
    Twice(s[blk1 := a'], blk2, b, SetInfo(b, ZINUSE, 0, root, n2, root, ZNULL));
  }

  lemma Swap(m: map<int, Block>, k: int, a: Block, j: int, b: Block, a': Block)
    requires j != k
    ensures m[k := a][j := b][k := a'] == m[k := a'][j := b]
    ensures m[k := a][j := b][j] == b && m[k := a][j := b][k] == a
  {
  }

  /** bdemte on the cache, for a block that is not the root and a sister with room. */
  method DemoteOnCache(c: Cache, root: int, cblk: int, lf: int, pos: nat, link1: int, link2: int, kep: Entry,
                       rblke: bool,
                       sfreep: int, ghost s: map<int, Block>)
    requires AtRest(c, root) && c.File() == s && lf in s && link1 in s && link2 in s
    requires link1 != link2 && lf != link1 && lf != link2 && pos < s[lf].nkeys <= ZMXKEY
    requires 0 <= s[link1].nkeys <= ZMXKEY && 0 <= s[link2].nkeys <= ZMXKEY
    requires 0 < s[if rblke then link1 else link2].nkeys < ZMXKEY
    modifies c`lruh, c`lrut, c`queue, c`disk, c.cntrl, c.memrec
    ensures AtRest(c, root)
    ensures c.File() == s[lf := RemKey(s[lf], pos)][link1 := DemotedBlock(s[link1], s[link2], kep, rblke, cblk)]
                         [link2 := SetInfo(s[link2], ZFREE, 0, sfreep, 0, 0, ZNULL)]
  {
    hide *;
    RestFacts(c, root);
    DemotedIs(s[link1], s[link2], kep, rblke, cblk);
    var b := Look(c, root, root, lf, s);
    ghost var s1: map<int, Block> := s[lf := RemKey(b, pos)];
    Apart(s, lf, RemKey(b, pos), link1);
    Apart(s, lf, RemKey(b, pos), link2);
    Change(c, root, root, lf, s, RemKey(b, pos));
    b := Look(c, root, root, if rblke then link1 else link2, s1);
    ghost var taken: Block := s[link1];
    ghost var s2: map<int, Block> := s1;
    if !rblke {
      var nkeys := b.nkeys;
      Wire(c, root, link1, true, s1);
      CopyTo(c, root, link1, link1, link2, 0, 0, nkeys, s1);
      ghost var copied: Block := CopyKeys(s[link1], s[link2], 0, 0, nkeys);
      Apart(s1, link1, copied, link1);
      b := Look(c, root, link1, link1, s1[link1 := copied]);
      Change(c, root, link1, link1, s1[link1 := copied], b.(nkeys := nkeys));
      taken := copied.(nkeys := nkeys);
      Twice(s1, link1, copied, taken);
      s2 := s1[link1 := taken];
      Apart(s1, link1, taken, link1);
      Wire(c, root, link1, false, s2);
    }
    b := Look(c, root, root, link1, s2);
    var llink := if rblke then ZNULL else cblk;
    var rlink := if rblke then cblk else ZNULL;
    Change(c, root, root, link1, s2, PutKey(b, kep, llink, rlink));
    ghost var demoted: Block := DemotedBlock(s[link1], s[link2], kep, rblke, cblk);
    Twice(s1, link1, taken, demoted);
    Apart(s1, link1, demoted, link2);
    b := Look(c, root, root, link2, s1[link1 := demoted]);
    Change(c, root, root, link2, s1[link1 := demoted], SetInfo(b, ZFREE, 0, sfreep, 0, 0, ZNULL));
    MakeRest(c, root);
  }

  /** bdemte on the cache, for an empty root: the copy also releases the root. */
  method CollapseOnCache(c: Cache, root: int, cblk: int, sfreep: int, ghost s: map<int, Block>)
    requires AtRest(c, root) && c.File() == s && root in s && cblk in s && cblk != root && 0 < s[cblk].nkeys <= ZMXKEY
    modifies c`lruh, c`lrut, c`queue, c`disk, c.cntrl, c.memrec
    ensures AtRest(c, root) && root !in c.Busy()
    ensures c.File() == s[root := CopyKeys(s[root], s[cblk], 0, 0, s[cblk].nkeys).(nkeys := s[cblk].nkeys)]
                         [cblk := SetInfo(s[cblk], ZFREE, 0, sfreep, 0, 0, ZNULL)]
  {
    hide *;
    RestFacts(c, root);
    var b := Look(c, root, root, cblk, s);
    var nkeys := b.nkeys;
    CopyTo(c, root, root, root, cblk, 0, 0, nkeys, s);
    ghost var copied: Block := CopyKeys(s[root], s[cblk], 0, 0, nkeys);
    Apart(s, root, copied, root);
    b := Look(c, root, root, root, s[root := copied]);
    Change(c, root, root, root, s[root := copied], b.(nkeys := nkeys));
    ghost var taken: Block := copied.(nkeys := nkeys);
    Twice(s, root, copied, taken);
    Apart(s, root, taken, cblk);
    b := Look(c, root, root, cblk, s[root := taken]);
    Change(c, root, root, cblk, s[root := taken], SetInfo(b, ZFREE, 0, sfreep, 0, 0, ZNULL));
    MakeRest(c, root);
  }

  // ---------------------------------------------------------------------
  // The tree layer on the cache
  // ---------------------------------------------------------------------

  /** The cache shows the index's blocks, and has the same ones wired. */
  ghost predicate Backs(c: Cache, ix: Index)
    reads c, c.cntrl, c.memrec, ix`store, ix`busy
  {
    c.Valid() && c.File() == ix.store && c.Busy() == ix.busy
  }

  /** What every access of the tree layer asks for is what the cache needs: a slot
      for a block that is not in memory. */
  lemma Serves(c: Cache, ix: Index, blk: int)
    requires Backs(c, ix) && blk in ix.store && (Calm(ix) || Wide(ix) || blk in ix.busy)
    ensures c.Valid() && blk in c.disk && c.File() == ix.store && c.Busy() == ix.busy
    ensures c.Resident(blk) || |c.Busy()| < c.cntrl.Length
  {
    hide *;
    BacksFacts(c, ix);
    FileKeys(c);
    assert blk in c.File().Keys;
    if Calm(ix) {
      CalmWide(ix);
    }
    WideIs(ix);
    BusyResident(c.cntrl[..], c.memrec[..], c.disk, blk);
    InMemory(c, blk);
  }

  lemma BacksFacts(c: Cache, ix: Index)
    ensures Backs(c, ix) <==> c.Valid() && c.File() == ix.store && c.Busy() == ix.busy
    ensures Backs(c, ix) ==> SlotsOK(c.cntrl[..], c.memrec[..], c.disk) && c.Busy() == Wired(c.cntrl[..])
  {
    hide Lru.Chain, Lru.Full, SlotsOK, Caching.View, Wired;
  }

  lemma WideIs(ix: Index)
    ensures Wide(ix) <==> |ix.busy| <= 2
  {
  }

  lemma InMemory(c: Cache, blk: int)
    ensures c.Resident(blk) <==> Where(c.cntrl[..], blk) < c.cntrl.Length
  {
  }

  /** Context.Read on the cache. */
  method ServeRead(c: Cache, ix: Index, blk: int) returns (b: Block)
    requires Backs(c, ix) && blk in ix.store && (Calm(ix) || Wide(ix) || blk in ix.busy)
    modifies c`lruh, c`lrut, c`queue, c`disk, c.cntrl, c.memrec
    ensures Backs(c, ix) && b == ix.store[blk]
  {
    hide *;
    Serves(c, ix, blk);
    var i := c.ReadBlock(blk);
    FileKeys(c);
    b := c.memrec[i];
    BacksFacts(c, ix);
  }

  /** Context.SetBusy on the cache. */
  method ServeWire(c: Cache, ix: Index, blk: int, on: bool)
    requires Backs(c, ix) && blk in ix.store && (Calm(ix) || Wide(ix) || blk in ix.busy)
    modifies c`lruh, c`lrut, c`queue, c`disk, c.cntrl, c.memrec, ix`busy
    ensures Backs(c, ix) && ix.busy == if on then old(ix.busy) + {blk} else old(ix.busy) - {blk}
  {
    hide *;
    Serves(c, ix, blk);
    c.SetBusy(blk, on);
    Context.SetBusy(ix, blk, on);
    BacksFacts(c, ix);
  }

  /** A change of one block, as by Context.Put, Remove, Replace, SetCount and
      SetBlock, on the cache. */
  method ServeChange(c: Cache, ix: Index, blk: int, img: Block)
    requires Backs(c, ix) && blk in ix.store && (Calm(ix) || Wide(ix) || blk in ix.busy)
    modifies c`lruh, c`lrut, c`queue, c`disk, c.cntrl, c.memrec, ix`store
    ensures Backs(c, ix) && ix.store == old(ix.store)[blk := img] && c.Dirty(blk)
  {
    hide *;
    Serves(c, ix, blk);
    c.Update(blk, img, 1);
    ix.store := ix.store[blk := img];
    BacksFacts(c, ix);
  }

  /** Context.Copy on the cache.  Copying no keys is only safe into a slot that
      already has changes, or when it changes nothing. */
  method ServeCopy(c: Cache, ix: Index, t: int, f: int, ts: nat, fs: nat, n: nat)
    requires Backs(c, ix) && t in ix.store && f in ix.store && t != f && ts + n <= ZMXKEY && fs + n <= ZMXKEY
    requires Calm(ix) || (Wide(ix) && (t in ix.busy || f in ix.busy))
    modifies c`lruh, c`lrut, c`queue, c`disk, c.cntrl, c.memrec, ix`store, ix`busy
    ensures Backs(c, ix) <==> n > 0 || old(c.Dirty(t)) || old(ix.store[t]).link[ts] == old(ix.store[f]).link[fs]
    ensures ix.store == old(ix.store)[t := CopyKeys(old(ix.store[t]), old(ix.store[f]), ts, fs, n)]
    ensures c.cntrl.Length == c.memrec.Length && c.File() == ix.store && c.Busy() == ix.busy == old(ix.busy) - {t}
  {
    hide *;
    Serves(c, ix, t);
    Serves(c, ix, f);
    FileKeys(c);
    CopyWide(ix, t, f);
    BacksFacts(c, ix);
    c.CopyBlock(t, f, ts, fs, n);
    Context.Copy(ix, t, f, ts, fs, n);
    BacksFacts(c, ix);
  }

  lemma CopyWide(ix: Index, t: int, f: int)
    requires Calm(ix) || (Wide(ix) && (t in ix.busy || f in ix.busy))
    ensures f in ix.busy || |ix.busy + {t}| <= 2
  {
    if Calm(ix) {
      Few(ix.busy + {t}, ix.scroot, t);
    } else if t in ix.busy {
      assert ix.busy + {t} == ix.busy;
    }
  }
}
