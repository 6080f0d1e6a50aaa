/** Which blocks a repair fills: in a base tree without full non-leaf blocks,
    a repair along the path towards the deleted key fills only blocks on the
    key's route. */
module Filling {
  import opened Constants
  import opened Blocks
  import opened Seqs
  import opened Trees
  import opened Paths
  import opened Orders
  import opened Split
  import opened Routes
  import opened Find
  import opened Repair

  /** The full non-leaf blocks below the hole are on the route of the key. */
  ghost predicate Filled(sb: Store, s: Store, root: int, H: nat, fs: seq<Frame>, key: int) {
    && Aimed(sb, root, H, fs, key) && |fs| <= H
    && var g, h := Target(sb, root, fs), H - |fs|;
       FullOn(s, Blks(s, g, h), Route(s, g, h, key))
  }

  /** The same for a whole tree. */
  ghost predicate Routed(s: Store, root: int, H: nat, key: int) {
    FullOn(s, Blks(s, root, H), Route(s, root, H, key))
  }

  lemma FilledFacts(sb: Store, s: Store, root: int, H: nat, fs: seq<Frame>, key: int)
    requires Filled(sb, s, root, H, fs, key)
    ensures Aimed(sb, root, H, fs, key) && |fs| <= H && PathOK(sb, root, H, fs)
    ensures var g, h := Target(sb, root, fs), H - |fs|; FullOn(s, Blks(s, g, h), Route(s, g, h, key))
  {
  }

  lemma MakeFilled(sb: Store, s: Store, root: int, H: nat, fs: seq<Frame>, key: int)
    requires Aimed(sb, root, H, fs, key) && |fs| <= H
    requires var g, h := Target(sb, root, fs), H - |fs|; FullOn(s, Blks(s, g, h), Route(s, g, h, key))
    ensures Filled(sb, s, root, H, fs, key)
  {
  }

  lemma RoutedIs(s: Store, root: int, H: nat, key: int)
    ensures Routed(s, root, H, key) <==> FullOn(s, Blks(s, root, H), Route(s, root, H, key))
  {
  }

  lemma {:induction false} InLeaves(s: Store, ls: seq<int>, x: int)
    requires KidsOK(s, ls, 0) && x in BlksOf(s, ls, 0)
    ensures x in s && s[x].link[0] == ZNULL
    decreases |ls|
  {
    var n := |ls| - 1;
    if x in BlksOf(s, ls[..n], 0) {
      assert forall i :: 0 <= i < n ==> ls[..n][i] == ls[i];
      InLeaves(s, ls[..n], x);
    } else {
      assert KidOK(s, ls[n], 0);
      FirstNull(s, ls[n]);
    }
  }

  lemma FirstNull(s: Store, b: int)
    requires NodeOK(s, b, 0)
    ensures b in s && (s[b].nkeys > 0 ==> s[b].link[0] == ZNULL)
  {
    assert Links(s[b])[0] == s[b].link[0];
  }

  /** At a leaf, or just above the leaves, there is nothing to fill but the block
      itself. */
  lemma FullLow(s: Store, g: int, h: nat)
    requires NodeOK(s, g, h) && h <= 1 && g in s && (h == 1 ==> s[g].nkeys < ZMXKEY)
    ensures FullOn(s, Blks(s, g, h), {})
  {
    hide NodeOK, KidsOK;
    NodeKids(s, g, h);
    BlksNode(s, g, h);
    if h == 0 {
      FirstNull(s, g);
    } else {
      forall x | x in BlksOf(s, Links(s[g]), 0)
        ensures x in s && s[x].link[0] == ZNULL
      {
        InLeaves(s, Links(s[g]), x);
      }
    }
  }

  lemma FullMore(s: Store, m: multiset<int>, a: set<int>, b: set<int>)
    requires FullOn(s, m, a) && a <= b
    ensures FullOn(s, m, b)
  {
  }

  lemma FilledLow(sb: Store, s: Store, root: int, H: nat, fs: seq<Frame>, w: seq<Entry>, freed: multiset<int>, key: int)
    requires Hole(sb, s, root, H, fs, w, freed) && Aimed(sb, root, H, fs, key)
    requires H <= |fs| + 1
    requires var g := Target(sb, root, fs); g in s && (|fs| < H ==> s[g].nkeys < ZMXKEY)
    ensures Filled(sb, s, root, H, fs, key)
  {
    hide *;
    HoleFacts(sb, s, root, H, fs, w, freed);
    var g, h := Target(sb, root, fs), H - |fs|;
    FullLow(s, g, h);
    FullMore(s, Blks(s, g, h), {}, Route(s, g, h, key));
    MakeFilled(sb, s, root, H, fs, key);
  }

  /** Outside the hole nothing changed, so nothing is full. */
  lemma FullOutside(sb: Store, s: Store, all: multiset<int>, m: multiset<int>, mb: multiset<int>, g: multiset<int>,
                    gb: multiset<int>, freed: multiset<int>, road: set<int>)
    requires SlackBut(sb, all, ZNULL) && ZNULL !in sb && Unique(all) && mb <= all
    requires m + freed == mb && g + freed == gb
    requires Off(sb, s, mb, gb)
    requires FullOn(s, g, road)
    ensures FullOn(s, m, road)
  {
    forall x | x in m && x in s && s[x].link[0] != ZNULL && s[x].nkeys >= ZMXKEY
      ensures x in road
    {
      assert (m + freed)[x] == mb[x] <= all[x] <= 1;
      assert (g + freed)[x] == gb[x];
    }
  }

  /** Closing the hole: what is full is on the route from the root. */
  lemma CloseRouted(sb: Store, s: Store, root: int, H: nat, fs: seq<Frame>, w: seq<Entry>, freed: multiset<int>,
                    key: int)
    requires Hole(sb, s, root, H, fs, w, freed) && SlackBut(sb, Blks(sb, root, H), ZNULL) && ZNULL !in sb
    requires Filled(sb, s, root, H, fs, key)
    requires var g := Target(sb, root, fs); g in s && (s[g].nkeys >= 1 || H == 0)
    ensures Routed(s, root, H, key)
  {
    hide *;
    FilledFacts(sb, s, root, H, fs, key);
    HoleFacts(sb, s, root, H, fs, w, freed);
    Close(sb, s, root, H, fs, w, freed);
    var g, h := Target(sb, root, fs), H - |fs|;
    Plug(sb, s, root, H, fs);
    AimedFacts(sb, root, H, fs, key);
    MakeAimed(s, root, H, fs, key);
    RouteThrough(s, root, H, fs, key);
    FullMore(s, Blks(s, g, h), Route(s, g, h, key), Route(s, root, H, key));
    FullOutside(sb, s, Blks(sb, root, H), Blks(s, root, H), Blks(sb, root, H), Blks(s, g, h), Blks(sb, g, h), freed,
                Route(s, root, H, key));
    RoutedIs(s, root, H, key);
  }

  /** Where the demoted key's new block sends the deleted key. */
  lemma DemotedTowards(b: Block, ks: seq<Entry>, ls: seq<int>, k: Entry, orphan: int, right: bool, key: int)
    requires |ls| == |ks| + 1
    requires Keys(b) == if right then ks + [k] else [k] + ks
    requires Links(b) == if right then ls + [orphan] else [orphan] + ls
    requires right ==> AllBelow(ks, k.key) && k.key < key
    requires !right ==> AllAbove(ks, k.key) && key < k.key
    ensures Towards(b, key) == orphan
  {
    hide Keys, Links;
    var i := if right then |ks| + 1 else 0;
    LiveCounts(b);
    if right {
      assert Keys(b)[..i] == ks + [k] && Keys(b)[i..] == [];
    } else {
      assert Keys(b)[..0] == [] && Keys(b)[0..] == [k] + ks;
    }
    TowardsAt(b, key, i);
  }

  /** The parent without the demoted key sends the deleted key to the merged block. */
  lemma ParentTowards(b: Block, b': Block, i: nat, pos: nat, l: int, key: int)
    requires i < b.nkeys <= ZMXKEY && b' == RemKey(b, i) && Links(b)[i] == l && (pos == i || pos == i + 1)
    requires AllBelow(Keys(b)[..pos], key) && AllAbove(Keys(b)[pos..], key)
    ensures Towards(b', key) == l
  {
    hide RemKey;
    MergedLinks(b, i, l);
    var ks := Keys(b);
    Unit(ks[..i]);
    assert Keys(b')[..i] == ks[..i] && Keys(b')[i..] == ks[i + 1..];
    assert forall j :: 0 <= j < i ==> ks[..i][j] == ks[..pos][j];
    var above := ks[i + 1..];
    forall j | 0 <= j < |above|
      ensures key < above[j].key
    {
      assert above[j] == ks[pos..][j + i + 1 - pos];
    }
    TowardsAt(b', key, i);
  }

  /** A merge fills at most the merged block, which is on the route. */
  lemma FullMerged(s: Store, s': Store, m: multiset<int>, m': multiset<int>, p: int, l: int, r: int, g: int,
                   below: set<int>, road: set<int>)
    requires FullOn(s, m, {g} + below) && m' + multiset{r} == m && Unique(m)
    requires forall x :: x in s' && x != p && x != l && x != r ==> x in s && s'[x] == s[x]
    requires road >= {p, l} + below && (g == l || g == r)
    ensures FullOn(s', m', road)
  {
    forall x | x in m' && x in s' && s'[x].link[0] != ZNULL && s'[x].nkeys >= ZMXKEY
      ensures x in road
    {
      assert (m' + multiset{r})[x] == m[x] <= 1;
    }
  }

  /** A demotion keeps the filled blocks on the route, one frame up. */
  lemma FilledUp(sb: Store, s: Store, s': Store, root: int, H: nat, fs: seq<Frame>, w: seq<Entry>, freed: multiset<int>,
                 i: nat, l: int, r: int, k: Entry, orphan: int, key: int)
    requires Hole(sb, s, root, H, fs, w, freed) && SlackBut(sb, Blks(sb, root, H), ZNULL) && ZNULL !in sb
    requires 0 < |fs| < H && Filled(sb, s, root, H, fs, key)
    requires var f, hp := fs[|fs| - 1], H - |fs| + 1;
             && LoosePair(s, f.blk, hp, i, l, r, k) && Merged(s, s', f.blk, i, l, r, k, hp - 1)
             && Sorted(Ents(s, f.blk, hp)) && (f.pos == i || f.pos == i + 1)
             && (forall x :: x in s' ==> x in s)
             && var g, o, right := if f.pos == i then l else r, if f.pos == i then r else l, f.pos == i + 1;
                && g == Target(sb, root, fs)
                && g in s && s[g].nkeys == 0 && Links(s[g]) == [orphan]
                && o in s && l in s'
                && Keys(s'[l]) == (if right then Keys(s[o]) + [k] else [k] + Keys(s[o]))
                && Links(s'[l]) == (if right then Links(s[o]) + [orphan] else [orphan] + Links(s[o]))
    ensures Filled(sb, s', root, H, fs[..|fs| - 1], key)
  {
    hide *;
    var front, f, hp := fs[..|fs| - 1], fs[|fs| - 1], H - |fs| + 1;
    var p, right := f.blk, f.pos == i + 1;
    var g, o := if right then r else l, if right then l else r;
    FilledFacts(sb, s, root, H, fs, key);
    HoleFacts(sb, s, root, H, fs, w, freed);
    Lift(sb, s, root, H, fs, w, freed);
    PathStep(sb, root, H, fs);
    PathTarget(sb, root, H, front);
    PairFacts(s, p, hp, i, l, r, k);
    PairApart(s, p, hp, i, l, r, k);
    MergedFacts(s, s', p, i, l, r, k, hp - 1);
    MergeStep(s, s', p, hp, i, l, r, k);
    AimedUp(sb, root, H, fs, key);
    NeighboursOpen(s, p, i, l, r, k);
    ParentTowards(s[p], s'[p], i, f.pos, l, key);
    KeyBeside(Keys(s[p]), i, f.pos, key);
    LiveCounts(s[o]);
    DemotedTowards(s'[l], Keys(s[o]), Links(s[o]), k, orphan, right, key);
    // what is full below the parent before and after
    EmptyNode(s, g, hp - 1, orphan);
    EmptyTowards(s[g], orphan, key);
    RouteNode(s, g, hp - 1, key);
    var below := Route(s, orphan, hp - 2, key);
    FullOutside(sb, s, Blks(sb, root, H), Blks(s, p, hp), Blks(sb, p, hp), Blks(s, g, hp - 1), Blks(sb, g, hp - 1),
                freed, {g} + below);
    OrphanSame(s, s', p, l, r, g, o, orphan, hp);
    KidNode(s, orphan, hp - 2);
    RouteFrame(s, s', orphan, hp - 2, key);
    RouteNode(s', p, hp, key);
    RouteNode(s', l, hp - 1, key);
    UniquePart(Blks(sb, p, hp), Blks(sb, root, H));
    UniqueLess(Blks(s, p, hp), freed, Blks(sb, p, hp));
    OutsidePair(s, s', p, i, l, r, k, hp - 1);
    FullMerged(s, s', Blks(s, p, hp), Blks(s', p, hp), p, l, r, g, below, Route(s', p, hp, key));
    MakeFilled(sb, s', root, H, front, key);
  }

  lemma OutsidePair(s: Store, s': Store, p: int, i: nat, l: int, r: int, k: Entry, hc: nat)
    requires Merged(s, s', p, i, l, r, k, hc) && (forall x :: x in s' ==> x in s)
    ensures forall x :: x in s' && x != p && x != l && x != r ==> x in s && s'[x] == s[x]
  {
    hide Ents, Blks, KidOK;
  }

  lemma NeighboursOpen(s: Store, p: int, i: nat, l: int, r: int, k: Entry)
    requires Neighbours(s, p, i, l, r, k)
    ensures p in s && i < s[p].nkeys <= ZMXKEY && |Keys(s[p])| == s[p].nkeys && |Links(s[p])| == s[p].nkeys + 1
    ensures Links(s[p])[i] == l && Links(s[p])[i + 1] == r && Keys(s[p])[i] == k
  {
  }

  lemma KeyBeside(ks: seq<Entry>, i: nat, pos: nat, key: int)
    requires i < |ks| && (pos == i || pos == i + 1)
    requires AllBelow(ks[..pos], key) && AllAbove(ks[pos..], key)
    ensures pos == i + 1 ==> ks[i].key < key
    ensures pos == i ==> key < ks[i].key
  {
    if pos == i {
      assert ks[pos..][0] == ks[i];
    } else {
      assert ks[..pos][i] == ks[i];
    }
  }

  lemma EmptyTowards(b: Block, orphan: int, key: int)
    requires b.nkeys == 0 && Links(b) == [orphan]
    ensures Towards(b, key) == orphan
  {
  }

  /** What hangs below an empty block does not change with the pair. */
  lemma OrphanSame(s: Store, s': Store, p: int, l: int, r: int, g: int, o: int, orphan: int, hp: nat)
    requires hp > 1 && Unique(multiset{p} + (Blks(s, l, hp - 1) + Blks(s, r, hp - 1)))
    requires (g == l && o == r) || (g == r && o == l)
    requires KidOK(s, orphan, hp - 2) && Blks(s, g, hp - 1) == multiset{g} + Blks(s, orphan, hp - 2)
    requires o in s
    requires forall x :: x in s && x != p && x != l && x != r ==> x in s' && s'[x] == s[x]
    ensures Same(s, s', Blks(s, orphan, hp - 2)) && orphan in s
  {
    hide *;
    KidNode(s, orphan, hp - 2);
    NodeKids(s, orphan, hp - 2);
    BlksNode(s, o, hp - 1);
    OrphanArith(p, g, o, Blks(s, orphan, hp - 2), Blks(s, o, hp - 1), Blks(s, l, hp - 1) + Blks(s, r, hp - 1));
    OrphanStore(s, s', p, l, r, orphan, hp - 2);
  }

  lemma OrphanArith(p: int, g: int, o: int, mo: multiset<int>, mr: multiset<int>, both: multiset<int>)
    requires Unique(multiset{p} + both) && both == multiset{g} + mo + mr && o in mr
    ensures p !in mo && g !in mo && o !in mo
  {
    assert (multiset{p} + both)[p] <= 1 && (multiset{p} + both)[g] <= 1 && (multiset{p} + both)[o] <= 1;
  }

  lemma OrphanStore(s: Store, s': Store, p: int, l: int, r: int, b: int, h: nat)
    requires NodeOK(s, b, h) && p !in Blks(s, b, h) && l !in Blks(s, b, h) && r !in Blks(s, b, h)
    requires forall x :: x in s && x != p && x != l && x != r ==> x in s' && s'[x] == s[x]
    ensures Same(s, s', Blks(s, b, h))
  {
    hide NodeOK, Blks;
    forall x | x in Blks(s, b, h)
      ensures x in s
    {
      BlksAllocated(s, b, h, x);
    }
  }

  /** The root takes over its only child: the route loses one block. */
  lemma CollapseRouted(s: Store, s': Store, root: int, H: nat, child: int, key: int)
    requires H > 0 && NodeOK(s, root, H) && Unique(Blks(s, root, H))
    requires s[root].nkeys == 0 && Links(s[root]) == [child] && child in s && root in s'
    requires Keys(s'[root]) == Keys(s[child]) && Links(s'[root]) == Links(s[child])
    requires forall x :: x in s && x != root && x != child ==> x in s' && s'[x] == s[x]
    requires forall x :: x in s' ==> x in s
    requires Blks(s', root, H - 1) + multiset{child} == Blks(s, root, H)
    requires Routed(s, root, H, key)
    ensures Routed(s', root, H - 1, key)
  {
    hide *;
    RoutedIs(s, root, H, key);
    RoutedIs(s', root, H - 1, key);
    NodeKids(s, root, H);
    EmptyNode(s, root, H, child);
    EmptyTowards(s[root], child, key);
    RouteNode(s, root, H, key);
    RouteNode(s, child, H - 1, key);
    RouteNode(s', root, H - 1, key);
    SameTowards(s[child], s'[root], key);
    var below := if H > 1 then Route(s, Towards(s[child], key), H - 2, key) else {};
    if H > 1 {
      KidNode(s, child, H - 1);
      NodeKids(s, child, H - 1);
      BlksNode(s, child, H - 1);
      CollapseSame(s, s', root, child, H, BlksOf(s, Links(s[child]), H - 2));
      TowardsIs(s[child], key);
      var ls, q := Links(s[child]), PutPos(Keys(s[child]), key);
      KidIn(s, ls, H - 2, q);
      BlksIn(s, ls, H - 2, q);
      SameLess(s, s', Blks(s, ls[q], H - 2), BlksOf(s, ls, H - 2));
      RouteFrame(s, s', ls[q], H - 2, key);
    }
    assert Route(s, root, H, key) == {root} + ({child} + below);
    assert Route(s', root, H - 1, key) == {root} + below;
    FullCollapsed(s, s', Blks(s, root, H), Blks(s', root, H - 1), root, child, below);
  }

  lemma SameTowards(b: Block, b': Block, key: int)
    requires Keys(b') == Keys(b) && Links(b') == Links(b)
    ensures Towards(b', key) == Towards(b, key)
  {
  }

  lemma FullCollapsed(s: Store, s': Store, m: multiset<int>, m': multiset<int>, root: int, child: int, below: set<int>)
    requires FullOn(s, m, {root} + ({child} + below)) && m' + multiset{child} == m && Unique(m)
    requires forall x :: x in s && x != root && x != child ==> x in s' && s'[x] == s[x]
    requires forall x :: x in s' ==> x in s
    ensures FullOn(s', m', {root} + below)
  {
    forall x | x in m' && x in s' && s'[x].link[0] != ZNULL && s'[x].nkeys >= ZMXKEY
      ensures x in {root} + below
    {
      assert (m' + multiset{child})[x] == m[x] <= 1;
    }
  }
}
