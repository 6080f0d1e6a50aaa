/** Whole runs: any sequence of finds, inserts and deletes behaves like a map,
    and any mix of cursor steps like an index into a sorted list. */
module Session {
  import opened Constants
  import opened Blocks
  import opened Seqs
  import opened Trees
  import opened Paths
  import opened Orders
  import opened Context
  import opened Find
  import opened Insert
  import opened Leaf
  import opened Repair
  import opened Cursors
  import opened Promotions
  import Removal

  // ---------------------------------------------------------------------
  // Updates
  // ---------------------------------------------------------------------

  datatype Command = Look(key: int) | Add(key: int, val: int) | Drop(key: int)

  datatype Reply = Reply(status: int, val: int)

  /** What a command should answer, and what map it should leave. */
  ghost function Answer(m: map<int, int>, c: Command): Reply {
    match c
    case Look(k) => if k in m then Reply(0, m[k]) else Reply(QNOKEY, 0)
    case Add(k, _) => if k in m then Reply(QDUP, 0) else Reply(0, 0)
    case Drop(k) => if k in m then Reply(0, 0) else Reply(QNOKEY, 0)
  }

  ghost function After(m: map<int, int>, c: Command): map<int, int> {
    match c
    case Look(_) => m
    case Add(k, v) => if k in m then m else m[k := v]
    case Drop(k) => Removal.Without(m, k)
  }

  ghost function Answers(m: map<int, int>, cs: seq<Command>): seq<Reply>
    decreases |cs|
  {
    if |cs| == 0 then []
    else Answers(m, cs[..|cs| - 1]) + [Answer(AfterAll(m, cs[..|cs| - 1]), cs[|cs| - 1])]
  }

  ghost function AfterAll(m: map<int, int>, cs: seq<Command>): map<int, int>
    decreases |cs|
  {
    if |cs| == 0 then m else After(AfterAll(m, cs[..|cs| - 1]), cs[|cs| - 1])
  }

  /** One command. */
  method Execute(ix: Index, c: Command) returns (r: Reply, upper: bool)
    requires Calm(ix)
    requires (ZMXKEY + 1) / 2 > ZTHRES
    requires ix.Valid() && Slack(ix) && ix.smode == 0
    modifies ix`store, ix`sblkmx, ix`snfree, ix`sfreep, ix`free, ix`stk, ix`lfblk, ix`lfpos, ix`lfexct, ix`lfkey,
             ix`height, ix`busy
    ensures Calm(ix)
    ensures ix.Valid() && (!upper ==> Slack(ix))
    ensures r == Answer(old(ix.Contents()), c) && ix.Contents() == After(old(ix.Contents()), c)
    ensures upper <==> c.Drop? && old(EndsAbove(ix.store, ix.scroot, ix.height, c.key))
    ensures Kept(old(ix.store), ix.store, ix.scroot, ix.rest)
  {
    hide *;
    upper := false;
    AnswerIs(ix.Contents(), c);
    match c {
      case Look(k) =>
        var status, val, _ := FindKey(ix, k);
        r := Reply(status, if status == 0 then val else 0);
      case Add(k, v) =>
        var status, _ := InsertKey(ix, k, v);
        r := Reply(status, 0);
      case Drop(k) =>
        var status;
        ghost var front;
        status, upper, front := Removal.DeleteKey(ix, k);
        r := Reply(status, 0);
    }
  }

  lemma AnswerIs(m: map<int, int>, c: Command)
    ensures QNOKEY != 0 && QDUP != 0
    ensures c.Look? ==> Answer(m, c) == (if c.key in m then Reply(0, m[c.key]) else Reply(QNOKEY, 0)) && After(m, c) == m
    ensures c.Add? ==> Answer(m, c) == (if c.key in m then Reply(QDUP, 0) else Reply(0, 0))
                         && After(m, c) == if c.key in m then m else m[c.key := c.val]
    ensures c.Drop? ==> Answer(m, c) == (if c.key in m then Reply(0, 0) else Reply(QNOKEY, 0))
                        && After(m, c) == Removal.Without(m, c.key)
  {
  }

  /** A tree as it stood during a run. */
  datatype Snap = Snap(store: Store, height: nat)

  /** A sound tree of the root with the map m and room above the leaves. */
  ghost predicate Stands(sn: Snap, root: int, m: map<int, int>) {
    && TreeOK(sn.store, root, sn.height)
    && Sorted(Ents(sn.store, root, sn.height)) && ToMap(Ents(sn.store, root, sn.height)) == m
    && SlackBut(sn.store, Blks(sn.store, root, sn.height), ZNULL)
  }

  /** In this tree the command deletes a key that a search finds above the leaves. */
  ghost predicate DropsAbove(sn: Snap, root: int, c: Command) {
    c.Drop? && EndsAbove(sn.store, root, sn.height, c.key)
  }

  /** Any run of commands answers like the map.  It stops after the first delete of
      a key that was found above the leaves; up to there no demotion ever meets a
      full sister, because that is what every delete needs and every command keeps.
      The trace has the tree before every command and the last one. */
  method Run(ix: Index, cs: seq<Command>) returns (rs: seq<Reply>, upper: bool, ghost trace: seq<Snap>)
    requires Calm(ix)
    requires (ZMXKEY + 1) / 2 > ZTHRES
    requires ix.Valid() && Slack(ix) && ix.smode == 0
    modifies ix`store, ix`sblkmx, ix`snfree, ix`sfreep, ix`free, ix`stk, ix`lfblk, ix`lfpos, ix`lfexct, ix`lfkey,
             ix`height, ix`busy
    ensures Calm(ix)
    ensures ix.Valid() && |rs| <= |cs|
    ensures rs == Answers(old(ix.Contents()), cs[..|rs|])
    ensures ix.Contents() == AfterAll(old(ix.Contents()), cs[..|rs|])
    ensures |trace| == |rs| + 1
    ensures trace[0] == old(Snap(ix.store, ix.height)) && trace[|rs|] == Snap(ix.store, ix.height)
    ensures forall i :: 0 <= i < |rs| ==> Stands(trace[i], ix.scroot, AfterAll(old(ix.Contents()), cs[..i]))
    ensures forall i :: 0 <= i < |rs| ==> Kept(trace[i].store, trace[i + 1].store, ix.scroot, ix.rest)
    ensures forall i :: 0 <= i < |rs| ==> (DropsAbove(trace[i], ix.scroot, cs[i]) <==> upper && i == |rs| - 1)
    ensures Kept(old(ix.store), ix.store, ix.scroot, ix.rest)
    ensures if upper then |rs| > 0 else |rs| == |cs| && Slack(ix)
    ensures (forall i :: 0 <= i < |rs| ==> !DropsAbove(trace[i], ix.scroot, cs[i])) ==> |rs| == |cs| && Slack(ix)
  {
    hide *;
    ghost var m := ix.Contents();
    rs := [];
    upper := false;
    trace := [Snap(ix.store, ix.height)];
    AnswersNone(m, cs[..0]);
    TracedStart(trace, cs, ix.scroot, m, ix.rest);
    RestThere(ix);
    KeptRefl(ix.store, ix.scroot, ix.rest);
    while |rs| < |cs| && !upper
      invariant Calm(ix)
      invariant ix.Valid() && |rs| <= |cs|
      invariant !upper ==> Slack(ix)
      invariant rs == Answers(m, cs[..|rs|]) && ix.Contents() == AfterAll(m, cs[..|rs|])
      invariant |trace| == |rs| + 1
      invariant Traced(trace, rs, cs, upper, ix.scroot, m, ix.rest)
      invariant trace[0] == old(Snap(ix.store, ix.height)) && trace[|rs|] == Snap(ix.store, ix.height)
      invariant Kept(old(ix.store), ix.store, ix.scroot, ix.rest)
      decreases |cs| - |rs|
    {
      var c := cs[|rs|];
      AnswersStep(m, cs, |rs|);
      StandsNow(ix);
      DropsIs(Snap(ix.store, ix.height), ix.scroot, c);
      ghost var sn := Snap(ix.store, ix.height);
      var r;
      r, upper := Execute(ix, c);
      KeptTrans(old(ix.store), sn.store, ix.store, ix.scroot, ix.rest);
      TracedMore(trace, rs, cs, upper, ix.scroot, m, ix.rest, r, sn, Snap(ix.store, ix.height));
      rs := rs + [r];
      trace := trace + [Snap(ix.store, ix.height)];
    }
    TracedOver(trace, rs, cs, upper, ix.scroot, m, ix.rest);
  }

  /** A run on a file just created. */
  method FromScratch(cs: seq<Command>) returns (ix: Index, rs: seq<Reply>, upper: bool)
    requires (ZMXKEY + 1) / 2 > ZTHRES
    ensures ix.Valid() && Calm(ix) && |rs| <= |cs|
    ensures rs == Answers(map[], cs[..|rs|]) && ix.Contents() == AfterAll(map[], cs[..|rs|])
    ensures if upper then |rs| > 0 && cs[|rs| - 1].Drop? else |rs| == |cs| && Slack(ix)
    ensures ix.scroot in ix.store && ix.store[ix.scroot].misc == 0 && ix.store[ix.scroot].nxblk == ZNULL
    ensures ix.store[ix.scroot].nblks == DEFAULT_ROOT && ix.store[ix.scroot].nxdup == ZNULL
    ensures forall x :: x in ix.store && ix.store[x].btype == ZINUSE ==> NewInfo(ix.store[x], DEFAULT_ROOT)
  {
    hide *;
    ix := new Index();
    NewReady(ix);
    ghost var s := ix.store;
    ghost var trace;
    rs, upper, trace := Run(ix, cs);
    NewWords(s, ix.store, ix.rest);
    if upper {
      DropsIs(trace[|rs| - 1], ix.scroot, cs[|rs| - 1]);
    }
  }

  /** In a file that starts with a super root and a root, all blocks below the
      root come from splits. */
  lemma NewWords(s: Trees.Store, s': Trees.Store, rest: set<int>)
    requires Kept(s, s', DEFAULT_ROOT, rest) && (forall x :: x in s ==> s[x].btype == ZROOT)
    ensures DEFAULT_ROOT in s && DEFAULT_ROOT in s' && SameInfo(s[DEFAULT_ROOT], s'[DEFAULT_ROOT])
    ensures forall x :: x in s' && s'[x].btype == ZINUSE ==> NewInfo(s'[x], DEFAULT_ROOT)
  {
    forall x | x in s' && s'[x].btype == ZINUSE
      ensures NewInfo(s'[x], DEFAULT_ROOT)
    {
      assert Stamped(s, s', DEFAULT_ROOT, x);
    }
  }

  lemma NewReady(ix: Index)
    requires ix.height == 0 && ix.busy == {ix.scroot} && ix.scroot in ix.store && ix.store[ix.scroot].nkeys == 0
    ensures Calm(ix) && Slack(ix)
  {
    BlksNode(ix.store, ix.scroot, 0);
  }

  /** What a run leaves behind. */
  ghost predicate Traced(trace: seq<Snap>, rs: seq<Reply>, cs: seq<Command>, upper: bool, root: int,
                         m: map<int, int>, rest: set<int>) {
    && |trace| == |rs| + 1 && |rs| <= |cs|
    && (forall i :: 0 <= i < |rs| ==> Stands(trace[i], root, AfterAll(m, cs[..i])))
    && (forall i :: 0 <= i < |rs| ==> Kept(trace[i].store, trace[i + 1].store, root, rest))
    && (forall i :: 0 <= i < |rs| ==> (DropsAbove(trace[i], root, cs[i]) <==> upper && i == |rs| - 1))
    && (upper ==> |rs| > 0)
  }

  lemma StandsNow(ix: Index)
    requires ix.Valid() && Slack(ix)
    ensures Stands(Snap(ix.store, ix.height), ix.scroot, ix.Contents())
  {
    hide Blks, Ents, NodeOK, Sorted, AllocOK;
  }

  lemma DropsIs(sn: Snap, root: int, c: Command)
    ensures DropsAbove(sn, root, c) <==> c.Drop? && EndsAbove(sn.store, root, sn.height, c.key)
  {
  }

  lemma TracedStart(trace: seq<Snap>, cs: seq<Command>, root: int, m: map<int, int>, rest: set<int>)
    requires |trace| == 1
    ensures Traced(trace, [], cs, false, root, m, rest)
  {
  }

  lemma TracedMore(trace: seq<Snap>, rs: seq<Reply>, cs: seq<Command>, upper: bool, root: int, m: map<int, int>,
                   rest: set<int>,
                   r: Reply, sn: Snap, next: Snap)
    requires Traced(trace, rs, cs, false, root, m, rest) && |rs| < |cs| && trace[|rs|] == sn
    requires Stands(sn, root, AfterAll(m, cs[..|rs|])) && Kept(sn.store, next.store, root, rest)
    requires upper <==> DropsAbove(sn, root, cs[|rs|])
    ensures Traced(trace + [next], rs + [r], cs, upper, root, m, rest)
  {
    hide Stands, DropsAbove, Kept, AfterAll;
  }

  lemma TracedOver(trace: seq<Snap>, rs: seq<Reply>, cs: seq<Command>, upper: bool, root: int, m: map<int, int>,
                   rest: set<int>)
    requires Traced(trace, rs, cs, upper, root, m, rest)
    ensures |trace| == |rs| + 1 && |rs| <= |cs|
    ensures upper ==> |rs| > 0 && DropsAbove(trace[|rs| - 1], root, cs[|rs| - 1])
    ensures forall i :: 0 <= i < |rs| ==> Stands(trace[i], root, AfterAll(m, cs[..i]))
    ensures forall i :: 0 <= i < |rs| ==> Kept(trace[i].store, trace[i + 1].store, root, rest)
    ensures forall i :: 0 <= i < |rs| ==> (DropsAbove(trace[i], root, cs[i]) <==> upper && i == |rs| - 1)
  {
    hide Stands, DropsAbove, Kept, AfterAll;
  }

  lemma AnswersNone(m: map<int, int>, cs: seq<Command>)
    requires |cs| == 0
    ensures Answers(m, cs) == [] && AfterAll(m, cs) == m
  {
  }

  lemma AnswersStep(m: map<int, int>, cs: seq<Command>, n: nat)
    requires n < |cs|
    ensures Answers(m, cs[..n + 1]) == Answers(m, cs[..n]) + [Answer(AfterAll(m, cs[..n]), cs[n])]
    ensures AfterAll(m, cs[..n + 1]) == After(AfterAll(m, cs[..n]), cs[n])
  {
    assert cs[..n + 1][..n] == cs[..n];
  }

  // ---------------------------------------------------------------------
  // Cursor steps
  // ---------------------------------------------------------------------

  datatype Move = Forward | Backward

  ghost function Moved(c: Cursor, n: nat, m: Move): Cursor {
    if m == Forward then Next(c, n) else Prev(c, n)
  }

  ghost function MovedAll(c: Cursor, n: nat, ms: seq<Move>): Cursor
    decreases |ms|
  {
    if |ms| == 0 then c else Moved(MovedAll(c, n, ms[..|ms| - 1]), n, ms[|ms| - 1])
  }

  lemma MovedStep(c: Cursor, n: nat, ms: seq<Move>, i: nat)
    requires i < |ms|
    ensures MovedAll(c, n, ms[..i + 1]) == Moved(MovedAll(c, n, ms[..i]), n, ms[i])
    ensures MovedAll(c, n, ms[..0]) == c && MovedAll(c, n, []) == c
    ensures ms[i] == Forward ==> MovedAll(c, n, ms[..i + 1]) == Next(MovedAll(c, n, ms[..i]), n)
    ensures ms[i] != Forward ==> MovedAll(c, n, ms[..i + 1]) == Prev(MovedAll(c, n, ms[..i]), n)
  {
    assert ms[..i + 1][..i] == ms[..i];
  }

  /** What a step reports about the cursor it leaves. */
  ghost predicate Reports(es: seq<Entry>, c: Cursor, status: int, key: int, val: int) {
    match c
    case On(i) => i < |es| && status == 0 && es[i] == Entry(key, val)
    case _ => status == QNOKEY
  }

  /** Any mix of bnxtky and bprvky from any cursor. */
  method Walk(ix: Index, ms: seq<Move>, ghost es: seq<Entry>, ghost front: seq<Frame>, ghost c: Cursor)
    returns (out: seq<(int, int, int)>, ghost front': seq<Frame>)
    requires Calm(ix)
    requires Shows(ix, es, front, c)
    modifies ix`stk, ix`lfblk, ix`lfpos, ix`lfexct, ix`lfkey
    ensures |out| == |ms| && Shows(ix, es, front', MovedAll(c, |es|, ms))
    ensures forall i :: 0 <= i < |ms| ==> Reports(es, MovedAll(c, |es|, ms[..i + 1]), out[i].0, out[i].1, out[i].2)
  {
    hide *;
    out := [];
    front' := front;
    MovedNone(c, |es|, ms);
    while |out| < |ms|
      invariant |out| <= |ms| && Shows(ix, es, front', MovedAll(c, |es|, ms[..|out|]))
      invariant forall i :: 0 <= i < |out| ==> Reports(es, MovedAll(c, |es|, ms[..i + 1]), out[i].0, out[i].1, out[i].2)
    {
      var i := |out|;
      ghost var here := MovedAll(c, |es|, ms[..i]);
      MovedStep(c, |es|, ms, i);
      var status, key, val;
      if ms[i] == Forward {
        status, key, val, front' := NextKey(ix, es, front', here);
      } else {
        status, key, val, front' := PrevKey(ix, es, front', here);
      }
      ReportsIs(es, MovedAll(c, |es|, ms[..i + 1]), status, key, val);
      out := out + [(status, key, val)];
    }
    assert ms[..|ms|] == ms;
  }

  lemma MovedNone(c: Cursor, n: nat, ms: seq<Move>)
    ensures MovedAll(c, n, ms[..0]) == c
  {
  }

  lemma ReportsIs(es: seq<Entry>, c: Cursor, status: int, key: int, val: int)
    requires match c
             case On(i) => status == 0 && i < |es| && key == es[i].key && val == es[i].val
             case _ => status == QNOKEY
    ensures Reports(es, c, status, key, val)
  {
  }

  // ---------------------------------------------------------------------
  // Deleting at the cursor
  // ---------------------------------------------------------------------

  /** A cursor on an entry is an exact context for bdelk1. */
  lemma OnExact(ix: Index, front: seq<Frame>, i: nat)
    requires ix.Valid() && i < |ix.Entries()| && Shows(ix, ix.Entries(), front, On(i))
    requires ix.lfkey == ix.Entries()[i].key
    ensures ix.lfexct && Removal.Exact(ix, front)
  {
    hide *;
    var s, root, H, es, blk, pos := ix.store, ix.scroot, ix.height, ix.Entries(), ix.lfblk, ix.lfpos;
    ShowsOn(ix, es, front, i);
    OnKeyFacts(ix, es, front, i);
    AheadFacts(ix, es, front, i);
    Removal.ValidFacts(ix);
    Removal.AtPosPath(s, root, H, front, Frame(blk, pos));
    PathTargetOf(s, root, H, front, blk);
    EntsNode(s, blk, H - |front|);
    KeysWithin(s, Keys(s[blk]), Links(s[blk]), H - |front|, pos);
    InMiddle(Lft(s, root, H, front), Ents(s, blk, H - |front|), Rgt(s, root, H, front), Keys(s[blk])[pos]);
    MakeSearching(s, root, H, es, front, blk, ix.lfkey);
    MakeFound(s, root, H, es, front, blk, pos, ix.lfkey);
    MakeExact(ix, front);
  }

  lemma PathTargetOf(s: Trees.Store, root: int, H: nat, front: seq<Frame>, blk: int)
    requires TreeOK(s, root, H) && PathOK(s, root, H, front) && blk == Target(s, root, front)
    ensures |front| <= H && blk in s && |Links(s[blk])| == |Keys(s[blk])| + 1
    ensures Ents(s, root, H) == Lft(s, root, H, front) + Ents(s, blk, H - |front|) + Rgt(s, root, H, front)
  {
    hide Ents, Blks, Lft, Rgt, PathOK, NodeOK, Unique;
    PathTarget(s, root, H, front);
    NodeKids(s, blk, H - |front|);
  }

  lemma ShowsOn(ix: Index, es: seq<Entry>, front: seq<Frame>, i: nat)
    requires Shows(ix, es, front, On(i))
    ensures ix.lfexct && OnKey(ix, es, front, i)
  {
  }

  lemma MakeExact(ix: Index, front: seq<Frame>)
    requires FoundAt(ix.store, ix.scroot, ix.height, ix.Entries(), front, ix.lfblk, ix.lfpos, ix.lfkey)
    requires OnPath(ix.stk, ix.lfblk, ix.lfpos, front + [Frame(ix.lfblk, ix.lfpos)])
    ensures Removal.Exact(ix, front)
  {
  }

  /** Deleting the entry under the cursor leaves the cursor in its place, so that
      the next step forward or backward gives its neighbours. */
  method DropCurrent(ix: Index, ghost front: seq<Frame>, ghost i: nat) returns (status: int, ghost front': seq<Frame>)
    requires Calm(ix)
    requires (ZMXKEY + 1) / 2 > ZTHRES
    requires ix.Valid() && Slack(ix) && ix.smode == 0
    requires i < |ix.Entries()| && Shows(ix, ix.Entries(), front, On(i)) && ix.lfkey == ix.Entries()[i].key
    modifies ix`store, ix`sblkmx, ix`snfree, ix`sfreep, ix`free, ix`stk, ix`lfblk, ix`lfpos, ix`lfexct, ix`lfkey,
             ix`height, ix`busy
    ensures Calm(ix)
    ensures ix.Valid() && status == 0
    ensures ix.Entries() == old(ix.Entries()[..i]) + old(ix.Entries()[i + 1..])
    ensures Shows(ix, ix.Entries(), front', Gap(i))
    ensures old(ix.lfblk in ix.store) && 0 <= old(ix.lfpos) < ZMXKEY
    ensures old(ix.store[ix.lfblk].link[ix.lfpos]) == ZNULL ==> Slack(ix)
  {
    hide *;
    ghost var es := ix.Entries();
    Removal.ValidFacts(ix);
    OnExact(ix, front, i);
    status, front' := Removal.DeleteHere(ix, 0, false, front);
    Removal.ValidFacts(ix);
    TakenEntry(es, ix.Entries(), i);
    ghost var j := GapShows(ix, ix.Entries(), front', ix.lfkey, 0);
    SameGap(ix.Entries(), es[..i], es[i + 1..], ix.lfkey, j);
  }

  /** A delete is refused where no key was found, and when the key named is not
      the one found.  Every cursor is then where it was. */
  method DropRefused(ix: Index, key: int, named: bool, ghost front: seq<Frame>) returns (status: int)
    requires Calm(ix)
    requires (ZMXKEY + 1) / 2 > ZTHRES
    requires ix.Valid() && ix.smode == 0
    requires ix.lfexct ==> Removal.Exact(ix, front) && Slack(ix) && named && key != ix.lfkey
    modifies ix`store, ix`sblkmx, ix`snfree, ix`sfreep, ix`free, ix`stk, ix`lfblk, ix`lfpos, ix`lfexct, ix`lfkey,
             ix`height, ix`busy
    ensures status == if old(ix.lfexct) then QDELER else QDELEX
    ensures unchanged(ix) && ix.Entries() == old(ix.Entries())
    ensures forall es, fr, c :: old(Shows(ix, es, fr, c)) ==> Shows(ix, es, fr, c)
  {
    assert QDELEX != 0 && QDELER != 0;
    hide *;
    ghost var fr;
    status, fr := Removal.DeleteHere(ix, key, named, front);
  }

  /** Deleting the current key twice deletes one key: the second call is refused,
      and the next step still gives the successor. */
  method DropTwice(ix: Index, ghost front: seq<Frame>, ghost i: nat)
    returns (first: int, second: int, status: int, key: int, val: int, ghost front': seq<Frame>)
    requires Calm(ix)
    requires (ZMXKEY + 1) / 2 > ZTHRES
    requires ix.Valid() && Slack(ix) && ix.smode == 0
    requires i < |ix.Entries()| && Shows(ix, ix.Entries(), front, On(i)) && ix.lfkey == ix.Entries()[i].key
    modifies ix`store, ix`sblkmx, ix`snfree, ix`sfreep, ix`free, ix`stk, ix`lfblk, ix`lfpos, ix`lfexct, ix`lfkey,
             ix`height, ix`busy
    ensures Calm(ix) && ix.Valid() && first == 0 && second == QDELEX
    ensures ix.Entries() == old(ix.Entries()[..i]) + old(ix.Entries()[i + 1..])
    ensures if i < |ix.Entries()|
            then status == 0 && Entry(key, val) == ix.Entries()[i] && Shows(ix, ix.Entries(), front', On(i))
            else status == QNOKEY && Shows(ix, ix.Entries(), front', Off)
  {
    hide *;
    first, front' := DropCurrent(ix, front, i);
    GapNotExact(ix, ix.Entries(), front', i);
    second := DropRefused(ix, 0, false, front');
    NextIs(Gap(i), |ix.Entries()|);
    status, key, val, front' := NextKey(ix, ix.Entries(), front', Gap(i));
  }

  lemma GapNotExact(ix: Index, es: seq<Entry>, front: seq<Frame>, i: nat)
    requires Shows(ix, es, front, Gap(i))
    ensures !ix.lfexct
  {
  }

  // ---------------------------------------------------------------------
  // Inserting
  // ---------------------------------------------------------------------

  lemma PlacedShows(ix: Index, front: seq<Frame>, e: Entry) returns (i: nat)
    requires ix.Valid() && !ix.lfexct
    requires Placed(ix.store, ix.scroot, ix.height, front, ix.stk, ix.lfblk, ix.lfpos, e, false)
    ensures i < |ix.Entries()| && ix.Entries()[i] == e && Shows(ix, ix.Entries(), front, Gap(i))
  {
    hide *;
    var s, root, H, f := ix.store, ix.scroot, ix.height, Frame(ix.lfblk, ix.lfpos);
    PlacedOpen(ix, front, e);
    Removal.ValidFacts(ix);
    var m := KeyStep(s, root, H, front, f.blk, f.pos);
    var r := RightOf(s, root, H, front, f);
    i := |m|;
    assert ix.Entries()[i..] == r;
    MakeAhead(ix, ix.Entries(), front, i);
    MakeGapShown(ix, ix.Entries(), front, i);
  }

  lemma PlacedOpen(ix: Index, front: seq<Frame>, e: Entry)
    requires Placed(ix.store, ix.scroot, ix.height, front, ix.stk, ix.lfblk, ix.lfpos, e, false)
    ensures var s, f := ix.store, Frame(ix.lfblk, ix.lfpos);
            && AtPos(s, ix.scroot, ix.height, front, f) && OnPath(ix.stk, f.blk, f.pos, front + [f]) && f.blk in s
            && |front| == ix.height && 0 <= f.pos < |Keys(s[f.blk])| && |Keys(s[f.blk])| == Count(s[f.blk])
            && Keys(s[f.blk])[f.pos] == e
  {
    hide NodeOK, Blks, Unique, PathOK, OnPath;
  }

  lemma FirstShowsNothing(ix: Index, front: seq<Frame>, e: Entry)
    requires ix.Valid()
    requires Placed(ix.store, ix.scroot, ix.height, front, ix.stk, ix.lfblk, ix.lfpos, e, true)
    ensures forall es, fr, c :: !Shows(ix, es, fr, c)
  {
    hide Ents, Blks, NodeOK, Sorted, PathOK, OnPath, Unique;
    assert ix.lfblk != ZNULL;
  }

  /** binsky, and where the cursor is afterwards: on a key that was there before,
      in the gap before a new one, so that a step forward gives it; but the first
      key of an index leaves a context that is no place in it. */
  method AddHere(ix: Index, key: int, val: int) returns (status: int, ghost front: seq<Frame>, ghost i: nat)
    requires Calm(ix) && ix.Valid() && ix.smode == 0
    modifies ix`store, ix`sblkmx, ix`snfree, ix`sfreep, ix`free, ix`stk, ix`lfblk, ix`lfpos, ix`lfexct, ix`lfkey,
             ix`height, ix`busy
    ensures Calm(ix) && ix.Valid()
    ensures status == if key in old(ix.Contents()) then QDUP else 0
    ensures ix.Contents() == if key in old(ix.Contents()) then old(ix.Contents()) else old(ix.Contents())[key := val]
    ensures status == QDUP ==> i < |ix.Entries()| && ix.Entries()[i].key == key && Shows(ix, ix.Entries(), front, On(i))
    ensures status == 0 && old(ix.Entries()) != [] ==>
              i < |ix.Entries()| && ix.Entries()[i] == Entry(key, val) && Shows(ix, ix.Entries(), front, Gap(i))
    ensures status == 0 && old(ix.Entries()) == [] ==> forall es, fr, c :: !Shows(ix, es, fr, c)
  {
    assert QDUP != 0;
    hide *;
    status, front := InsertKey(ix, key, val);
    if status == QDUP {
      i := FoundShows(ix, ix.Entries(), front, key, ix.Contents()[key]);
    } else if old(ix.Entries()) != [] {
      i := PlacedShows(ix, front, Entry(key, val));
    } else {
      i := 0;
      FirstShowsNothing(ix, front, Entry(key, val));
    }
  }

  lemma TakenEntry(es: seq<Entry>, es': seq<Entry>, i: nat)
    requires Sorted(es) && Sorted(es') && i < |es| && ToMap(es') == Removal.Without(ToMap(es), es[i].key)
    ensures es' == es[..i] + es[i + 1..]
    ensures AllBelow(es[..i], es[i].key) && AllAbove(es[i + 1..], es[i].key)
  {
    hide ToMap;
    var a, b := es[..i], es[i + 1..];
    assert es == a + [es[i]] + b;
    SortedThree(a, [es[i]], b);
    SortedConcat(a, b);
    assert es[i] in [es[i]];
    InMiddle(a, [es[i]], b, es[i]);
    ToMapGap(a, es[i], b);
    SortedUnique(es', a + b);
  }

  /** A key has only one gap. */
  lemma SameGap(es: seq<Entry>, a: seq<Entry>, b: seq<Entry>, k: int, j: nat)
    requires es == a + b && AllBelow(a, k) && AllAbove(b, k) && j <= |es|
    requires AllBelow(es[..j], k) && AllAbove(es[j..], k)
    ensures j == |a|
  {
    forall x | 0 <= x < |es|
      ensures x < j <==> es[x].key < k
      ensures x < |a| <==> es[x].key < k
    {
      assert es[x] == if x < j then es[..j][x] else es[j..][x - j];
      assert es[x] == if x < |a| then a[x] else b[x - |a|];
    }
    assert j < |es| ==> !(es[j].key < k);
    assert |a| < |es| ==> !(es[|a|].key < k);
  }
}
