/** One index block and the routines that work inside a single block:
    bputky, bremky, brepky, bcpybk, bsrhbk, bsetbk.

    A Block is the whole image that is read from and written to the file: its
    arrays have their full size, and only the first nkeys keys and nkeys + 1
    links mean anything.  The functions below say what each routine leaves in
    the image, stale slots included; the class in MemRecs.dfy runs the loops on
    real arrays and is proved to compute them. */
module Blocks {
  import opened Constants

  datatype Entry = Entry(key: int, val: int)

  datatype Image = Image(btype: int, misc: int, nxblk: int, nkeys: int, nblks: int, nxdup: int,
                         key: seq<Entry>, link: seq<int>)

  type Block = b: Image | |b.key| == ZMXKEY && |b.link| == ZMXKEY + 1
    witness Image(ZFREE, 0, ZNULL, 0, 0, ZNULL,
                  seq(ZMXKEY, _ => Entry(0, 0)), seq(ZMXKEY + 1, _ => ZNULL))

  /** Number of live keys; a count outside the array reads as an empty block. */
  function Count(b: Block): (n: nat)
    ensures n <= ZMXKEY
  {
    if 0 <= b.nkeys <= ZMXKEY then b.nkeys else 0
  }

  function Keys(b: Block): (ks: seq<Entry>)
    ensures |ks| == Count(b)
  {
    b.key[..Count(b)]
  }

  function Links(b: Block): (ls: seq<int>)
    ensures |ls| == Count(b) + 1
  {
    b.link[..Count(b) + 1]
  }

  lemma CountKeys(b: Block)
    ensures |Keys(b)| == Count(b) && |Links(b)| == Count(b) + 1
  {
  }

  lemma CountIs(b: Block)
    requires 0 <= b.nkeys <= ZMXKEY
    ensures Count(b) == b.nkeys
  {
  }

  /** Where bputky's shifting loop stops: it moves every key that is not
      smaller than the new one, starting from the right. */
  function PutPos(ks: seq<Entry>, k: int): (i: nat)
    ensures i <= |ks|
    ensures forall j :: i <= j < |ks| ==> k <= ks[j].key
    ensures i > 0 ==> ks[i - 1].key < k
  {
    if |ks| == 0 then 0
    else if k <= ks[|ks| - 1].key then PutPos(ks[..|ks| - 1], k)
    else |ks|
  }

  /** The links after the shifting loop stopped at i: the ones beyond i moved
      one place right, and place i + 1 still holds what was there, or the first
      link when the new key comes first. */
  function SpreadLinks(link: seq<int>, i: nat, n: nat): (r: seq<int>)
    requires i <= n && n + 1 < |link|
    ensures |r| == |link|
    ensures r[..i + 1] == link[..i + 1] && r[i + 2..n + 2] == link[i + 1..n + 1]
  {
    link[..i + 1] + [if i == 0 then link[0] else link[i + 1]] + link[i + 1..n + 1] + link[n + 2..]
  }

  /** The links bputky writes around the new key. */
  function PlaceLinks(link: seq<int>, i: nat, link1: int, link2: int): (r: seq<int>)
    requires i + 1 < |link|
    ensures |r| == |link|
  {
    if link1 == ZNULL && link2 == ZNULL then link[i := ZNULL][i + 1 := ZNULL]
    else
      var left := if i == 0 then link[0 := link1] else link;
      if link2 >= 0 then left[i + 1 := link2] else left
  }

  /** bputky on a block that is not full. */
  function PutKey(b: Block, e: Entry, link1: int, link2: int): Block
    requires 0 <= b.nkeys < ZMXKEY
  {
    var n := b.nkeys;
    if n == 0 then
      b.(key := b.key[0 := e], link := b.link[0 := link1][1 := link2], nkeys := 1)
    else
      var i := if link1 == ZNULL && link2 != ZNULL then n else PutPos(b.key[..n], e.key);
      b.(key := b.key[..i] + [e] + b.key[i..n] + b.key[n + 1..],
         link := PlaceLinks(SpreadLinks(b.link, i, n), i, link1, link2),
         nkeys := n + 1)
  }

  /** bremky: the key at pos and the link to its right go. */
  function RemKey(b: Block, pos: nat): Block
    requires pos < b.nkeys <= ZMXKEY
  {
    var n := b.nkeys;
    b.(key := b.key[..pos] + b.key[pos + 1..n] + b.key[n - 1..],
       link := b.link[..pos + 1] + b.link[pos + 2..n + 1] + b.link[n..],
       nkeys := n - 1)
  }

  /** brepky at a location inside the array. */
  function RepKey(b: Block, loc: nat, e: Entry, link1: int, link2: int): Block
    requires loc < ZMXKEY
  {
    b.(key := b.key[loc := e], link := b.link[loc := link1][loc + 1 := link2])
  }

  /** bcpybk of n keys.  With ts > 0 the links land one place further right,
      except for the last one. */
  function CopyKeys(t: Block, f: Block, ts: nat, fs: nat, n: nat): Block
    requires ts + n <= ZMXKEY && fs + n <= ZMXKEY
  {
    var key' := t.key[..ts] + f.key[fs..fs + n] + t.key[ts + n..];
    var link' :=
      if ts == 0 then f.link[fs..fs + n + 1] + t.link[n + 1..]
      else if n == 0 then t.link[ts := f.link[fs]]
      else t.link[..ts + 1] + f.link[fs..fs + n - 1] + [f.link[fs + n]] + t.link[ts + n + 1..];
    t.(key := key', link := link')
  }

  /** bsetbk: every information word at once. */
  function SetInfo(b: Block, btype: int, misc: int, nxblk: int, nkeys: int, nblks: int, nxdup: int): Block {
    b.(btype := btype, misc := misc, nxblk := nxblk, nkeys := nkeys, nblks := nblks, nxdup := nxdup)
  }

  /** The information words, except for the key count, are the same. */
  ghost predicate SameInfo(b: Block, b': Block) {
    && b'.btype == b.btype && b'.misc == b.misc && b'.nxblk == b.nxblk && b'.nblks == b.nblks && b'.nxdup == b.nxdup
  }

  /** The keys, the links and their number are the same. */
  ghost predicate SameKeys(b: Block, b': Block) {
    b'.nkeys == b.nkeys && b'.key == b.key && b'.link == b.link
  }

  /** Only bsetbk changes words other than the key count. */
  lemma InfoKept(b: Block)
    ensures SameInfo(b, b) && forall n :: SameInfo(b, b.(nkeys := n))
    ensures forall e, link1, link2 :: 0 <= b.nkeys < ZMXKEY ==> SameInfo(b, PutKey(b, e, link1, link2))
    ensures forall pos: nat :: pos < b.nkeys <= ZMXKEY ==> SameInfo(b, RemKey(b, pos))
    ensures forall loc: nat, e, link1, link2 :: loc < ZMXKEY ==> SameInfo(b, RepKey(b, loc, e, link1, link2))
    ensures forall f: Block, ts: nat, fs: nat, n: nat :: ts + n <= ZMXKEY && fs + n <= ZMXKEY ==>
              SameInfo(b, CopyKeys(b, f, ts, fs, n))
  {
  }

  /** All keys on one side of a key. */
  ghost predicate AllBelow(es: seq<Entry>, k: int) {
    forall i :: 0 <= i < |es| ==> es[i].key < k
  }

  ghost predicate AllAbove(es: seq<Entry>, k: int) {
    forall i :: 0 <= i < |es| ==> k < es[i].key
  }

  lemma PutPosIs(ks: seq<Entry>, k: int, i: nat)
    requires i <= |ks|
    requires AllBelow(ks[..i], k) && AllAbove(ks[i..], k)
    ensures PutPos(ks, k) == i
  {
    assert forall j :: 0 <= j < i ==> ks[..i][j] == ks[j];
    assert forall j :: i <= j < |ks| ==> ks[i..][j - i] == ks[j];
  }

  /** A leaf insert. */
  lemma PutLeaf(b: Block, e: Entry, i: nat)
    requires 0 <= b.nkeys < ZMXKEY && i <= b.nkeys
    requires AllBelow(Keys(b)[..i], e.key) && AllAbove(Keys(b)[i..], e.key)
    ensures Keys(PutKey(b, e, ZNULL, ZNULL)) == Keys(b)[..i] + [e] + Keys(b)[i..]
    ensures b.nkeys > 0 ==> Links(PutKey(b, e, ZNULL, ZNULL)) == Links(b)[..i] + [ZNULL, ZNULL] + Links(b)[i + 1..]
    ensures b.nkeys == 0 ==> Links(PutKey(b, e, ZNULL, ZNULL)) == [ZNULL, ZNULL]
  {
    PutPosIs(Keys(b), e.key, i);
  }

  /** A key promoted by a split: child i keeps its place, the new block follows. */
  lemma PutPromoted(b: Block, e: Entry, i: nat, link1: int, link2: int)
    requires 0 < b.nkeys < ZMXKEY && i <= b.nkeys
    requires AllBelow(Keys(b)[..i], e.key) && AllAbove(Keys(b)[i..], e.key)
    requires link1 == Links(b)[i] && link1 >= 0 && link2 >= 0
    ensures Keys(PutKey(b, e, link1, link2)) == Keys(b)[..i] + [e] + Keys(b)[i..]
    ensures Links(PutKey(b, e, link1, link2)) == Links(b)[..i + 1] + [link2] + Links(b)[i + 1..]
  {
    hide AllBelow, AllAbove, SpreadLinks, PlaceLinks, PutPos;
    PutPosIs(Keys(b), e.key, i);
    PlacePromoted(b.link, i, b.nkeys, link1, link2);
  }

  lemma PlacePromoted(link: seq<int>, i: nat, n: nat, link1: int, link2: int)
    requires i <= n && n + 1 < |link|
    requires link1 == link[i] && link1 >= 0 && link2 >= 0
    ensures PlaceLinks(SpreadLinks(link, i, n), i, link1, link2)[..n + 2]
         == link[..n + 1][..i + 1] + [link2] + link[..n + 1][i + 1..]
  {
    var sp := SpreadLinks(link, i, n);
    var r := PlaceLinks(sp, i, link1, link2);
    assert r == sp[i + 1 := link2] by {
      assert sp[i] == sp[..i + 1][i] == link[i];
    }
    assert r[..i + 1] == sp[..i + 1];
    assert r[i + 2..n + 2] == sp[i + 2..n + 2];
  }

  /** A key demoted onto the left end, with the orphan as its left link. */
  lemma PutDemotedLeft(b: Block, e: Entry, link1: int)
    requires 0 < b.nkeys < ZMXKEY
    requires AllAbove(Keys(b), e.key)
    requires link1 >= 0
    ensures Keys(PutKey(b, e, link1, ZNULL)) == [e] + Keys(b)
    ensures Links(PutKey(b, e, link1, ZNULL)) == [link1] + Links(b)
  {
    assert Keys(b)[..0] == [] && Keys(b)[0..] == Keys(b);
    PutPosIs(Keys(b), e.key, 0);
    var n := b.nkeys;
    var sp := SpreadLinks(b.link, 0, n);
    var r := PlaceLinks(sp, 0, link1, ZNULL);
    assert r == sp[0 := link1];
    assert r[..n + 2] == [link1, sp[1]] + r[2..n + 2];
    assert r[2..n + 2] == sp[2..n + 2];
  }

  /** A key demoted onto the right end, with the orphan as its right link. */
  lemma PutDemotedRight(b: Block, e: Entry, link2: int)
    requires 0 < b.nkeys < ZMXKEY
    requires link2 >= 0
    ensures Keys(PutKey(b, e, ZNULL, link2)) == Keys(b) + [e]
    ensures Links(PutKey(b, e, ZNULL, link2)) == Links(b) + [link2]
  {
  }

  lemma RemKeyView(b: Block, pos: nat)
    requires pos < b.nkeys <= ZMXKEY
    ensures Keys(RemKey(b, pos)) == Keys(b)[..pos] + Keys(b)[pos + 1..]
    ensures Links(RemKey(b, pos)) == Links(b)[..pos + 1] + Links(b)[pos + 2..]
  {
  }

  lemma RepKeyView(b: Block, loc: nat, e: Entry, link1: int, link2: int)
    requires loc < b.nkeys <= ZMXKEY
    ensures Keys(RepKey(b, loc, e, link1, link2)) == Keys(b)[loc := e]
    ensures Links(RepKey(b, loc, e, link1, link2)) == Links(b)[loc := link1][loc + 1 := link2]
  {
  }

  /** A copy to the start of a block whose count is then set to n. */
  lemma CopyFromStartView(t: Block, f: Block, fs: nat, n: nat)
    requires fs + n <= f.nkeys <= ZMXKEY
    ensures Keys(CopyKeys(t, f, 0, fs, n).(nkeys := n)) == Keys(f)[fs..fs + n]
    ensures Links(CopyKeys(t, f, 0, fs, n).(nkeys := n)) == Links(f)[fs..fs + n + 1]
  {
  }

  /** Appending one leaf to another: the one-place shift of the links is
      harmless because they are all null. */
  lemma CopyAppendLeafView(t: Block, f: Block)
    requires 0 < t.nkeys && 0 <= f.nkeys && t.nkeys + f.nkeys <= ZMXKEY
    requires forall i :: 0 <= i <= t.nkeys ==> t.link[i] == ZNULL
    requires forall i :: 0 <= i <= f.nkeys ==> f.link[i] == ZNULL
    ensures var c := CopyKeys(t, f, t.nkeys, 0, f.nkeys).(nkeys := t.nkeys + f.nkeys);
            Keys(c) == Keys(t) + Keys(f) && forall i :: 0 <= i < |Links(c)| ==> Links(c)[i] == ZNULL
  {
  }

  /** bsrhbk with a negative location: binary search.  The result is negative
      or positive when the key belongs to the left or right of loc. */
  method SearchBlock(b: Block, key: int) returns (loc: int, result: int)
    requires 0 <= b.nkeys <= ZMXKEY
    requires forall i, j :: 0 <= i < j < b.nkeys ==> b.key[i].key < b.key[j].key
    ensures b.nkeys == 0 ==> loc == ZNULL && result < 0
    ensures b.nkeys > 0 ==> 0 <= loc < b.nkeys
    ensures result == 0 ==> Keys(b)[loc].key == key
    ensures result < 0 && b.nkeys > 0 ==> AllBelow(Keys(b)[..loc], key) && AllAbove(Keys(b)[loc..], key)
    ensures result > 0 ==> AllBelow(Keys(b)[..loc + 1], key) && AllAbove(Keys(b)[loc + 1..], key)
  {
    var nkeys := b.nkeys;
    loc := ZNULL;
    result := -1;
    var quit := false;
    var lo := 0;
    var hi := nkeys - 1;
    var md := -1;
    while lo <= hi && !quit
      invariant 0 <= lo <= nkeys && -1 <= hi < nkeys && lo <= hi + 1
      invariant md == -1 ==> lo == 0 && hi == nkeys - 1 && !quit && result == -1
      invariant -1 <= md < nkeys
      invariant quit ==> md >= 0 && result != 0 && lo > hi
      invariant forall i :: 0 <= i < lo ==> b.key[i].key < key
      invariant forall i :: hi < i < nkeys ==> key < b.key[i].key
      invariant md >= 0 ==> result != 0 && (result < 0 ==> hi == md - 1) && (result > 0 ==> lo == md + 1)
      decreases hi + 1 - lo
    {
      quit := lo == hi;
      md := (lo + hi) / 2;
      result := if key < b.key[md].key then -1 else if key > b.key[md].key then 1 else 0;
      if result > 0 {
        lo := md + 1;
      } else if result < 0 {
        hi := md - 1;
      } else {
        break;
      }
    }
    loc := md;
  }
}
