/** Data blocks (src-lib/btdata.c): byte strings of any length, cut into segments
    that are packed into data blocks and chained by address. */
module DataSegments {
  import opened Constants

  /** Bytes per word, and bytes per block (a segment's size has to fit into two
      bytes). */
  type WordSize = n: nat | n == 4 || n == 8 witness 4
  type BlockSize = n: nat | 512 <= n <= 65536 witness 1024
  const ZBPW: WordSize
  const ZBLKSZ: BlockSize

  /** Information words per block, and bytes in front of a segment's data: its
      size and the address of the next segment. */
  const ZINFSZ: nat := 6
  const ZDRSZ: nat := 2
  const ZDOVRH: nat := ZDRSZ + ZBPW

  /** Data bytes in a block. */
  const ROOM: nat := ZBLKSZ - ZINFSZ * ZBPW

  /** Smallest piece a record is cut into; entries of duplicate keys, which take
      ZKYLEN bytes, a flag (padded to a word) and three words, are never cut. */
  const ZDSGMN: nat := 7
  const DKEYSZ: nat := 32 + ZBPW + 3 * ZBPW

  type Byte = b: int | 0 <= b < 256

  /** A data block: its information words and its bytes. */
  datatype DatBlk = DatBlk(btype: int, misc: int, nxblk: int, nkeys: int, nblks: int, nxdup: int, data: seq<Byte>)

  /** The data blocks in use. */
  type File = map<int, DatBlk>

  function MinSeg(btype: int): nat {
    if btype == ZDATA then ZDSGMN else DKEYSZ
  }

  // ---------------------------------------------------------------------
  // Numbers in bytes
  // ---------------------------------------------------------------------

  /** wrsz and wrint: the low bytes of a number, lowest first. */
  function Bytes(v: nat, n: nat): (bs: seq<Byte>)
    ensures |bs| == n
  {
    if n == 0 then [] else [v % 256] + Bytes(v / 256, n - 1)
  }

  /** rdsz and rdint. */
  function Value(bs: seq<Byte>): nat {
    if |bs| == 0 then 0 else bs[0] + 256 * Value(bs[1..])
  }

  /** What is written is read back, if it fits. */
  lemma {:induction false} ValueBytes(v: nat, n: nat)
    requires v < Power(n)
    ensures Value(Bytes(v, n)) == v
    decreases n
  {
    if n > 0 {
      ValueBytes(v / 256, n - 1);
      assert Bytes(v, n)[1..] == Bytes(v / 256, n - 1);
    }
  }

  lemma SizeFits(n: nat)
    requires n <= ROOM
    ensures n < Power(ZDRSZ)
  {
    assert Power(2) == 256 * Power(1) && Power(1) == 256 * Power(0);
  }

  // ---------------------------------------------------------------------
  // Addresses
  // ---------------------------------------------------------------------

  /** mkdraddr and cnvdraddr. */
  function Address(blk: nat, offset: nat): nat {
    blk * ZBLKSZ + offset
  }

  function BlkOf(a: nat): nat {
    Quotient(a, ZBLKSZ);
    a / ZBLKSZ
  }

  lemma Quotient(a: nat, d: nat)
    requires d > 0
    ensures a / d >= 0
  {
  }

  function OffOf(a: nat): nat {
    a % ZBLKSZ
  }

  /** All places in block b have an address that is positive as a signed word; 0
      ends a chain. */
  ghost predicate Addressable(b: int) {
    b > 0 && 2 * (b * ZBLKSZ + ZBLKSZ) <= Power(ZBPW)
  }

  lemma AddressParts(blk: nat, offset: nat)
    requires offset < ZBLKSZ
    ensures BlkOf(Address(blk, offset)) == blk && OffOf(Address(blk, offset)) == offset
    ensures Addressable(blk) ==> 0 < Address(blk, offset) < Power(ZBPW)
  {
    Division(blk, offset, ZBLKSZ);
    assert blk > 0 ==> blk * ZBLKSZ > 0;
  }

  lemma PartsAddress(a: nat)
    ensures Address(BlkOf(a), OffOf(a)) == a && OffOf(a) < ZBLKSZ
  {
  }

  lemma Division(q: nat, r: nat, d: nat)
    requires r < d
    ensures (q * d + r) / d == q && (q * d + r) % d == r
  {
    var x := q * d + r;
    var k, m := x / d, x % d;
    assert (k - q) * d == r - m;
    SmallMultiple(k - q, d);
  }

  lemma SmallMultiple(z: int, d: int)
    requires -d < z * d < d
    ensures z == 0
  {
    assert z >= 1 ==> z * d >= d;
    assert z <= -1 ==> z * d <= -d;
  }

  // ---------------------------------------------------------------------
  // Writing bytes
  // ---------------------------------------------------------------------

  /** The bytes d with bs written at o. */
  function Splice(d: seq<Byte>, o: nat, bs: seq<Byte>): (r: seq<Byte>)
    requires o + |bs| <= |d|
    ensures |r| == |d|
  {
    d[..o] + bs + d[o + |bs|..]
  }

  lemma SpliceIn(d: seq<Byte>, o: nat, bs: seq<Byte>)
    requires o + |bs| <= |d|
    ensures Splice(d, o, bs)[o..o + |bs|] == bs
  {
  }

  lemma SpliceOut(d: seq<Byte>, o: nat, bs: seq<Byte>, i: nat, j: nat)
    requires o + |bs| <= |d| && i <= j <= |d| && (j <= o || o + |bs| <= i)
    ensures Splice(d, o, bs)[i..j] == d[i..j]
  {
    var r := Splice(d, o, bs);
    forall k | i <= k < j
      ensures r[k] == d[k]
    {
    }
  }

  // ---------------------------------------------------------------------
  // Segments
  // ---------------------------------------------------------------------

  ghost predicate BlkOK(b: DatBlk) {
    |b.data| == ROOM && 0 <= b.nkeys <= ROOM
  }

  ghost function SizeAt(d: seq<Byte>, o: nat): nat
    requires o + ZDOVRH <= |d|
  {
    Value(d[o..o + ZDRSZ])
  }

  ghost function NextAt(d: seq<Byte>, o: nat): nat
    requires o + ZDOVRH <= |d|
  {
    Value(d[o + ZDRSZ..o + ZDOVRH])
  }

  /** The segment at offset o is below the next free byte. */
  ghost predicate InBlk(b: DatBlk, o: nat) {
    BlkOK(b) && o + ZDOVRH <= b.nkeys && o + ZDOVRH + SizeAt(b.data, o) <= b.nkeys
  }

  ghost predicate SegIn(f: File, a: nat) {
    a > 0 && BlkOf(a) in f && InBlk(f[BlkOf(a)], OffOf(a))
  }

  ghost function Size(f: File, a: nat): nat
    requires SegIn(f, a)
  {
    SizeAt(f[BlkOf(a)].data, OffOf(a))
  }

  ghost function Next(f: File, a: nat): nat
    requires SegIn(f, a)
  {
    NextAt(f[BlkOf(a)].data, OffOf(a))
  }

  ghost function Payload(f: File, a: nat): seq<Byte>
    requires SegIn(f, a)
  {
    f[BlkOf(a)].data[OffOf(a) + ZDOVRH..OffOf(a) + ZDOVRH + Size(f, a)]
  }

  lemma SegFacts(f: File, a: nat)
    requires SegIn(f, a)
    ensures a > 0 && BlkOf(a) in f && BlkOK(f[BlkOf(a)])
    ensures OffOf(a) + ZDOVRH + Size(f, a) <= f[BlkOf(a)].nkeys <= ROOM == |f[BlkOf(a)].data|
    ensures |Payload(f, a)| == Size(f, a)
  {
  }

  /** From address a the segments of chain lead to z and make up the bytes rec. */
  ghost predicate Holds(f: File, chain: seq<nat>, a: nat, z: nat, rec: seq<Byte>)
    decreases |chain|
  {
    if |chain| == 0 then a == z && rec == []
    else
      && a == chain[0] && SegIn(f, a)
      && Size(f, a) <= |rec| && Payload(f, a) == rec[..Size(f, a)]
      && Holds(f, chain[1..], Next(f, a), z, rec[Size(f, a)..])
  }

  /** A segment in front of a chain, and the other way. */
  lemma HoldsMore(f: File, chain: seq<nat>, a: nat, z: nat, rec: seq<Byte>, bytes: seq<Byte>)
    requires SegIn(f, a) && Payload(f, a) == bytes && Holds(f, chain, Next(f, a), z, rec)
    ensures Holds(f, [a] + chain, a, z, bytes + rec)
  {
    assert ([a] + chain)[1..] == chain;
    assert (bytes + rec)[..|bytes|] == bytes && (bytes + rec)[|bytes|..] == rec;
  }

  lemma HoldsFirst(f: File, chain: seq<nat>, a: nat, z: nat, rec: seq<Byte>)
    requires Holds(f, chain, a, z, rec) && |chain| > 0
    ensures a == chain[0] && SegIn(f, a) && Size(f, a) <= |rec| && Payload(f, a) == rec[..Size(f, a)]
    ensures Holds(f, chain[1..], Next(f, a), z, rec[Size(f, a)..])
  {
  }

  lemma HoldsNone(f: File, a: nat)
    ensures Holds(f, [], a, a, [])
  {
  }

  /** Chains that meet. */
  lemma {:induction false} HoldsJoin(f: File, c1: seq<nat>, a: nat, m: nat, r1: seq<Byte>, c2: seq<nat>, z: nat,
                                     r2: seq<Byte>)
    requires Holds(f, c1, a, m, r1) && Holds(f, c2, m, z, r2)
    ensures Holds(f, c1 + c2, a, z, r1 + r2)
    decreases |c1|
  {
    hide SegIn, Size, Next, Payload;
    if |c1| == 0 {
      assert c1 + c2 == c2 && r1 + r2 == r2;
    } else {
      var n := Size(f, a);
      HoldsJoin(f, c1[1..], Next(f, a), m, r1[n..], c2, z, r2);
      HoldsMore(f, c1[1..] + c2, a, z, r1[n..] + r2, r1[..n]);
      assert [a] + (c1[1..] + c2) == c1 + c2;
      assert r1[..n] + (r1[n..] + r2) == r1 + r2;
    }
  }

  // ---------------------------------------------------------------------
  // Segments that stay the same
  // ---------------------------------------------------------------------

  ghost predicate SegSame(f: File, f': File, a: nat) {
    && SegIn(f, a) && SegIn(f', a) && Size(f', a) == Size(f, a) && Next(f', a) == Next(f, a) && Payload(f', a) == Payload(f, a)
    && f'[BlkOf(a)].btype == f[BlkOf(a)].btype
  }

  ghost predicate AllSame(f: File, f': File, S: set<nat>) {
    forall c :: c in S ==> SegSame(f, f', c)
  }

  lemma SegSameFacts(f: File, f': File, a: nat)
    requires SegSame(f, f', a)
    ensures SegIn(f, a) && SegIn(f', a) && Size(f', a) == Size(f, a)
    ensures Next(f', a) == Next(f, a) && Payload(f', a) == Payload(f, a)
    ensures BlkOf(a) in f && BlkOf(a) in f' && f'[BlkOf(a)].btype == f[BlkOf(a)].btype
  {
  }

  lemma SameTrans(f: File, f': File, f'': File, S: set<nat>, S': set<nat>)
    requires AllSame(f, f', S) && AllSame(f', f'', S') && S <= S'
    ensures AllSame(f, f'', S)
  {
    hide SegIn, Size, Next, Payload;
    forall c | c in S
      ensures SegSame(f, f'', c)
    {
      assert SegSame(f, f', c) && SegSame(f', f'', c);
    }
  }

  /** Bytes below the next free byte decide about a block's segments. */
  lemma SameBytes(f: File, f': File, a: nat)
    requires SegIn(f, a) && BlkOf(a) in f' && BlkOK(f'[BlkOf(a)]) && f'[BlkOf(a)].btype == f[BlkOf(a)].btype
    requires f[BlkOf(a)].nkeys <= f'[BlkOf(a)].nkeys
    requires f'[BlkOf(a)].data[..f[BlkOf(a)].nkeys] == f[BlkOf(a)].data[..f[BlkOf(a)].nkeys]
    ensures SegSame(f, f', a)
  {
    var b, o := BlkOf(a), OffOf(a);
    var d, d', n := f[b].data, f'[b].data, f[b].nkeys;
    SlicesSame(d, d', n, o, o + ZDRSZ);
    SlicesSame(d, d', n, o + ZDRSZ, o + ZDOVRH);
    SlicesSame(d, d', n, o + ZDOVRH, o + ZDOVRH + SizeAt(d, o));
  }

  lemma SlicesSame<T>(d: seq<T>, d': seq<T>, n: nat, i: nat, j: nat)
    requires n <= |d| && n <= |d'| && d'[..n] == d[..n] && i <= j <= n
    ensures d'[i..j] == d[i..j]
  {
    forall k | i <= k < j
      ensures d'[k] == d[k]
    {
      assert d'[..n][k] == d[..n][k];
    }
  }

  lemma {:induction false} HoldsFrame(f: File, f': File, chain: seq<nat>, a: nat, z: nat, rec: seq<Byte>)
    requires Holds(f, chain, a, z, rec) && forall c :: c in chain ==> SegSame(f, f', c)
    ensures Holds(f', chain, a, z, rec)
    decreases |chain|
  {
    hide SegIn, Size, Next, Payload, SegSame;
    if |chain| > 0 {
      SegSameFacts(f, f', a);
      HoldsFrame(f, f', chain[1..], Next(f, a), z, rec[Size(f, a)..]);
    }
  }

  // ---------------------------------------------------------------------
  // All segments together
  // ---------------------------------------------------------------------

  /** Two segments do not share bytes. */
  ghost predicate Apart(f: File, a: nat, b: nat)
    requires SegIn(f, a) && SegIn(f, b)
  {
    || BlkOf(a) != BlkOf(b)
    || OffOf(a) + ZDOVRH + Size(f, a) <= OffOf(b)
    || OffOf(b) + ZDOVRH + Size(f, b) <= OffOf(a)
  }

  ghost predicate SegsOK(f: File, S: set<nat>) {
    && (forall a :: a in S ==> SegIn(f, a))
    && (forall a, b :: a in S && b in S && a != b ==> Apart(f, a, b))
  }

  /** Bytes of block b taken by segment a. */
  ghost function Taken(f: File, a: nat, b: int): nat {
    if SegIn(f, a) && BlkOf(a) == b then ZDOVRH + Size(f, a) else 0
  }

  /** Bytes of block b taken by the segments S. */
  ghost function Used(f: File, S: set<nat>, b: int): nat {
    if S == {} then 0
    else
      var a :| a in S;
      Taken(f, a, b) + Used(f, S - {a}, b)
  }

  lemma {:induction false} UsedLess(f: File, S: set<nat>, b: int, a: nat)
    requires a in S
    ensures Used(f, S, b) == Taken(f, a, b) + Used(f, S - {a}, b)
    decreases |S|
  {
    hide Taken;
    var c :| c in S && Used(f, S, b) == Taken(f, c, b) + Used(f, S - {c}, b);
    if a != c {
      UsedLess(f, S - {c}, b, a);
      UsedLess(f, S - {a}, b, c);
      assert S - {c} - {a} == S - {a} - {c};
    }
  }

  lemma UsedMore(f: File, S: set<nat>, b: int, a: nat)
    requires a !in S
    ensures Used(f, S + {a}, b) == Taken(f, a, b) + Used(f, S, b)
  {
    UsedLess(f, S + {a}, b, a);
    assert S + {a} - {a} == S;
  }

  lemma {:induction false} UsedFrame(f: File, f': File, S: set<nat>, b: int)
    requires forall c :: c in S ==> Taken(f', c, b) == Taken(f, c, b)
    ensures Used(f', S, b) == Used(f, S, b)
    decreases |S|
  {
    hide Taken;
    if S != {} {
      var a :| a in S;
      UsedLess(f, S, b, a);
      UsedLess(f', S, b, a);
      UsedFrame(f, f', S - {a}, b);
    }
  }

  lemma TakenSame(f: File, f': File, a: nat, b: int)
    requires SegSame(f, f', a)
    ensures Taken(f', a, b) == Taken(f, a, b)
  {
  }

  lemma {:induction false} UsedNone(f: File, S: set<nat>, b: int)
    requires forall c :: c in S ==> SegIn(f, c)
    ensures Used(f, S, b) == 0 <==> forall c :: c in S ==> BlkOf(c) != b
    decreases |S|
  {
    hide SegIn, Size;
    if S != {} {
      var a :| a in S;
      UsedLess(f, S, b, a);
      UsedNone(f, S - {a}, b);
    }
  }

  /** Free bytes are counted exactly, and every block in use is used. */
  ghost predicate Exactly(f: File, S: set<nat>, b: int)
    requires b in f
  {
    f[b].misc == ROOM - Used(f, S, b) && Used(f, S, b) <= f[b].nkeys
  }

  ghost predicate Counted(f: File, S: set<nat>) {
    forall b :: b in f ==> Exactly(f, S, b)
  }

  ghost predicate BlockOK(b: int, d: DatBlk) {
    Addressable(b) && BlkOK(d) && (d.btype == ZDATA || d.btype == ZDUP) && d.nxdup == MinSeg(d.btype)
  }

  ghost predicate BlocksOK(f: File) {
    forall b :: b in f ==> BlockOK(b, f[b])
  }

  /** nxblk and nblks are each other's inverse and name blocks in use. */
  ghost predicate LinkOK(f: File, b: int)
    requires b in f
  {
    && (f[b].nxblk != ZNULL ==> f[b].nxblk in f && f[f[b].nxblk].nblks == b)
    && (f[b].nblks != ZNULL ==> f[b].nblks in f && f[f[b].nblks].nxblk == b)
  }

  ghost predicate ListOK(f: File) {
    forall b :: b in f ==> LinkOK(f, b)
  }

  /** A list of data blocks starts with a block of the right type. */
  ghost predicate HeadOK(f: File, head: int, btype: int) {
    head != ZNULL ==> head in f && f[head].btype == btype && f[head].nblks == ZNULL
  }

  ghost predicate FileOK(f: File, S: set<nat>) {
    BlocksOK(f) && SegsOK(f, S) && Counted(f, S) && ListOK(f)
  }

  /** No block but b is without segments. */
  ghost predicate BusyBut(f: File, S: set<nat>, b: int) {
    forall c :: c in f && c != b ==> Used(f, S, c) > 0
  }

  /** The blocks the allocator gives next: new ones, all different. */
  ghost predicate FreeOK(f: File, free: seq<int>) {
    && (forall i :: 0 <= i < |free| ==> free[i] !in f && Addressable(free[i]))
    && (forall i, j :: 0 <= i < j < |free| ==> free[i] != free[j])
  }

  ghost function Elems<T>(s: seq<T>): set<T> {
    set x | x in s
  }

  // ---------------------------------------------------------------------
  // A new segment
  // ---------------------------------------------------------------------

  /** insdat on a block's image. */
  function InsSeg(b: DatBlk, bytes: seq<Byte>, prev: nat): DatBlk
    requires 0 <= b.nkeys && b.nkeys + ZDOVRH + |bytes| <= |b.data|
  {
    var n := b.nkeys;
    var d := Splice(Splice(Splice(b.data, n, Bytes(|bytes|, ZDRSZ)), n + ZDRSZ, Bytes(prev, ZBPW)), n + ZDOVRH, bytes);
    b.(data := d, nkeys := n + ZDOVRH + |bytes|, misc := b.misc - (ZDOVRH + |bytes|))
  }

  lemma InsSegBytes(b: DatBlk, bytes: seq<Byte>, prev: nat)
    requires BlkOK(b) && b.nkeys + ZDOVRH + |bytes| <= ROOM && prev < Power(ZBPW)
    ensures var b', n := InsSeg(b, bytes, prev), b.nkeys;
            && BlkOK(b') && b'.data[..n] == b.data[..n] && SizeAt(b'.data, n) == |bytes| && NextAt(b'.data, n) == prev
            && b'.data[n + ZDOVRH..n + ZDOVRH + |bytes|] == bytes
  {
    hide Splice, Value, Bytes, Power;
    var n, sz, nx := b.nkeys, Bytes(|bytes|, ZDRSZ), Bytes(prev, ZBPW);
    var d1 := Splice(b.data, n, sz);
    var d2 := Splice(d1, n + ZDRSZ, nx);
    SizeFits(|bytes|);
    ValueBytes(|bytes|, ZDRSZ);
    ValueBytes(prev, ZBPW);
    SpliceIn(b.data, n, sz);
    SpliceIn(d1, n + ZDRSZ, nx);
    SpliceIn(d2, n + ZDOVRH, bytes);
    SpliceOut(b.data, n, sz, 0, n);
    SpliceOut(d1, n + ZDRSZ, nx, 0, n);
    SpliceOut(d2, n + ZDOVRH, bytes, 0, n);
    SpliceOut(d1, n + ZDRSZ, nx, n, n + ZDRSZ);
    SpliceOut(d2, n + ZDOVRH, bytes, n, n + ZDRSZ);
    SpliceOut(d2, n + ZDOVRH, bytes, n + ZDRSZ, n + ZDOVRH);
  }

  lemma InsSegInfo(b: DatBlk, bytes: seq<Byte>, prev: nat)
    requires BlkOK(b) && b.nkeys + ZDOVRH + |bytes| <= ROOM
    ensures InsSeg(b, bytes, prev) == b.(data := InsSeg(b, bytes, prev).data, nkeys := b.nkeys + ZDOVRH + |bytes|,
                                         misc := b.misc - (ZDOVRH + |bytes|))
  {
  }

  /** The new segment, and all others as before. */
  lemma Inserted(f: File, S: set<nat>, blk: nat, bytes: seq<Byte>, prev: nat)
    requires FileOK(f, S) && blk in f && f[blk].nkeys + ZDOVRH + |bytes| <= ROOM && prev < Power(ZBPW)
    ensures BlkOK(f[blk])
    ensures var f', a := f[blk := InsSeg(f[blk], bytes, prev)], Address(blk, f[blk].nkeys);
            && a !in S && SegIn(f', a) && Size(f', a) == |bytes| && Next(f', a) == prev && Payload(f', a) == bytes
            && 0 < a < Power(ZBPW) && BlkOf(a) == blk && AllSame(f, f', S)
            && forall c :: c in S ==> Apart(f', a, c)
  {
    hide InsSeg, SizeAt, NextAt, Counted, ListOK, Address, BlkOf, OffOf, Addressable, Apart;
    var b, n := f[blk], f[blk].nkeys;
    var f', a := f[blk := InsSeg(b, bytes, prev)], Address(blk, n);
    assert BlockOK(blk, b);
    InsSegBytes(b, bytes, prev);
    InsSegInfo(b, bytes, prev);
    AddressParts(blk, n);
    forall c | c in S
      ensures SegSame(f, f', c) && c != a && Apart(f', a, c)
    {
      assert SegIn(f, c);
      SegFacts(f, c);
      SameBytes(f, f', c);
      ApartAbove(f', a, c, f[blk].nkeys);
    }
  }

  lemma ApartAbove(f: File, a: nat, c: nat, n: nat)
    requires SegIn(f, a) && SegIn(f, c) && OffOf(a) == n
    requires BlkOf(c) == BlkOf(a) ==> OffOf(c) + ZDOVRH + Size(f, c) <= n
    ensures Apart(f, a, c) && a != c
  {
  }

  lemma SegsFrame(f: File, f': File, S: set<nat>)
    requires SegsOK(f, S) && AllSame(f, f', S)
    ensures SegsOK(f', S)
  {
    hide SegIn, Size, Next, Payload;
    forall a | a in S
      ensures SegIn(f', a)
    {
      assert SegSame(f, f', a);
    }
    forall a, b | a in S && b in S && a != b
      ensures Apart(f', a, b)
    {
      assert SegSame(f, f', a) && SegSame(f, f', b) && Apart(f, a, b);
    }
  }

  lemma AllSameUsed(f: File, f': File, S: set<nat>, b: int)
    requires AllSame(f, f', S)
    ensures Used(f', S, b) == Used(f, S, b)
  {
    hide SegSame, Taken, Used;
    forall c | c in S
      ensures Taken(f', c, b) == Taken(f, c, b)
    {
      TakenSame(f, f', c, b);
    }
    UsedFrame(f, f', S, b);
  }

  lemma TakenIs(f: File, a: nat, b: int)
    requires SegIn(f, a)
    ensures Taken(f, a, b) == if BlkOf(a) == b then ZDOVRH + Size(f, a) else 0
  {
  }

  /** After insdat everything is in order again, with one segment more. */
  lemma InsertedOK(f: File, S: set<nat>, blk: nat, bytes: seq<Byte>, prev: nat)
    requires FileOK(f, S) && blk in f && f[blk].nkeys + ZDOVRH + |bytes| <= ROOM && prev < Power(ZBPW)
    ensures BlkOK(f[blk])
    ensures var f', a := f[blk := InsSeg(f[blk], bytes, prev)], Address(blk, f[blk].nkeys);
            && FileOK(f', S + {a})
            && (forall c :: BusyBut(f, S, c) && (c == blk || c == ZNULL) ==> BusyBut(f', S + {a}, ZNULL))
  {
    hide InsSeg, SizeAt, NextAt, Address, BlkOf, OffOf, Addressable, Used, SegIn, Size, Next, Payload, SegSame;
    assert BlockOK(blk, f[blk]);
    var f', a := f[blk := InsSeg(f[blk], bytes, prev)], Address(blk, f[blk].nkeys);
    Inserted(f, S, blk, bytes, prev);
    InsSegInfo(f[blk], bytes, prev);
    InsSegBytes(f[blk], bytes, prev);
    SegsFrame(f, f', S);
    forall b | b in f'
      ensures Exactly(f', S + {a}, b) && Used(f', S + {a}, b) >= Used(f, S, b) && BlockOK(b, f'[b]) && LinkOK(f', b)
      ensures b == blk ==> Used(f', S + {a}, b) > 0
    {
      assert Exactly(f, S, b) && BlockOK(b, f[b]) && LinkOK(f, b);
      AllSameUsed(f, f', S, b);
      UsedMore(f', S, b, a);
      TakenIs(f', a, b);
    }
    ApartSym(f', S, a);
  }

  lemma ApartSym(f: File, S: set<nat>, a: nat)
    requires SegsOK(f, S) && SegIn(f, a) && forall c :: c in S ==> Apart(f, a, c)
    ensures SegsOK(f, S + {a})
  {
    hide SegIn, Size;
    forall c | c in S
      ensures SegIn(f, c) && Apart(f, c, a)
    {
      assert Apart(f, a, c);
    }
  }

  // ---------------------------------------------------------------------
  // Writing over a segment
  // ---------------------------------------------------------------------

  /** Bytes written inside one segment leave all others alone. */
  lemma SpliceFrame(f: File, f': File, S: set<nat>, a: nat, o: nat, bs: seq<Byte>)
    requires SegsOK(f, S) && a in S && SegIn(f, a) && OffOf(a) <= o && o + |bs| <= OffOf(a) + ZDOVRH + Size(f, a)
    requires var b := BlkOf(a);
             f'.Keys == f.Keys && (forall c :: c in f && c != b ==> f'[c] == f[c])
             && f'[b].data == Splice(f[b].data, o, bs) && f'[b].nkeys == f[b].nkeys && f'[b].btype == f[b].btype
    ensures AllSame(f, f', S - {a})
  {
    hide Splice, Value, BlkOf, OffOf;
    forall c | c in S && c != a
      ensures SegSame(f, f', c)
    {
      assert SegIn(f, c) && Apart(f, a, c);
      if BlkOf(c) != BlkOf(a) {
        SameBytes(f, f', c);
      } else {
        SpliceApart(f[BlkOf(a)], f'[BlkOf(a)], OffOf(c), o, bs);
      }
    }
  }

  lemma SpliceApart(b: DatBlk, b': DatBlk, p: nat, o: nat, bs: seq<Byte>)
    requires InBlk(b, p) && o + |bs| <= |b.data| && (o + |bs| <= p || p + ZDOVRH + SizeAt(b.data, p) <= o)
    requires b'.data == Splice(b.data, o, bs) && b'.nkeys == b.nkeys
    ensures InBlk(b', p) && SizeAt(b'.data, p) == SizeAt(b.data, p) && NextAt(b'.data, p) == NextAt(b.data, p)
    ensures b'.data[p + ZDOVRH..p + ZDOVRH + SizeAt(b.data, p)] == b.data[p + ZDOVRH..p + ZDOVRH + SizeAt(b.data, p)]
  {
    hide Splice, Value;
    var d := b.data;
    SpliceOut(d, o, bs, p, p + ZDRSZ);
    SpliceOut(d, o, bs, p + ZDRSZ, p + ZDOVRH);
    SpliceOut(d, o, bs, p + ZDOVRH, p + ZDOVRH + SizeAt(d, p));
  }

  /** bupddt's copy into the segment at offset o. */
  function Rewrite(b: DatBlk, o: nat, bytes: seq<Byte>): DatBlk
    requires o + ZDOVRH + |bytes| <= |b.data|
  {
    b.(data := Splice(b.data, o + ZDOVRH, bytes))
  }

  /** And what it does to the last segment: the new size, no next segment, and
      the bytes given back. */
  function Cut(b: DatBlk, o: nat, size: nat, n: nat): DatBlk
    requires o + ZDOVRH <= |b.data|
  {
    b.(data := Splice(Splice(b.data, o, Bytes(n, ZDRSZ)), o + ZDRSZ, Bytes(0, ZBPW)), misc := b.misc + (size - n))
  }

  lemma RewriteBytes(b: DatBlk, o: nat, bytes: seq<Byte>)
    requires InBlk(b, o) && |bytes| <= SizeAt(b.data, o)
    ensures var b', n := Rewrite(b, o, bytes), SizeAt(b.data, o);
            && InBlk(b', o) && SizeAt(b'.data, o) == n && NextAt(b'.data, o) == NextAt(b.data, o)
            && b'.data[o + ZDOVRH..o + ZDOVRH + n] == bytes + b.data[o + ZDOVRH + |bytes|..o + ZDOVRH + n]
  {
    hide Splice, Value;
    var d, p, n := b.data, o + ZDOVRH, SizeAt(b.data, o);
    SpliceOut(d, p, bytes, o, o + ZDRSZ);
    SpliceOut(d, p, bytes, o + ZDRSZ, o + ZDOVRH);
    SpliceOut(d, p, bytes, p + |bytes|, p + n);
    SpliceIn(d, p, bytes);
    var r := Splice(d, p, bytes);
    assert r[p..p + n] == r[p..p + |bytes|] + r[p + |bytes|..p + n];
  }

  lemma CutBytes(b: DatBlk, o: nat, n: nat)
    requires InBlk(b, o) && n <= SizeAt(b.data, o)
    ensures var b' := Cut(b, o, SizeAt(b.data, o), n);
            && InBlk(b', o) && SizeAt(b'.data, o) == n && NextAt(b'.data, o) == 0
            && b'.data[o + ZDOVRH..o + ZDOVRH + n] == b.data[o + ZDOVRH..o + ZDOVRH + n]
  {
    hide Splice, Value, Bytes, Power;
    var d, sz, nx := b.data, Bytes(n, ZDRSZ), Bytes(0, ZBPW);
    var d1 := Splice(d, o, sz);
    SizeFits(n);
    ValueBytes(n, ZDRSZ);
    ValueBytes(0, ZBPW);
    SpliceIn(d, o, sz);
    SpliceIn(d1, o + ZDRSZ, nx);
    SpliceOut(d1, o + ZDRSZ, nx, o, o + ZDRSZ);
    SpliceOut(d, o, sz, o + ZDOVRH, o + ZDOVRH + n);
    SpliceOut(d1, o + ZDRSZ, nx, o + ZDOVRH, o + ZDOVRH + n);
  }

  /** A segment that did not grow, and nothing else changed. */
  ghost predicate Shrunk(f: File, f': File, S: set<nat>, a: nat) {
    && a in S && SegIn(f, a) && SegIn(f', a) && AllSame(f, f', S - {a}) && Size(f', a) <= Size(f, a)
    && f'.Keys == f.Keys && (forall c :: c in f && c != BlkOf(a) ==> f'[c] == f[c])
    && var b, b' := f[BlkOf(a)], f'[BlkOf(a)];
       b' == b.(data := b'.data, misc := b.misc + (Size(f, a) - Size(f', a)))
  }

  lemma ShrunkOK(f: File, f': File, S: set<nat>, a: nat)
    requires FileOK(f, S) && Shrunk(f, f', S, a)
    ensures FileOK(f', S) && (BusyBut(f, S, ZNULL) ==> BusyBut(f', S, ZNULL))
  {
    hide Used, Next, Payload, SizeAt, NextAt, SegSame, Addressable;
    SegsShrunk(f, f', S, a);
    forall b | b in f'
      ensures Exactly(f', S, b) && BlockOK(b, f'[b]) && LinkOK(f', b) && (Used(f, S, b) > 0 ==> Used(f', S, b) > 0)
    {
      assert Exactly(f, S, b) && BlockOK(b, f[b]) && LinkOK(f, b);
      AllSameUsed(f, f', S - {a}, b);
      UsedLess(f, S, b, a);
      UsedLess(f', S, b, a);
    }
  }

  lemma SegsShrunk(f: File, f': File, S: set<nat>, a: nat)
    requires SegsOK(f, S) && a in S && SegIn(f', a) && AllSame(f, f', S - {a}) && Size(f', a) <= Size(f, a)
    ensures SegsOK(f', S)
  {
    hide SegIn, Size, Next, Payload;
    assert forall c :: c in S && c != a ==> c in S - {a};
    assert forall c :: c in S && c != a ==> SegSame(f, f', c);
    forall c, d | c in S && d in S && c != d
      ensures SegIn(f', c) && SegIn(f', d) && Apart(f', c, d)
    {
      assert Apart(f, c, d);
    }
    forall c | c in S
      ensures SegIn(f', c)
    {
    }
  }

  lemma SliceParts<T>(d: seq<T>, p: nat, n: nat, k: nat)
    requires p + n <= |d| && k <= n
    ensures d[p..p + n][..k] == d[p..p + k] && d[p..p + n][k..] == d[p + k..p + n]
  {
  }

  lemma Rewritten(f: File, S: set<nat>, a: nat, bytes: seq<Byte>)
    requires FileOK(f, S) && a in S && SegIn(f, a) && |bytes| <= Size(f, a)
    ensures var f' := f[BlkOf(a) := Rewrite(f[BlkOf(a)], OffOf(a), bytes)];
            && Shrunk(f, f', S, a) && Size(f', a) == Size(f, a) && Next(f', a) == Next(f, a)
            && Payload(f', a) == bytes + Payload(f, a)[|bytes|..]
  {
    hide Splice, Value, BlkOf, OffOf, BlocksOK, Counted, ListOK;
    var b, o := BlkOf(a), OffOf(a);
    var f' := f[b := Rewrite(f[b], o, bytes)];
    RewriteBytes(f[b], o, bytes);
    SpliceFrame(f, f', S, a, o + ZDOVRH, bytes);
    var d, n := f[b].data, Size(f, a);
    SliceParts(d, o + ZDOVRH, n, |bytes|);
  }

  lemma WasCut(f: File, S: set<nat>, a: nat, n: nat)
    requires FileOK(f, S) && a in S && SegIn(f, a) && n <= Size(f, a)
    ensures var f' := f[BlkOf(a) := Cut(f[BlkOf(a)], OffOf(a), Size(f, a), n)];
            && Shrunk(f, f', S, a) && Size(f', a) == n && Next(f', a) == 0 && Payload(f', a) == Payload(f, a)[..n]
  {
    hide Splice, Value, BlkOf, OffOf, BlocksOK, Counted, ListOK, Bytes;
    var b, o := BlkOf(a), OffOf(a);
    var size := Size(f, a);
    var f' := f[b := Cut(f[b], o, size, n)];
    CutBytes(f[b], o, n);
    var f1 := f[b := f[b].(data := Splice(f[b].data, o, Bytes(n, ZDRSZ)))];
    CutFrame(f, f', S, a, Bytes(n, ZDRSZ), Bytes(0, ZBPW));
    var d := f[b].data;
    SliceParts(d, o + ZDOVRH, size, n);
  }

  /** Size and next address are one piece of bytes. */
  lemma CutFrame(f: File, f': File, S: set<nat>, a: nat, sz: seq<Byte>, nx: seq<Byte>)
    requires SegsOK(f, S) && a in S && SegIn(f, a) && |sz| == ZDRSZ && |nx| == ZBPW
    requires var b, o := BlkOf(a), OffOf(a);
             f'.Keys == f.Keys && (forall c :: c in f && c != b ==> f'[c] == f[c])
             && f'[b].data == Splice(Splice(f[b].data, o, sz), o + ZDRSZ, nx)
             && f'[b].nkeys == f[b].nkeys && f'[b].btype == f[b].btype
    ensures AllSame(f, f', S - {a})
  {
    hide BlkOf, OffOf, Value, AllSame, SegsOK;
    var b, o := BlkOf(a), OffOf(a);
    assert Splice(Splice(f[b].data, o, sz), o + ZDRSZ, nx) == Splice(f[b].data, o, sz + nx);
    SpliceFrame(f, f', S, a, o, sz + nx);
  }

  lemma NoNull(f: File)
    requires BlocksOK(f)
    ensures ZNULL !in f
  {
    assert ZNULL in f ==> BlockOK(ZNULL, f[ZNULL]);
  }

  // ---------------------------------------------------------------------
  // A segment less
  // ---------------------------------------------------------------------

  /** deldat when the block keeps other segments. */
  lemma Released(f: File, S: set<nat>, a: nat)
    requires FileOK(f, S) && a in S && SegIn(f, a)
    ensures var b := BlkOf(a); var f' := f[b := f[b].(misc := f[b].misc + (Size(f, a) + ZDOVRH))];
            && FileOK(f', S - {a}) && AllSame(f, f', S - {a})
            && f'[b].misc == ROOM - Used(f, S - {a}, b)
            && (BusyBut(f, S, ZNULL) ==> BusyBut(f', S - {a}, b))
            && forall c :: c in f ==> Used(f', S - {a}, c) == Used(f, S - {a}, c)
  {
    hide Used, Next, Payload, SizeAt, NextAt, Addressable, Apart, BlkOK, BlkOf, OffOf;
    var b := BlkOf(a);
    var f' := f[b := f[b].(misc := f[b].misc + (Size(f, a) + ZDOVRH))];
    forall c | c in S
      ensures SegSame(f, f', c)
    {
      MiscSame(f, f', c);
    }
    NoNull(f);
    SegsFrame(f, f', S - {a});
    forall c | c in f'
      ensures Exactly(f', S - {a}, c) && BlockOK(c, f'[c]) && LinkOK(f', c)
      ensures Used(f', S - {a}, c) == Used(f, S - {a}, c) && (c != b ==> Used(f, S - {a}, c) == Used(f, S, c))
    {
      assert Exactly(f, S, c) && BlockOK(c, f[c]) && LinkOK(f, c) && BlkOK(f[c]) == BlkOK(f'[c]);
      AllSameUsed(f, f', S - {a}, c);
      UsedLess(f, S, c, a);
      TakenIs(f, a, c);
    }
  }

  lemma MiscSame(f: File, f': File, c: nat)
    requires SegIn(f, c) && BlkOf(c) in f'
    requires f'[BlkOf(c)].data == f[BlkOf(c)].data && f'[BlkOf(c)].nkeys == f[BlkOf(c)].nkeys
    requires f'[BlkOf(c)].btype == f[BlkOf(c)].btype
    ensures SegSame(f, f', c)
  {
  }

  /** deldat and bmkfre: the block is taken out of its list and is gone. */
  function Unlinked(f: File, blk: int): File
    requires blk in f && LinkOK(f, blk)
  {
    var p, n := f[blk].nblks, f[blk].nxblk;
    var f1 := if n != ZNULL then f[n := f[n].(nblks := p)] else f;
    var f2 := if p != ZNULL then f1[p := f1[p].(nxblk := n)] else f1;
    f2 - {blk}
  }

  lemma UnlinkedAt(f: File, blk: int, b: int)
    requires blk in f && ListOK(f) && LinkOK(f, blk) && ZNULL !in f
    ensures b in Unlinked(f, blk) <==> b in f && b != blk
    ensures b in f && b != blk ==>
              Unlinked(f, blk)[b] == f[b].(nblks := if f[b].nblks == blk then f[blk].nblks else f[b].nblks,
                                           nxblk := if f[b].nxblk == blk then f[blk].nxblk else f[b].nxblk)
  {
    assert b in f ==> LinkOK(f, b);
  }

  lemma UnlinkedList(f: File, blk: int)
    requires blk in f && ListOK(f) && LinkOK(f, blk) && ZNULL !in f
    ensures ListOK(Unlinked(f, blk))
  {
    var f' := Unlinked(f, blk);
    hide Unlinked;
    forall b | b in f'
      ensures LinkOK(f', b)
    {
      UnlinkedAt(f, blk, b);
      assert LinkOK(f, b);
      UnlinkedAt(f, blk, f'[b].nxblk);
      UnlinkedAt(f, blk, f'[b].nblks);
      assert f'[b].nxblk != ZNULL ==> LinkOK(f, f'[b].nxblk);
      assert f'[b].nblks != ZNULL ==> LinkOK(f, f'[b].nblks);
    }
  }

  /** A block without segments can go. */
  lemma Freed(f: File, S: set<nat>, blk: int)
    requires FileOK(f, S) && blk in f && Used(f, S, blk) == 0 && LinkOK(f, blk)
    ensures var f' := Unlinked(f, blk);
            && FileOK(f', S) && AllSame(f, f', S) && f'.Keys == f.Keys - {blk}
            && (BusyBut(f, S, blk) ==> BusyBut(f', S, ZNULL))
            && forall b :: b in f' ==> f'[b].misc == f[b].misc && f'[b].nkeys == f[b].nkeys && f'[b].btype == f[b].btype
  {
    var f' := Unlinked(f, blk);
    hide Used, Size, Next, Payload, Unlinked, Addressable, BlkOf, OffOf, SegSame, InBlk, ListOK, LinkOK;
    NoNull(f);
    assert forall c :: c in S ==> SegIn(f, c);
    UsedNone(f, S, blk);
    forall b | b in f
      ensures b in f' <==> b != blk
      ensures b != blk ==> f'[b] == f[b].(nblks := f'[b].nblks, nxblk := f'[b].nxblk)
    {
      UnlinkedAt(f, blk, b);
    }
    forall b | b in f'
      ensures b in f
    {
      UnlinkedAt(f, blk, b);
    }
    UnlinkedList(f, blk);
    forall c | c in S
      ensures SegSame(f, f', c)
    {
      assert SegIn(f, c);
      SegFacts(f, c);
      MiscSame(f, f', c);
    }
    SegsFrame(f, f', S);
    FreedCounts(f, f', S, blk);
  }

  lemma FreedCounts(f: File, f': File, S: set<nat>, blk: int)
    requires BlocksOK(f) && Counted(f, S) && AllSame(f, f', S) && f'.Keys == f.Keys - {blk}
    requires forall b :: b in f' ==> f'[b] == f[b].(nblks := f'[b].nblks, nxblk := f'[b].nxblk)
    ensures BlocksOK(f') && Counted(f', S) && (BusyBut(f, S, blk) ==> BusyBut(f', S, ZNULL))
  {
    hide Used, SegSame, Addressable;
    forall b | b in f'
      ensures Exactly(f', S, b) && BlockOK(b, f'[b]) && Used(f', S, b) == Used(f, S, b)
    {
      assert Exactly(f, S, b) && BlockOK(b, f[b]);
      AllSameUsed(f, f', S, b);
    }
  }

  // ---------------------------------------------------------------------
  // A block more
  // ---------------------------------------------------------------------

  /** The information words mkdblk gives a new block; its bytes are arbitrary. */
  ghost predicate Empty(d: DatBlk, btype: int) {
    && d.btype == btype && d.misc == ROOM && d.nxblk == ZNULL && d.nkeys == 0 && d.nblks == ZNULL && d.nxdup == MinSeg(btype)
    && |d.data| == ROOM
  }

  /** A new block for an empty list. */
  lemma FirstBlock(f: File, S: set<nat>, blk: int, d: DatBlk)
    requires FileOK(f, S) && BusyBut(f, S, ZNULL) && blk !in f && Addressable(blk)
    requires (d.btype == ZDATA || d.btype == ZDUP) && Empty(d, d.btype)
    ensures var f' := f[blk := d];
            FileOK(f', S) && AllSame(f, f', S) && BusyBut(f', S, blk) && Used(f', S, blk) == 0
  {
    hide Used, Size, Next, Payload, Addressable, BlkOf, OffOf;
    var f' := f[blk := d];
    NewBlock(f, f', S, blk);
    NoNull(f);
    forall b | b in f'
      ensures Exactly(f', S, b) && BlockOK(b, f'[b]) && LinkOK(f', b)
    {
      assert b in f ==> Exactly(f, S, b) && BlockOK(b, f[b]) && LinkOK(f, b);
    }
  }

  lemma NewBlock(f: File, f': File, S: set<nat>, blk: int)
    requires FileOK(f, S) && blk !in f && blk in f' && (forall b :: b in f ==> b in f')
    requires forall b :: b in f ==> f'[b] == f[b].(nblks := f'[b].nblks, nxblk := f'[b].nxblk)
    ensures SegsOK(f', S) && AllSame(f, f', S) && Used(f', S, blk) == 0 && forall b :: Used(f', S, b) == Used(f, S, b)
  {
    hide Used, Size, Next, Payload, BlkOf, OffOf;
    forall c | c in S
      ensures SegSame(f, f', c)
    {
      assert SegIn(f, c);
      SegFacts(f, c);
      MiscSame(f, f', c);
    }
    SegsFrame(f, f', S);
    forall b
      ensures Used(f', S, b) == Used(f, S, b)
    {
      AllSameUsed(f, f', S, b);
    }
    assert forall c :: c in S ==> SegIn(f, c);
    UsedNone(f, S, blk);
  }

  /** A new block in front of block old. */
  lemma NextBlock(f: File, S: set<nat>, blk: int, d: DatBlk, last: int)
    requires FileOK(f, S) && BusyBut(f, S, ZNULL) && blk !in f && Addressable(blk)
    requires (d.btype == ZDATA || d.btype == ZDUP) && Empty(d, d.btype) && last in f && f[last].nblks == ZNULL
    ensures var f' := f[blk := d.(nxblk := last)][last := f[last].(nblks := blk)];
            && FileOK(f', S) && AllSame(f, f', S) && BusyBut(f', S, blk) && Used(f', S, blk) == 0
  {
    hide Used, Size, Next, Payload, Addressable, BlkOf, OffOf;
    var f' := f[blk := d.(nxblk := last)][last := f[last].(nblks := blk)];
    NewBlock(f, f', S, blk);
    assert BlockOK(last, f[last]);
    NoNull(f);
    forall b | b in f'
      ensures Exactly(f', S, b) && BlockOK(b, f'[b])
    {
      assert b in f ==> Exactly(f, S, b) && BlockOK(b, f[b]);
    }
    forall b | b in f'
      ensures LinkOK(f', b)
    {
      assert b in f ==> LinkOK(f, b) && BlockOK(b, f[b]);
    }
  }

  /** A block without segments starts from its beginning again. */
  lemma Emptied(f: File, S: set<nat>, blk: int)
    requires FileOK(f, S) && blk in f && Used(f, S, blk) == 0
    ensures var f' := f[blk := f[blk].(nkeys := 0)];
            && FileOK(f', S) && AllSame(f, f', S) && forall b :: Used(f', S, b) == Used(f, S, b)
  {
    hide Used, Size, Next, Payload, Addressable, BlkOf, OffOf;
    var f' := f[blk := f[blk].(nkeys := 0)];
    assert forall c :: c in S ==> SegIn(f, c);
    UsedNone(f, S, blk);
    forall c | c in S
      ensures SegSame(f, f', c)
    {
      assert SegIn(f, c);
      SegFacts(f, c);
      MiscSame(f, f', c);
    }
    SegsFrame(f, f', S);
    forall b
      ensures Used(f', S, b) == Used(f, S, b)
    {
      AllSameUsed(f, f', S, b);
    }
    forall b | b in f'
      ensures Exactly(f', S, b) && BlockOK(b, f'[b]) && LinkOK(f', b)
    {
      assert Exactly(f, S, b) && BlockOK(b, f[b]) && LinkOK(f, b);
    }
  }
}
