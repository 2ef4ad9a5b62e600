/** The byte format of blocks (serialization/src, chain/src/block.rs, chain/src/block_header.rs) as functions on bytes. */
module Codec {
  import opened Primitives
  import opened Powers
  import opened Sequences

  type Bytes = seq<byte>

  datatype ReadError = MalformedData | UnexpectedEnd | UnreadData

  /** A value read from the front of some bytes, and the bytes after it. */
  datatype Parsed<+T> = Good(value: T, rest: Bytes) | Bad(error: ReadError) {
    predicate IsFailure() {
      Bad?
    }

    function PropagateFailure<U>(): Parsed<U>
      requires Bad?
    {
      Bad(error)
    }

    function Extract(): (T, Bytes)
      requires Good?
    {
      (value, rest)
    }
  }

  /** Which 32 bytes are a public key: `VrfPk::from_bytes`. */
  type KeyCheck = Bytes -> bool

  // ---- Numbers as digits ----

  function Limit(n: nat): nat {
    if n == 0 then 1 else 256 * Limit(n - 1)
  }

  /** `n` bytes, least significant first. */
  function LittleEndian(v: nat, n: nat): (bs: Bytes)
    ensures |bs| == n
  {
    if n == 0 then [] else [v % 256] + LittleEndian(v / 256, n - 1)
  }

  function FromLittleEndian(bs: Bytes): nat {
    if bs == [] then 0 else bs[0] + 256 * FromLittleEndian(bs[1..])
  }

  /** `to_digits(Order::Msf)`: as many bytes as needed, most significant first, for the absolute value. */
  function Digits(v: nat): Bytes {
    if v == 0 then [] else Digits(v / 256) + [v % 256]
  }

  function FromDigits(bs: Bytes): nat {
    if bs == [] then 0 else 256 * FromDigits(bs[..|bs| - 1]) + bs[|bs| - 1]
  }

  // ---- Writing ----

  function SerU16(v: nat): Bytes {
    LittleEndian(v, 2)
  }

  function SerU32(v: u32): Bytes {
    LittleEndian(v, 4)
  }

  function SerU64(v: nat): Bytes {
    LittleEndian(v, 8)
  }

  function SerHash(h: Hash): Bytes {
    LittleEndian(h, 32)
  }

  /** CompactSize: one byte, or a marker byte and two, four or eight bytes. */
  function SerCompactInteger(n: u64): Bytes {
    if n <= 0xfc then [n]
    else if n <= 0xffff then [0xfd] + SerU16(n)
    else if n <= 0xffff_ffff then [0xfe] + SerU32(n)
    else [0xff] + SerU64(n)
  }

  function SerBytes(bs: Bytes): Bytes
    requires |bs| < TWO_POW_64
  {
    SerCompactInteger(|bs|) + bs
  }

  /** Integers that a node can hold have fewer than 2^64 digits. */
  ghost predicate Storable(v: int) {
    |Digits(Abs(v))| < TWO_POW_64
  }

  function Abs(v: int): nat {
    if v < 0 then -v else v
  }

  function SerInteger(v: int): Bytes
    requires Storable(v)
  {
    SerBytes(Digits(Abs(v)))
  }

  function SerIntegers(vs: seq<int>): Bytes
    requires forall i :: 0 <= i < |vs| ==> Storable(vs[i])
  {
    if vs == [] then [] else SerInteger(vs[0]) + SerIntegers(vs[1..])
  }

  ghost predicate StorableList(vs: seq<int>) {
    |vs| < TWO_POW_64 && forall i :: 0 <= i < |vs| ==> Storable(vs[i])
  }

  function SerList(vs: seq<int>): Bytes
    requires StorableList(vs)
  {
    SerCompactInteger(|vs|) + SerIntegers(vs)
  }

  ghost predicate StorableHeader(h: BlockHeader) {
    |h.pubkey| == 32 && Storable(h.randomness)
  }

  function SerHeader(h: BlockHeader): Bytes
    requires StorableHeader(h)
  {
    SerU32(h.version) + SerHash(h.previousHeaderHash) + SerU32(h.time) + SerU32(h.bits) +
    SerBytes(h.pubkey) + SerU32(h.iterations) + SerInteger(h.randomness)
  }

  ghost predicate StorableBlock(b: Block) {
    StorableHeader(b.header) && StorableList(b.proof)
  }

  function SerBlock(b: Block): Bytes
    requires StorableBlock(b)
  {
    SerHeader(b.header) + SerList(b.proof)
  }

  // ---- Announced sizes ----

  function CompactIntegerSize(n: u64): nat {
    if n <= 0xfc then 1 else if n <= 0xffff then 3 else if n <= 0xffff_ffff then 5 else 9
  }

  function IntegerSize(v: int): nat
    requires Storable(v)
  {
    CompactIntegerSize(|Digits(Abs(v))|) + |Digits(Abs(v))|
  }

  function SumSizes(vs: seq<int>): nat
    requires forall i :: 0 <= i < |vs| ==> Storable(vs[i])
  {
    if vs == [] then 0 else IntegerSize(vs[0]) + SumSizes(vs[1..])
  }

  /** `serialized_list_size`. */
  function ListSize(vs: seq<int>): nat
    requires StorableList(vs)
  {
    CompactIntegerSize(|vs|) + SumSizes(vs)
  }

  /** `IndexedBlock::size`; a header's size is the length of its serialization. */
  function BlockSize(b: Block): nat
    requires StorableBlock(b)
  {
    |SerHeader(b.header)| + ListSize(b.proof)
  }

  // ---- Reading ----

  function Take(bs: Bytes, n: nat): Parsed<Bytes> {
    if n <= |bs| then Good(bs[..n], bs[n..]) else Bad(UnexpectedEnd)
  }

  function ParseNumber(bs: Bytes, n: nat): (p: Parsed<nat>)
    ensures p.Good? ==> p.value < Limit(n)
  {
    var (digits, rest) :- Take(bs, n);
    FromLittleEndianBound(digits);
    Good(FromLittleEndian(digits), rest)
  }

  function ParseU32(bs: Bytes): Parsed<u32> {
    LimitValues();
    var (v, rest) :- ParseNumber(bs, 4);
    Good(v, rest)
  }

  function ParseHash(bs: Bytes): Parsed<Hash> {
    LimitValues();
    var (v, rest) :- ParseNumber(bs, 32);
    Good(v, rest)
  }

  function ParseCompactInteger(bs: Bytes): Parsed<u64> {
    LimitValues();
    var (first, rest) :- ParseNumber(bs, 1);
    if first <= 0xfc then Good(first, rest)
    else if first == 0xfd then var (v, rest) :- ParseNumber(rest, 2); Good(v, rest)
    else if first == 0xfe then var (v, rest) :- ParseNumber(rest, 4); Good(v, rest)
    else var (v, rest) :- ParseNumber(rest, 8); Good(v, rest)
  }

  function ParseBytes(bs: Bytes): Parsed<Bytes> {
    var (len, rest) :- ParseCompactInteger(bs);
    Take(rest, len)
  }

  function ParseInteger(bs: Bytes): Parsed<int> {
    var (digits, rest) :- ParseBytes(bs);
    Good(FromDigits(digits), rest)
  }

  /** `n` values of the same kind, one after another. */
  function ParseMany<T>(item: Bytes -> Parsed<T>, bs: Bytes, n: nat): Parsed<seq<T>>
    decreases n
  {
    if n == 0 then Good([], bs)
    else
      var (first, rest) :- item(bs);
      var (others, rest) :- ParseMany(item, rest, n - 1);
      Good([first] + others, rest)
  }

  function ParseIntegers(bs: Bytes, n: nat): Parsed<seq<int>> {
    ParseMany(ParseInteger, bs, n)
  }

  function ParseList(bs: Bytes): Parsed<seq<int>> {
    var (len, rest) :- ParseCompactInteger(bs);
    ParseIntegers(rest, len)
  }

  function ParseKey(bs: Bytes, isKey: KeyCheck): Parsed<Bytes> {
    var (key, rest) :- ParseBytes(bs);
    if |key| != 32 || !isKey(key) then Bad(MalformedData) else Good(key, rest)
  }

  function ParseHeader(bs: Bytes, isKey: KeyCheck): Parsed<BlockHeader> {
    var (version, rest) :- ParseU32(bs);
    var (previousHeaderHash, rest) :- ParseHash(rest);
    var (time, rest) :- ParseU32(rest);
    var (bits, rest) :- ParseU32(rest);
    var (pubkey, rest) :- ParseKey(rest, isKey);
    var (iterations, rest) :- ParseU32(rest);
    var (randomness, rest) :- ParseInteger(rest);
    Good(BlockHeader(version, previousHeaderHash, time, bits, pubkey, iterations, randomness), rest)
  }

  function ParseBlock(bs: Bytes, isKey: KeyCheck): Parsed<Block> {
    var (header, rest) :- ParseHeader(bs, isKey);
    var (proof, rest) :- ParseList(rest);
    Good(Block(header, proof), rest)
  }

  /** `deserialize`: the whole input must be used up. */
  function DeserializeBlock(bs: Bytes, isKey: KeyCheck): Result<Block, ReadError> {
    match ParseBlock(bs, isKey)
    case Bad(error) => Err(error)
    case Good(block, rest) => if rest == [] then Ok(block) else Err(UnreadData)
  }

  // ---- Digits round trip ----

  lemma LimitValues()
    ensures Limit(1) == 256 && Limit(2) == 0x1_0000 && Limit(4) == TWO_POW_32
    ensures Limit(8) == TWO_POW_64 && Limit(32) == TWO_POW_256
  {
    LimitFour(0);
    LimitFour(4);
    LimitFour(8);
    LimitFour(12);
    LimitFour(16);
    LimitFour(20);
    LimitFour(24);
    LimitFour(28);
  }

  lemma LimitFour(n: nat)
    ensures Limit(n + 4) == TWO_POW_32 * Limit(n)
  {
    assert Limit(n + 4) == 256 * Limit(n + 3);
    assert Limit(n + 3) == 256 * Limit(n + 2);
    assert Limit(n + 2) == 256 * Limit(n + 1);
  }

  lemma {:induction false} FromLittleEndianBound(bs: Bytes)
    ensures FromLittleEndian(bs) < Limit(|bs|)
  {
    if bs != [] {
      FromLittleEndianBound(bs[1..]);
    }
  }

  lemma {:induction false} LittleEndianRoundTrip(v: nat, n: nat)
    requires v < Limit(n)
    ensures FromLittleEndian(LittleEndian(v, n)) == v
  {
    if n > 0 {
      LittleEndianRoundTrip(v / 256, n - 1);
      assert LittleEndian(v, n)[1..] == LittleEndian(v / 256, n - 1);
    }
  }

  lemma {:induction false} DigitsRoundTrip(v: nat)
    ensures FromDigits(Digits(v)) == v
  {
    if v > 0 {
      DigitsRoundTrip(v / 256);
      assert Digits(v)[..|Digits(v)| - 1] == Digits(v / 256);
    }
  }

  // ---- Where the bytes are ----

  /** Byte `i` of a number. */
  lemma {:induction false} LittleEndianAt(v: nat, n: nat, i: nat)
    requires i < n
    ensures Pow(256, i) > 0 && LittleEndian(v, n)[i] == v / Pow(256, i) % 256
    decreases n
  {
    if i > 0 {
      LittleEndianAt(v / 256, n - 1, i - 1);
      DivideTwice(v, Pow(256, i - 1));
    }
  }

  /** Byte `i` of an integer of any size, and that none of them could be left out. */
  lemma {:induction false} DigitsAt(v: nat, i: nat)
    requires i < |Digits(v)|
    ensures var place := |Digits(v)| - 1 - i;
            Pow(256, place) > 0 && Digits(v)[i] == v / Pow(256, place) % 256
    ensures Digits(v)[0] != 0
    decreases v
  {
    var n := |Digits(v / 256)|;
    if v / 256 > 0 {
      DigitsAt(v / 256, if i < n then i else 0);
    }
    if i < n {
      DivideTwice(v, Pow(256, n - 1 - i));
    }
  }

  /** A length takes one byte, or a marker and as many bytes as it needs of two, four and eight. */
  lemma CompactIntegerLayout(n: u64)
    ensures var bytes := SerCompactInteger(n);
            && (n <= 0xfc <==> bytes == [n]) && (bytes[0] <= 0xfc <==> n <= 0xfc)
            && (bytes[0] == 0xfd ==> 0xfc < n < Limit(2) && bytes[1..] == LittleEndian(n, 2))
            && (bytes[0] == 0xfe ==> Limit(2) <= n < Limit(4) && bytes[1..] == LittleEndian(n, 4))
            && (bytes[0] == 0xff ==> Limit(4) <= n < Limit(8) && bytes[1..] == LittleEndian(n, 8))
  {
    LimitValues();
  }

  /** The first fields of a header, one after another, the key after one byte that holds its length. */
  lemma HeaderLayout(h: BlockHeader)
    requires StorableHeader(h)
    ensures var bytes := SerHeader(h);
            && |bytes| >= 81
            && bytes[..4] == LittleEndian(h.version, 4)
            && bytes[4..36] == LittleEndian(h.previousHeaderHash, 32)
            && bytes[36..40] == LittleEndian(h.time, 4)
            && bytes[40..44] == LittleEndian(h.bits, 4)
            && bytes[44..77] == [32] + h.pubkey
            && bytes[77..81] == LittleEndian(h.iterations, 4)
            && bytes[81..] == SerInteger(h.randomness)
  {
  }

  /** The bytes that seed the delay function are the beginning of the header, up to the iterations. */
  lemma SeedStartsHeader(h: BlockHeader)
    requires StorableHeader(h)
    ensures |SerHeader(h)| >= 77
    ensures SeedBytes(h.version, h.previousHeaderHash, h.time, h.bits, h.pubkey) == SerHeader(h)[..77]
  {
  }

  // ---- Every value reads back, whatever follows it ----

  lemma NumberReads(v: nat, n: nat, suffix: Bytes)
    requires v < Limit(n)
    ensures ParseNumber(LittleEndian(v, n) + suffix, n) == Good(v, suffix)
  {
    var bs := LittleEndian(v, n) + suffix;
    assert bs[..n] == LittleEndian(v, n) && bs[n..] == suffix;
    LittleEndianRoundTrip(v, n);
  }

  lemma U32Reads(v: u32, suffix: Bytes)
    ensures ParseU32(SerU32(v) + suffix) == Good(v, suffix)
  {
    LimitValues();
    NumberReads(v, 4, suffix);
  }

  lemma HashReads(h: Hash, suffix: Bytes)
    ensures ParseHash(SerHash(h) + suffix) == Good(h, suffix)
  {
    LimitValues();
    NumberReads(h, 32, suffix);
  }

  lemma MarkerReads(marker: byte, suffix: Bytes)
    ensures ParseNumber([marker] + suffix, 1) == Good(marker, suffix)
  {
    var bs := [marker] + suffix;
    assert bs[..1] == [marker] && bs[1..] == suffix && [marker][1..] == [];
    assert FromLittleEndian([marker]) == marker;
  }

  /** A marker reads back before whatever is put together after it. */
  lemma MarkerFirst(marker: byte, digits: Bytes, suffix: Bytes)
    ensures ParseNumber([marker] + digits + suffix, 1) == Good(marker, digits + suffix)
  {
    Associate([marker], digits, suffix);
    MarkerReads(marker, digits + suffix);
  }

  lemma CompactIntegerReads(n: u64, suffix: Bytes)
    ensures ParseCompactInteger(SerCompactInteger(n) + suffix) == Good(n, suffix)
  {
    LimitValues();
    if n <= 0xfc {
      MarkerReads(n, suffix);
    } else if n <= 0xffff {
      MarkerFirst(0xfd, SerU16(n), suffix);
      NumberReads(n, 2, suffix);
    } else if n <= 0xffff_ffff {
      MarkerFirst(0xfe, SerU32(n), suffix);
      NumberReads(n, 4, suffix);
    } else {
      MarkerFirst(0xff, SerU64(n), suffix);
      NumberReads(n, 8, suffix);
    }
  }

  lemma CompactIntegerSizes(n: u64)
    ensures |SerCompactInteger(n)| == CompactIntegerSize(n)
  {
  }

  lemma BytesReads(bs: Bytes, suffix: Bytes)
    requires |bs| < TWO_POW_64
    ensures ParseBytes(SerBytes(bs) + suffix) == Good(bs, suffix)
  {
    CompactIntegerReads(|bs|, bs + suffix);
    assert SerBytes(bs) + suffix == SerCompactInteger(|bs|) + (bs + suffix);
    assert (bs + suffix)[..|bs|] == bs && (bs + suffix)[|bs|..] == suffix;
  }

  /** A negative integer reads back as its absolute value. */
  lemma IntegerReads(v: int, suffix: Bytes)
    requires Storable(v)
    ensures ParseInteger(SerInteger(v) + suffix) == Good(Abs(v), suffix)
    ensures |SerInteger(v)| == IntegerSize(v)
  {
    BytesReads(Digits(Abs(v)), suffix);
    CompactIntegerSizes(|Digits(Abs(v))|);
    DigitsRoundTrip(Abs(v));
  }

  ghost predicate NonNegative(vs: seq<int>) {
    forall i :: 0 <= i < |vs| ==> vs[i] >= 0
  }

  lemma ConsReads<T>(item: Bytes -> Parsed<T>, bs: Bytes, n: nat, first: T, rest: Bytes, others: seq<T>, suffix: Bytes)
    requires n > 0 && item(bs) == Good(first, rest) && ParseMany(item, rest, n - 1) == Good(others, suffix)
    ensures ParseMany(item, bs, n) == Good([first] + others, suffix)
  {
  }

  /** Where the `i`-th integer of a list is. */
  lemma {:induction false} IntegerAt(vs: seq<int>, i: nat)
    requires i < |vs| && forall j :: 0 <= j < |vs| ==> Storable(vs[j])
    ensures IsAt(SerIntegers(vs), SumSizes(vs[..i]), SerInteger(vs[i]))
  {
    if i == 0 {
      FirstIsAt(SerInteger(vs[0]), SerIntegers(vs[1..]));
    } else {
      IntegerAt(vs[1..], i - 1);
      SizesBefore(vs, i);
      LaterIsAt(SerInteger(vs[0]), SerIntegers(vs[1..]), SumSizes(vs[1..][..i - 1]), SerInteger(vs[1..][i - 1]));
    }
  }

  lemma SizesBefore(vs: seq<int>, i: nat)
    requires 0 < i < |vs| && forall j :: 0 <= j < |vs| ==> Storable(vs[j])
    ensures SumSizes(vs[..i]) == |SerInteger(vs[0])| + SumSizes(vs[1..][..i - 1])
  {
    assert vs[..i][1..] == vs[1..][..i - 1];
    CompactIntegerSizes(|Digits(Abs(vs[0]))|);
  }

  lemma FirstIsAt(head: Bytes, tail: Bytes)
    ensures IsAt(head + tail, 0, head)
  {
  }

  ghost predicate IsAt(bs: Bytes, at: nat, piece: Bytes) {
    at + |piece| <= |bs| && bs[at..at + |piece|] == piece
  }

  lemma LaterIsAt(head: Bytes, tail: Bytes, at: nat, piece: Bytes)
    requires IsAt(tail, at, piece)
    ensures IsAt(head + tail, |head| + at, piece)
  {
  }

  lemma {:induction false} IntegersSize(vs: seq<int>)
    requires forall i :: 0 <= i < |vs| ==> Storable(vs[i])
    ensures |SerIntegers(vs)| == SumSizes(vs)
  {
    if vs != [] {
      IntegersSize(vs[1..]);
      CompactIntegerSizes(|Digits(Abs(vs[0]))|);
    }
  }

  /** The piece reads back as the value, whatever follows it. */
  ghost predicate ReadsBack<T>(item: Bytes -> Parsed<T>, piece: Bytes, value: T) {
    forall more :: item(piece + more) == Good(value, more)
  }

  lemma OneMoreReads<T>(item: Bytes -> Parsed<T>, piece: Bytes, pieces: Bytes, suffix: Bytes, values: seq<T>)
    requires values != [] && ReadsBack(item, piece, values[0])
    requires ParseMany(item, pieces + suffix, |values| - 1) == Good(values[1..], suffix)
    ensures ParseMany(item, piece + pieces + suffix, |values|) == Good(values, suffix)
  {
    Associate(piece, pieces, suffix);
    assert item(piece + (pieces + suffix)) == Good(values[0], pieces + suffix);
    ConsReads(item, piece + (pieces + suffix), |values|, values[0], pieces + suffix, values[1..], suffix);
    assert [values[0]] + values[1..] == values;
  }

  lemma {:induction false} IntegersRead(vs: seq<int>, suffix: Bytes)
    requires NonNegative(vs) && forall i :: 0 <= i < |vs| ==> Storable(vs[i])
    ensures ParseMany(ParseInteger, SerIntegers(vs) + suffix, |vs|) == Good(vs, suffix)
  {
    if vs == [] {
      assert SerIntegers(vs) + suffix == suffix;
    } else {
      var piece := SerInteger(vs[0]);
      forall more ensures ParseInteger(piece + more) == Good(vs[0], more) {
        IntegerReads(vs[0], more);
      }
      IntegersRead(vs[1..], suffix);
      OneMoreReads(ParseInteger, piece, SerIntegers(vs[1..]), suffix, vs);
    }
  }

  lemma ListReads(vs: seq<int>, suffix: Bytes)
    requires StorableList(vs) && NonNegative(vs)
    ensures ParseList(SerList(vs) + suffix) == Good(vs, suffix)
    ensures |SerList(vs)| == ListSize(vs)
  {
    CompactIntegerReads(|vs|, SerIntegers(vs) + suffix);
    IntegersRead(vs, suffix);
    IntegersSize(vs);
    assert SerList(vs) + suffix == SerCompactInteger(|vs|) + (SerIntegers(vs) + suffix);
  }

  lemma KeyReads(key: Bytes, isKey: KeyCheck, suffix: Bytes)
    requires |key| == 32 && isKey(key)
    ensures ParseKey(SerBytes(key) + suffix, isKey) == Good(key, suffix)
  {
    BytesReads(key, suffix);
  }

  ghost predicate Readable(h: BlockHeader, isKey: KeyCheck) {
    StorableHeader(h) && isKey(h.pubkey) && h.randomness >= 0
  }

  lemma HeaderReads(h: BlockHeader, isKey: KeyCheck, suffix: Bytes)
    requires Readable(h, isKey)
    ensures ParseHeader(SerHeader(h) + suffix, isKey) == Good(h, suffix)
  {
    var s7 := suffix;
    var s6 := SerInteger(h.randomness) + s7;
    var s5 := SerU32(h.iterations) + s6;
    var s4 := SerBytes(h.pubkey) + s5;
    var s3 := SerU32(h.bits) + s4;
    var s2 := SerU32(h.time) + s3;
    var s1 := SerHash(h.previousHeaderHash) + s2;
    assert SerHeader(h) + suffix == SerU32(h.version) + s1;
    U32Reads(h.version, s1);
    HashReads(h.previousHeaderHash, s2);
    U32Reads(h.time, s3);
    U32Reads(h.bits, s4);
    KeyReads(h.pubkey, isKey, s5);
    U32Reads(h.iterations, s6);
    IntegerReads(h.randomness, s7);
  }

  /** Every block reads back exactly, leaves whatever follows it, and has the announced size. */
  lemma BlockReads(b: Block, isKey: KeyCheck, suffix: Bytes)
    requires StorableBlock(b) && Readable(b.header, isKey) && NonNegative(b.proof)
    ensures ParseBlock(SerBlock(b) + suffix, isKey) == Good(b, suffix)
    ensures DeserializeBlock(SerBlock(b) + suffix, isKey) == if suffix == [] then Ok(b) else Err(UnreadData)
    ensures |SerBlock(b)| == BlockSize(b)
  {
    assert SerBlock(b) + suffix == SerHeader(b.header) + (SerList(b.proof) + suffix);
    HeaderReads(b.header, isKey, SerList(b.proof) + suffix);
    ListReads(b.proof, suffix);
  }

  /** Different blocks have different bytes, and no block's bytes begin another's. */
  lemma BlocksPrefixFree(b: Block, c: Block, isKey: KeyCheck, suffix: Bytes)
    requires StorableBlock(b) && Readable(b.header, isKey) && NonNegative(b.proof)
    requires StorableBlock(c) && Readable(c.header, isKey) && NonNegative(c.proof)
    requires SerBlock(b) + suffix == SerBlock(c)
    ensures b == c && suffix == []
  {
    BlockReads(b, isKey, suffix);
    BlockReads(c, isKey, []);
    assert SerBlock(c) + [] == SerBlock(c);
  }

  // ---- Reading looks no further than it has to ----

  /** What reading more bytes gives, if `p` is what it gave before: the same, unless the bytes had come to an end. */
  ghost predicate Goes<T>(p: Parsed<T>, more: Bytes, q: Parsed<T>) {
    match p
    case Good(value, rest) => q == Good(value, rest + more)
    case Bad(error) => error == UnexpectedEnd || q == Bad(error)
  }

  lemma TakeGoes(bs: Bytes, n: nat, more: Bytes)
    ensures Goes(Take(bs, n), more, Take(bs + more, n))
  {
    if n <= |bs| {
      assert (bs + more)[..n] == bs[..n] && (bs + more)[n..] == bs[n..] + more;
    }
  }

  lemma NumberGoes(bs: Bytes, n: nat, more: Bytes)
    ensures Goes(ParseNumber(bs, n), more, ParseNumber(bs + more, n))
  {
    TakeGoes(bs, n, more);
  }

  lemma CompactIntegerGoes(bs: Bytes, more: Bytes)
    ensures Goes(ParseCompactInteger(bs), more, ParseCompactInteger(bs + more))
  {
    NumberGoes(bs, 1, more);
    var first := ParseNumber(bs, 1);
    if first.Good? {
      NumberGoes(first.rest, 2, more);
      NumberGoes(first.rest, 4, more);
      NumberGoes(first.rest, 8, more);
    }
  }

  lemma BytesGoes(bs: Bytes, more: Bytes)
    ensures Goes(ParseBytes(bs), more, ParseBytes(bs + more))
  {
    CompactIntegerGoes(bs, more);
    var len := ParseCompactInteger(bs);
    if len.Good? {
      TakeGoes(len.rest, len.value, more);
    }
  }

  lemma IntegerGoes(bs: Bytes, more: Bytes)
    ensures Goes(ParseInteger(bs), more, ParseInteger(bs + more))
  {
    BytesGoes(bs, more);
  }

  lemma {:induction false} ManyGoes<T>(item: Bytes -> Parsed<T>, bs: Bytes, n: nat, more: Bytes)
    requires forall b :: Goes(item(b), more, item(b + more))
    ensures Goes(ParseMany(item, bs, n), more, ParseMany(item, bs + more, n))
    decreases n
  {
    if n > 0 {
      assert Goes(item(bs), more, item(bs + more));
      if item(bs).Good? {
        ManyGoes(item, item(bs).rest, n - 1, more);
      }
    }
  }

  lemma ListGoes(bs: Bytes, more: Bytes)
    ensures Goes(ParseList(bs), more, ParseList(bs + more))
  {
    CompactIntegerGoes(bs, more);
    var len := ParseCompactInteger(bs);
    if len.Good? {
      forall b ensures Goes(ParseInteger(b), more, ParseInteger(b + more)) {
        IntegerGoes(b, more);
      }
      ManyGoes(ParseInteger, len.rest, len.value, more);
    }
  }

  lemma KeyGoes(bs: Bytes, isKey: KeyCheck, more: Bytes)
    ensures Goes(ParseKey(bs, isKey), more, ParseKey(bs + more, isKey))
  {
    BytesGoes(bs, more);
  }

  lemma HeaderGoes(bs: Bytes, isKey: KeyCheck, more: Bytes)
    ensures Goes(ParseHeader(bs, isKey), more, ParseHeader(bs + more, isKey))
  {
    NumberGoes(bs, 4, more);
    var p1 := ParseU32(bs);
    if p1.Good? {
      NumberGoes(p1.rest, 32, more);
      var p2 := ParseHash(p1.rest);
      if p2.Good? {
        NumberGoes(p2.rest, 4, more);
        var p3 := ParseU32(p2.rest);
        if p3.Good? {
          NumberGoes(p3.rest, 4, more);
          var p4 := ParseU32(p3.rest);
          if p4.Good? {
            HeaderEndGoes(p4.rest, isKey, more);
          }
        }
      }
    }
  }

  lemma HeaderEndGoes(bs: Bytes, isKey: KeyCheck, more: Bytes)
    ensures Goes(ParseKey(bs, isKey), more, ParseKey(bs + more, isKey))
    ensures ParseKey(bs, isKey).Good? ==>
              var rest := ParseKey(bs, isKey).rest;
              && Goes(ParseU32(rest), more, ParseU32(rest + more))
              && (ParseU32(rest).Good? ==>
                    Goes(ParseInteger(ParseU32(rest).rest), more, ParseInteger(ParseU32(rest).rest + more)))
  {
    KeyGoes(bs, isKey, more);
    if ParseKey(bs, isKey).Good? {
      var rest := ParseKey(bs, isKey).rest;
      NumberGoes(rest, 4, more);
      if ParseU32(rest).Good? {
        IntegerGoes(ParseU32(rest).rest, more);
      }
    }
  }

  lemma BlockGoes(bs: Bytes, isKey: KeyCheck, more: Bytes)
    ensures Goes(ParseBlock(bs, isKey), more, ParseBlock(bs + more, isKey))
  {
    HeaderGoes(bs, isKey, more);
    var header := ParseHeader(bs, isKey);
    if header.Good? {
      ListGoes(header.rest, more);
    }
  }

  /** A block that was cut short is refused, wherever it was cut. */
  lemma CutBlockRefused(b: Block, isKey: KeyCheck, n: nat)
    requires StorableBlock(b) && Readable(b.header, isKey) && NonNegative(b.proof) && n < |SerBlock(b)|
    ensures DeserializeBlock(SerBlock(b)[..n], isKey) == Err(UnexpectedEnd)
  {
    var bytes, more := SerBlock(b)[..n], SerBlock(b)[n..];
    assert bytes + more == SerBlock(b) == SerBlock(b) + [];
    BlockReads(b, isKey, []);
    BlockGoes(bytes, isKey, more);
  }

  lemma BadSeedRefused(h: BlockHeader, isKey: KeyCheck)
    requires |h.pubkey| == 32 && !isKey(h.pubkey)
    ensures var seed := SeedBytes(h.version, h.previousHeaderHash, h.time, h.bits, h.pubkey);
            ParseHeader(seed, isKey) == Bad(MalformedData)
  {
    var s4 := SerBytes(h.pubkey);
    var s3 := SerU32(h.bits) + s4;
    var s2 := SerU32(h.time) + s3;
    var s1 := SerHash(h.previousHeaderHash) + s2;
    assert SeedBytes(h.version, h.previousHeaderHash, h.time, h.bits, h.pubkey) == SerU32(h.version) + s1;
    U32Reads(h.version, s1);
    HashReads(h.previousHeaderHash, s2);
    U32Reads(h.time, s3);
    U32Reads(h.bits, s4);
    BytesReads(h.pubkey, []);
    assert s4 + [] == s4;
  }

  /** A block whose key is not one is refused, whatever follows. */
  lemma BadKeyRefused(b: Block, isKey: KeyCheck, suffix: Bytes)
    requires StorableBlock(b) && !isKey(b.header.pubkey)
    ensures DeserializeBlock(SerBlock(b) + suffix, isKey) == Err(MalformedData)
  {
    var h, bytes := b.header, SerBlock(b) + suffix;
    SeedStartsHeader(h);
    BadSeedRefused(h, isKey);
    var seed := SeedBytes(h.version, h.previousHeaderHash, h.time, h.bits, h.pubkey);
    assert bytes == seed + bytes[77..];
    HeaderGoes(seed, isKey, bytes[77..]);
  }

  /** Whatever is read as a block has a key and no negative number. */
  lemma ReadBlocksAreSound(bs: Bytes, isKey: KeyCheck)
    requires ParseBlock(bs, isKey).Good?
    ensures var b := ParseBlock(bs, isKey).value;
            |b.header.pubkey| == 32 && isKey(b.header.pubkey) && b.header.randomness >= 0 && NonNegative(b.proof)
  {
    var header := ParseHeader(bs, isKey);
    var len := ParseCompactInteger(header.rest);
    IntegersSound(len.rest, len.value);
  }

  lemma {:induction false} IntegersSound(bs: Bytes, n: nat)
    requires ParseIntegers(bs, n).Good?
    ensures NonNegative(ParseIntegers(bs, n).value)
    decreases n
  {
    if n > 0 {
      IntegersSound(ParseInteger(bs).rest, n - 1);
    }
  }

  /** The bytes hashed by `h_g` begin with the first fields of the header in the same order. */
  function SeedBytes(version: u32, previousHeaderHash: Hash, time: u32, bits: u32, pubkey: Bytes): Bytes
    requires |pubkey| == 32
  {
    SerU32(version) + SerHash(previousHeaderHash) + SerU32(time) + SerU32(bits) + SerBytes(pubkey)
  }
}
