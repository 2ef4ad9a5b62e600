/** The stream and the reader that carry the byte format (serialization/src/stream.rs, serialization/src/reader.rs). */
module CodecStream {
  import opened Primitives
  import opened Codec
  import opened Sequences

  lemma TakeSplits(a: Bytes, b: Bytes)
    ensures Take(a + b, |a|) == Good(a, b)
  {
    assert (a + b)[..|a|] == a && (a + b)[|a|..] == b;
  }

  class Stream {
    var buffer: Bytes

    constructor ()
      ensures buffer == []
    {
      buffer := [];
    }

    method AppendSlice(bytes: Bytes)
      modifies this
      ensures buffer == old(buffer) + bytes
    {
      buffer := buffer + bytes;
    }

    method AppendCompactInteger(n: u64)
      modifies this
      ensures buffer == old(buffer) + SerCompactInteger(n)
    {
      if n <= 0xfc {
        AppendSlice([n]);
      } else if n <= 0xffff {
        AppendMarked(0xfd, SerU16(n));
      } else if n <= 0xffff_ffff {
        AppendMarked(0xfe, SerU32(n));
      } else {
        AppendMarked(0xff, SerU64(n));
      }
    }

    method AppendMarked(marker: byte, digits: Bytes)
      modifies this
      ensures buffer == old(buffer) + ([marker] + digits)
    {
      Associate(buffer, [marker], digits);
      AppendSlice([marker]);
      AppendSlice(digits);
    }

    method AppendBytes(bytes: Bytes)
      requires |bytes| < TWO_POW_64
      modifies this
      ensures buffer == old(buffer) + SerBytes(bytes)
    {
      AppendCompactInteger(|bytes|);
      AppendSlice(bytes);
    }

    method AppendInteger(v: int)
      requires Storable(v)
      modifies this
      ensures buffer == old(buffer) + SerInteger(v)
    {
      AppendBytes(Digits(Abs(v)));
    }

    method AppendList(vs: seq<int>)
      requires StorableList(vs)
      modifies this
      ensures buffer == old(buffer) + SerList(vs)
    {
      AppendCompactInteger(|vs|);
      ghost var head := buffer;
      for i := 0 to |vs|
        invariant buffer + SerIntegers(vs[i..]) == head + SerIntegers(vs)
      {
        assert vs[i..][1..] == vs[i + 1..];
        Associate(buffer, SerInteger(vs[i]), SerIntegers(vs[i + 1..]));
        AppendInteger(vs[i]);
      }
      Associate(old(buffer), SerCompactInteger(|vs|), SerIntegers(vs));
    }

    method AppendHeader(h: BlockHeader)
      requires StorableHeader(h)
      modifies this
      ensures buffer == old(buffer) + SerHeader(h)
    {
      AppendSlice(SerU32(h.version));
      AppendSlice(SerHash(h.previousHeaderHash));
      AppendSlice(SerU32(h.time));
      AppendSlice(SerU32(h.bits));
      AppendBytes(h.pubkey);
      AppendSlice(SerU32(h.iterations));
      AppendInteger(h.randomness);
    }

    method AppendBlock(b: Block)
      requires StorableBlock(b)
      modifies this
      ensures buffer == old(buffer) + SerBlock(b)
    {
      Associate(buffer, SerHeader(b.header), SerList(b.proof));
      AppendHeader(b.header);
      AppendList(b.proof);
    }
  }

  /** A read returned what the parser says and left what the parser leaves. */
  ghost predicate Follows<T(!new)>(p: Parsed<T>, r: Result<T, ReadError>, left: Bytes) {
    match p
    case Good(value, rest) => r == Ok(value) && left == rest
    case Bad(error) => r == Err(error)
  }

  class Reader {
    var buffer: Bytes
    var peeked: Option<byte>

    /** What is still to be read: a peeked byte comes before the buffer. */
    ghost function Contents(): Bytes
      reads this
    {
      match peeked
      case Some(b) => [b] + buffer
      case None => buffer
    }

    constructor (buffer: Bytes)
      ensures Contents() == buffer && peeked == None
    {
      this.buffer := buffer;
      this.peeked := None;
    }

    /** `io::Read::read`: as many bytes as are there, up to `n`. */
    method ReadSome(n: nat) returns (got: Bytes)
      modifies this
      ensures old(Contents()) == got + Contents()
      ensures |got| == if n <= |old(Contents())| then n else |old(Contents())|
      ensures n > 0 ==> peeked == None
    {
      match peeked {
        case None =>
          var k := if n <= |buffer| then n else |buffer|;
          got := buffer[..k];
          buffer := buffer[k..];
        case Some(b) =>
          if n == 0 {
            got := [];
          } else {
            peeked := None;
            var k := if n - 1 <= |buffer| then n - 1 else |buffer|;
            got := [b] + buffer[..k];
            buffer := buffer[k..];
          }
      }
    }

    /** `read_exact`: repeats short reads until the slice is full or nothing comes any more. */
    method ReadSlice(n: nat) returns (r: Result<Bytes, ReadError>)
      modifies this
      ensures Follows(Take(old(Contents()), n), r, Contents())
      ensures |Contents()| <= |old(Contents())| && (n > 0 ==> peeked == None)
    {
      var filled: Bytes := [];
      while |filled| < n
        invariant |filled| <= n && filled + Contents() == old(Contents())
        invariant filled == [] || peeked == None
        decreases n - |filled|
      {
        var got := ReadSome(n - |filled|);
        if got == [] {
          return Err(UnexpectedEnd);
        }
        Associate(filled, got, Contents());
        filled := filled + got;
      }
      TakeSplits(filled, Contents());
      r := Ok(filled);
    }

    method ReadNumber(n: nat) returns (r: Result<nat, ReadError>)
      modifies this
      ensures Follows(ParseNumber(old(Contents()), n), r, Contents())
    {
      var digits := ReadSlice(n);
      match digits {
        case Ok(bytes) => r := Ok(FromLittleEndian(bytes));
        case Err(e) => r := Err(e);
      }
    }

    method ReadU32() returns (r: Result<u32, ReadError>)
      modifies this
      ensures Follows(ParseU32(old(Contents())), r, Contents())
    {
      LimitValues();
      var v := ReadNumber(4);
      r := v;
    }

    method ReadHash() returns (r: Result<Hash, ReadError>)
      modifies this
      ensures Follows(ParseHash(old(Contents())), r, Contents())
    {
      LimitValues();
      var v := ReadNumber(32);
      r := v;
    }

    method ReadCompactInteger() returns (r: Result<u64, ReadError>)
      modifies this
      ensures Follows(ParseCompactInteger(old(Contents())), r, Contents())
    {
      LimitValues();
      var first := ReadNumber(1);
      if first.Err? {
        return Err(first.error);
      }
      if first.value <= 0xfc {
        return Ok(first.value);
      }
      var v := ReadNumber(if first.value == 0xfd then 2 else if first.value == 0xfe then 4 else 8);
      r := v;
    }

    method ReadBytes() returns (r: Result<Bytes, ReadError>)
      modifies this
      ensures Follows(ParseBytes(old(Contents())), r, Contents())
    {
      var len := ReadCompactInteger();
      if len.Err? {
        return Err(len.error);
      }
      r := ReadSlice(len.value);
    }

    method ReadInteger() returns (r: Result<int, ReadError>)
      modifies this
      ensures Follows(ParseInteger(old(Contents())), r, Contents())
    {
      var digits := ReadBytes();
      match digits {
        case Ok(bytes) => r := Ok(FromDigits(bytes));
        case Err(e) => r := Err(e);
      }
    }

    method ReadList() returns (r: Result<seq<int>, ReadError>)
      modifies this
      ensures Follows(ParseList(old(Contents())), r, Contents())
    {
      var len := ReadCompactInteger();
      if len.Err? {
        return Err(len.error);
      }
      r := ReadIntegers(len.value);
    }

    method ReadIntegers(n: nat) returns (r: Result<seq<int>, ReadError>)
      modifies this
      ensures Follows(ParseIntegers(old(Contents()), n), r, Contents())
    {
      ghost var trail := [Contents()];
      var result: seq<int> := [];
      for i := 0 to n
        invariant |result| == i && Reads(ParseInteger, trail, result)
        invariant trail[0] == old(Contents()) && trail[i] == Contents()
      {
        var item := ReadInteger();
        if item.Err? {
          TrailFails(ParseInteger, trail, result, 0, n, item.error);
          return Err(item.error);
        }
        TrailGrows(ParseInteger, trail, result, item.value, Contents());
        trail := trail + [Contents()];
        result := result + [item.value];
      }
      TrailReads(ParseInteger, trail, result, 0);
      assert result[0..] == result;
      r := Ok(result);
    }

    method ReadKey(isKey: KeyCheck) returns (r: Result<Bytes, ReadError>)
      modifies this
      ensures Follows(ParseKey(old(Contents()), isKey), r, Contents())
    {
      var key := ReadBytes();
      if key.Err? {
        return Err(key.error);
      }
      if |key.value| != 32 || !isKey(key.value) {
        return Err(MalformedData);
      }
      r := Ok(key.value);
    }

    method ReadHeader(isKey: KeyCheck) returns (r: Result<BlockHeader, ReadError>)
      modifies this
      ensures Follows(ParseHeader(old(Contents()), isKey), r, Contents())
    {
      var version := ReadU32();
      if version.Err? {
        return Err(version.error);
      }
      var previousHeaderHash := ReadHash();
      if previousHeaderHash.Err? {
        return Err(previousHeaderHash.error);
      }
      var time := ReadU32();
      if time.Err? {
        return Err(time.error);
      }
      var bits := ReadU32();
      if bits.Err? {
        return Err(bits.error);
      }
      var pubkey := ReadKey(isKey);
      if pubkey.Err? {
        return Err(pubkey.error);
      }
      var iterations := ReadU32();
      if iterations.Err? {
        return Err(iterations.error);
      }
      var randomness := ReadInteger();
      if randomness.Err? {
        return Err(randomness.error);
      }
      r := Ok(BlockHeader(version.value, previousHeaderHash.value, time.value, bits.value, pubkey.value,
                          iterations.value, randomness.value));
    }

    method ReadBlock(isKey: KeyCheck) returns (r: Result<Block, ReadError>)
      modifies this
      ensures Follows(ParseBlock(old(Contents()), isKey), r, Contents())
    {
      var header := ReadHeader(isKey);
      if header.Err? {
        return Err(header.error);
      }
      var proof := ReadList();
      if proof.Err? {
        return Err(proof.error);
      }
      r := Ok(Block(header.value, proof.value));
    }

    /** Looks one byte ahead; the byte stays to be read. */
    method IsFinished() returns (finished: bool)
      modifies this
      ensures finished <==> old(Contents()) == []
      ensures Contents() == old(Contents())
    {
      if peeked.Some? {
        return false;
      }
      var peek := ReadSlice(1);
      match peek {
        case Ok(bytes) =>
          peeked := Some(bytes[0]);
          finished := false;
        case Err(_) =>
          finished := true;
      }
    }
  }

  ghost predicate ReadsAt<T>(item: Bytes -> Parsed<T>, here: Bytes, value: T, next: Bytes) {
    item(here) == Good(value, next)
  }

  /** What was left before each value was read, and after the last. */
  ghost predicate Reads<T>(item: Bytes -> Parsed<T>, trail: seq<Bytes>, values: seq<T>) {
    && |trail| == |values| + 1
    && forall i {:trigger ReadsAt(item, trail[i], values[i], trail[i + 1])} ::
         0 <= i < |values| ==> ReadsAt(item, trail[i], values[i], trail[i + 1])
  }

  lemma TrailGrows<T>(item: Bytes -> Parsed<T>, trail: seq<Bytes>, values: seq<T>, value: T, next: Bytes)
    requires Reads(item, trail, values) && ReadsAt(item, trail[|values|], value, next)
    ensures Reads(item, trail + [next], values + [value])
  {
    var longer, more := trail + [next], values + [value];
    forall i | 0 <= i < |more| ensures ReadsAt(item, longer[i], more[i], longer[i + 1]) {
      assert i < |values| ==> ReadsAt(item, trail[i], values[i], trail[i + 1]);
    }
  }

  lemma {:induction false} TrailReads<T>(item: Bytes -> Parsed<T>, trail: seq<Bytes>, values: seq<T>, k: nat)
    requires Reads(item, trail, values) && k <= |values|
    ensures ParseMany(item, trail[k], |values| - k) == Good(values[k..], trail[|values|])
    decreases |values| - k
  {
    if k == |values| {
      assert values[k..] == [];
    } else {
      assert ReadsAt(item, trail[k], values[k], trail[k + 1]);
      TrailReads(item, trail, values, k + 1);
      ConsReads(item, trail[k], |values| - k, values[k], trail[k + 1], values[k + 1..], trail[|values|]);
      assert [values[k]] + values[k + 1..] == values[k..];
    }
  }

  lemma {:induction false} TrailFails<T>(
    item: Bytes -> Parsed<T>, trail: seq<Bytes>, values: seq<T>, k: nat, n: nat, error: ReadError)
    requires Reads(item, trail, values) && k <= |values| < n && item(trail[|values|]) == Bad(error)
    ensures ParseMany(item, trail[k], n - k) == Bad(error)
    decreases |values| - k
  {
    if k < |values| {
      assert ReadsAt(item, trail[k], values[k], trail[k + 1]);
      TrailFails(item, trail, values, k + 1, n, error);
    }
  }

  method SerializeBlock(b: Block) returns (bytes: Bytes)
    requires StorableBlock(b)
    ensures bytes == SerBlock(b)
  {
    var stream := new Stream();
    stream.AppendBlock(b);
    bytes := stream.buffer;
  }

  method Deserialize(bytes: Bytes, isKey: KeyCheck) returns (r: Result<Block, ReadError>)
    ensures r == DeserializeBlock(bytes, isKey)
  {
    var reader := new Reader(bytes);
    r := reader.ReadBlock(isKey);
    if r.Ok? {
      var finished := reader.IsFinished();
      if !finished {
        r := Err(UnreadData);
      }
    }
  }
}
