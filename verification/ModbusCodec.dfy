/** Modbus frames: the typed big-endian writer (Buffer) and the cursor-based reader (Parser). */
module ModbusCodec {
  import opened Results
  import opened Crc
  import CrcPolynomial

  // Signed values and floats are held as their two's complement or IEEE bit patterns.
  datatype Value =
    | U8(u8: bv8)
    | U16(u16: bv16)
    | I24(i24: bv32)
    | I32(i32: bv32)
    | U32(u32: bv32)
    | U64(u64: bv64)
    | F32(bits: bv32)

  datatype Kind = KindU8 | KindU16 | KindI24 | KindI32 | KindU32 | KindU64 | KindF32

  function KindOf(v: Value): Kind {
    match v
    case U8(_) => KindU8
    case U16(_) => KindU16
    case I24(_) => KindI24
    case I32(_) => KindI32
    case U32(_) => KindU32
    case U64(_) => KindU64
    case F32(_) => KindF32
  }

  function KindsOf(vs: seq<Value>): (ks: seq<Kind>)
    ensures |ks| == |vs|
  {
    if vs == [] then [] else [KindOf(vs[0])] + KindsOf(vs[1..])
  }

  function Size(k: Kind): nat {
    match k
    case KindU8 => 1
    case KindU16 => 2
    case KindI24 => 3
    case KindI32 => 4
    case KindU32 => 4
    case KindU64 => 8
    case KindF32 => 4
  }

  // ---- words as bytes, most significant byte first ----

  function Bytes16(x: bv16): (b: seq<byte>)
    ensures |b| == 2
  {
    [(x >> 8) as bv8, (x & 0xFF) as bv8]
  }

  function Bytes24(x: bv32): (b: seq<byte>)
    ensures |b| == 3
  {
    [((x >> 16) & 0xFF) as bv8, ((x >> 8) & 0xFF) as bv8, (x & 0xFF) as bv8]
  }

  function Bytes32(x: bv32): (b: seq<byte>)
    ensures |b| == 4
  {
    [((x >> 24) & 0xFF) as bv8, ((x >> 16) & 0xFF) as bv8, ((x >> 8) & 0xFF) as bv8, (x & 0xFF) as bv8]
  }

  function Bytes64(x: bv64): (b: seq<byte>)
    ensures |b| == 8
  {
    Bytes32(((x >> 32) & 0xFFFFFFFF) as bv32) + Bytes32((x & 0xFFFFFFFF) as bv32)
  }

  function Word16(b0: byte, b1: byte): bv16 {
    ((b0 as bv16) << 8) | (b1 as bv16)
  }

  function Join24(b0: byte, b1: byte, b2: byte): bv32 {
    ((b0 as bv32) << 16) | ((b1 as bv32) << 8) | (b2 as bv32)
  }

  // Sign extension of the lowest 24 bits.
  function Extend24(db: bv32): bv32 {
    if db & 0x800000 != 0 then db | 0xFF000000 else db
  }

  function Word24(b0: byte, b1: byte, b2: byte): bv32 {
    Extend24(Join24(b0, b1, b2))
  }

  function Word32(b0: byte, b1: byte, b2: byte, b3: byte): bv32 {
    ((b0 as bv32) << 24) | ((b1 as bv32) << 16) | ((b2 as bv32) << 8) | (b3 as bv32)
  }

  function Word64(high: bv32, low: bv32): bv64 {
    ((high as bv64) << 32) | (low as bv64)
  }

  function Encode(v: Value): (b: seq<byte>)
    ensures |b| == Size(KindOf(v))
  {
    match v
    case U8(x) => [x]
    case U16(x) => Bytes16(x)
    case I24(x) => Bytes24(x)
    case I32(x) => Bytes32(x)
    case U32(x) => Bytes32(x)
    case U64(x) => Bytes64(x)
    case F32(x) => Bytes32(x)
  }

  function Decode(k: Kind, b: seq<byte>): (v: Value)
    requires |b| == Size(k)
    ensures KindOf(v) == k
  {
    match k
    case KindU8 => U8(b[0])
    case KindU16 => U16(Word16(b[0], b[1]))
    case KindI24 => I24(Word24(b[0], b[1], b[2]))
    case KindI32 => I32(Word32(b[0], b[1], b[2], b[3]))
    case KindU32 => U32(Word32(b[0], b[1], b[2], b[3]))
    case KindU64 => U64(Word64(Word32(b[0], b[1], b[2], b[3]), Word32(b[4], b[5], b[6], b[7])))
    case KindF32 => F32(Word32(b[0], b[1], b[2], b[3]))
  }

  // Only 24 bits of an I24 are sent: the value must lie in -2^23 .. 2^23 - 1.
  predicate InRange(v: Value) {
    v.I24? ==> v.i24 & 0xFF800000 == 0 || v.i24 & 0xFF800000 == 0xFF800000
  }

  lemma Word16OfBytes(x: bv16)
    ensures Word16((x >> 8) as bv8, (x & 0xFF) as bv8) == x
  {
  }

  lemma Join24OfBytes(x: bv32)
    ensures Join24(((x >> 16) & 0xFF) as bv8, ((x >> 8) & 0xFF) as bv8, (x & 0xFF) as bv8) == x & 0xFFFFFF
  {
  }

  lemma Extend24Positive(x: bv32)
    ensures x & 0xFF800000 == 0 ==> Extend24(x & 0xFFFFFF) == x
  {
  }

  lemma Extend24Negative(x: bv32)
    ensures x & 0xFF800000 == 0xFF800000 ==> Extend24(x & 0xFFFFFF) == x
  {
  }

  lemma Extend24Only(x: bv32)
    ensures Extend24(x & 0xFFFFFF) == x ==> x & 0xFF800000 == 0 || x & 0xFF800000 == 0xFF800000
  {
  }

  lemma Word24OfBytes(x: bv32)
    ensures Word24(((x >> 16) & 0xFF) as bv8, ((x >> 8) & 0xFF) as bv8, (x & 0xFF) as bv8) == x
            <==> x & 0xFF800000 == 0 || x & 0xFF800000 == 0xFF800000
  {
    hide Join24, Extend24;
    Join24OfBytes(x);
    Extend24Positive(x);
    Extend24Negative(x);
    Extend24Only(x);
  }

  lemma Word32OfBytes(x: bv32)
    ensures Word32(((x >> 24) & 0xFF) as bv8, ((x >> 16) & 0xFF) as bv8, ((x >> 8) & 0xFF) as bv8,
                   (x & 0xFF) as bv8) == x
  {
  }

  lemma Word64OfHalves(x: bv64)
    ensures Word64(((x >> 32) & 0xFFFFFFFF) as bv32, (x & 0xFFFFFFFF) as bv32) == x
  {
  }

  lemma Decode16(x: bv16, b: seq<byte>)
    requires b == Bytes16(x)
    ensures Word16(b[0], b[1]) == x
  {
    hide Word16;
    Word16OfBytes(x);
  }

  lemma Decode24(x: bv32, b: seq<byte>)
    requires b == Bytes24(x)
    ensures Word24(b[0], b[1], b[2]) == x <==> InRange(I24(x))
  {
    hide Word24;
    Word24OfBytes(x);
  }

  lemma Decode32(x: bv32, b: seq<byte>)
    requires b == Bytes32(x)
    ensures Word32(b[0], b[1], b[2], b[3]) == x
  {
    hide Word32;
    Word32OfBytes(x);
  }

  lemma Decode64(x: bv64, b: seq<byte>)
    requires b == Bytes64(x)
    ensures Word64(Word32(b[0], b[1], b[2], b[3]), Word32(b[4], b[5], b[6], b[7])) == x
  {
    hide Word32, Word64, Bytes32;
    Decode32(((x >> 32) & 0xFFFFFFFF) as bv32, b[..4]);
    Decode32((x & 0xFFFFFFFF) as bv32, b[4..]);
    Word64OfHalves(x);
  }

  lemma EncodeByte(x: byte)
    ensures Encode(U8(x)) == [x]
  {
  }

  lemma DecodeEncode(v: Value)
    ensures Decode(KindOf(v), Encode(v)) == v <==> InRange(v)
  {
    hide Word16, Word24, Word32, Word64, Bytes16, Bytes24, Bytes32, Bytes64;
    match v
    case U8(x) =>
    case U16(x) => Decode16(x, Encode(v));
    case I24(x) => Decode24(x, Encode(v));
    case I32(x) => Decode32(x, Encode(v));
    case U32(x) => Decode32(x, Encode(v));
    case F32(x) => Decode32(x, Encode(v));
    case U64(x) => Decode64(x, Encode(v));
  }

  // ---- specification of a frame and of reading it ----

  function EncodeAll(vs: seq<Value>): seq<byte> {
    if vs == [] then [] else Encode(vs[0]) + EncodeAll(vs[1..])
  }

  function CrcBytes(data: seq<byte>): (b: seq<byte>)
    ensures |b| == 2
  {
    [(Of(data) & 0xFF) as bv8, ((Of(data) >> 8) & 0xFF) as bv8]
  }

  // A command or reply: address, function, arguments, CRC.
  function FrameOf(address: byte, func: byte, params: seq<Value>): seq<byte> {
    var head := [address, func] + EncodeAll(params);
    head + CrcBytes(head)
  }

  datatype ParserError =
    | TooSmall
    | OutOfRange
    | CRCError(calculated: bv16, received: bv16)
    | LongResponse(rest: seq<byte>)

  // What one read returns and where it leaves the cursor.
  function ReadAt(bytes: seq<byte>, cursor: nat, kind: Kind): Result<Value, ParserError> {
    if cursor + Size(kind) > |bytes| then Err(OutOfRange)
    else Ok(Decode(kind, bytes[cursor..cursor + Size(kind)]))
  }

  // A run of reads; it stops at the first one that throws.
  function ReadAll(bytes: seq<byte>, cursor: nat, kinds: seq<Kind>): Result<(seq<Value>, nat), ParserError>
    decreases kinds
  {
    if kinds == [] then Ok(([], cursor))
    else
      match ReadAt(bytes, cursor, kinds[0])
      case Err(e) => Err(e)
      case Ok(v) =>
        match ReadAll(bytes, cursor + Size(kinds[0]), kinds[1..])
        case Err(e) => Err(e)
        case Ok(rest) => Ok(([v] + rest.0, rest.1))
  }

  // The outcome of checkCRC and the cursor it leaves.
  function CheckAt(bytes: seq<byte>, cursor: nat): (Result<(), ParserError>, nat)
    requires cursor <= |bytes|
  {
    if cursor + 2 > |bytes| then (Err(OutOfRange), cursor)
    else
      var calculated := Of(bytes[..cursor]);
      var received := Received(bytes[cursor], bytes[cursor + 1]);
      if calculated != received then (Err(CRCError(calculated, received)), cursor + 2)
      else if cursor + 2 < |bytes| then (Err(LongResponse(bytes[cursor + 2..])), cursor + 2)
      else (Ok(()), cursor + 2)
  }

  // ---- round trips ----

  lemma FrameIsSealed(data: seq<byte>)
    ensures Sealed(data + CrcBytes(data)) && Of(data + CrcBytes(data)) == 0
  {
    var frame := data + CrcBytes(data);
    assert frame[..|frame| - 2] == data;
    CrcPolynomial.ResidueZeroIffSealed(frame);
  }

  lemma {:induction false} ReadAllOfEncodeAll(before: seq<byte>, vs: seq<Value>, after: seq<byte>)
    ensures (forall v :: v in vs ==> InRange(v)) <==>
            ReadAll(before + EncodeAll(vs) + after, |before|, KindsOf(vs)) ==
            Ok((vs, |before| + |EncodeAll(vs)|))
    decreases vs
  {
    hide *;
    if vs == [] {
      NothingToRead(before, after);
    } else {
      var rest := EncodeAll(vs[1..]);
      EncodeAllStep(vs);
      DecodeEncode(vs[0]);
      assert (before + Encode(vs[0])) + rest + after == before + (Encode(vs[0]) + rest) + after;
      ReadAllOfEncodeAll(before + Encode(vs[0]), vs[1..], after);
      ReadAllStep(before, vs, rest + after);
      var read := ReadAll(before + (Encode(vs[0]) + rest) + after, |before| + |Encode(vs[0])|, KindsOf(vs[1..]));
      if read.Ok? {
        ConsEquals(Decode(KindOf(vs[0]), Encode(vs[0])), read.value.0, vs);
      }
      assert before + Encode(vs[0]) + (rest + after) == before + (Encode(vs[0]) + rest) + after;
    }
  }

  lemma NothingToRead(before: seq<byte>, after: seq<byte>)
    ensures EncodeAll([]) == [] && ReadAll(before + [] + after, |before|, KindsOf([])) == Ok(([], |before|))
  {
  }

  lemma EncodeAllStep(vs: seq<Value>)
    requires vs != []
    ensures EncodeAll(vs) == Encode(vs[0]) + EncodeAll(vs[1..])
  {
  }

  // Reading the first of the values, then the rest.
  lemma ReadAllStep(before: seq<byte>, vs: seq<Value>, after: seq<byte>)
    requires vs != []
    ensures var bytes := before + Encode(vs[0]) + after;
            var n := |before| + |Encode(vs[0])|;
            var v := Decode(KindOf(vs[0]), Encode(vs[0]));
      ReadAll(bytes, |before|, KindsOf(vs))
      == match ReadAll(bytes, n, KindsOf(vs[1..]))
         case Err(e) => Err(e)
         case Ok(rest) => Ok(([v] + rest.0, rest.1))
  {
    hide Decode, Encode, KindOf, Size;
    var bytes := before + Encode(vs[0]) + after;
    assert bytes[|before|..|before| + |Encode(vs[0])|] == Encode(vs[0]);
  }

  lemma ConsEquals(v: Value, w: seq<Value>, vs: seq<Value>)
    requires vs != []
    ensures [v] + w == vs <==> v == vs[0] && w == vs[1..]
  {
    assert vs == [vs[0]] + vs[1..];
    assert ([v] + w)[0] == v && ([v] + w)[1..] == w;
  }

  // Reading back the arguments of a frame gives the same values exactly when every 24-bit
  // value is in range; the CRC check then succeeds with the cursor at the end.
  lemma RoundTrip(address: byte, func: byte, params: seq<Value>)
    ensures var frame := FrameOf(address, func, params);
            && frame[0] == address && frame[1] == func
            && ((forall v :: v in params ==> InRange(v)) <==>
                ReadAll(frame, 2, KindsOf(params)) == Ok((params, |frame| - 2)))
            && CheckAt(frame, |frame| - 2) == (Ok(()), |frame|)
  {
    hide *;
    var head := [address, func] + EncodeAll(params);
    FrameShape(address, func, params);
    FrameIsSealed(head);
    CheckSealed(head + CrcBytes(head));
    ReadAllOfEncodeAll([address, func], params, CrcBytes(head));
  }

  lemma FrameShape(address: byte, func: byte, params: seq<Value>)
    ensures var head := [address, func] + EncodeAll(params); FrameOf(address, func, params) == head + CrcBytes(head)
  {
  }

  lemma CheckSealed(frame: seq<byte>)
    requires Sealed(frame)
    ensures |frame| >= 2 && CheckAt(frame, |frame| - 2) == (Ok(()), |frame|)
  {
    hide Of;
  }

  lemma CheckSucceedsIff(bytes: seq<byte>, cursor: nat)
    requires cursor <= |bytes|
    ensures CheckAt(bytes, cursor).0.Ok? <==> |bytes| == cursor + 2 && Sealed(bytes)
  {
  }

  /** What the check throws when it does not succeed, and where it leaves the cursor: with fewer than two bytes left,
      nothing is read; a wrong CRC goes before bytes left over. */
  lemma CheckFailsIff(bytes: seq<byte>, cursor: nat)
    requires cursor <= |bytes|
    ensures var (r, after) := CheckAt(bytes, cursor); var enough := cursor + 2 <= |bytes|;
      && (r == Err(OutOfRange) <==> !enough)
      && (r.Err? && r.error.CRCError? <==> enough && !Sealed(bytes[..cursor + 2]))
      && (r.Err? && r.error.LongResponse? <==> enough && Sealed(bytes[..cursor + 2]) && |bytes| > cursor + 2)
      && (r.Err? && r.error.CRCError? ==>
            r.error.calculated == Of(bytes[..cursor]) && r.error.received == Received(bytes[cursor], bytes[cursor + 1]))
      && (r.Err? && r.error.LongResponse? ==> bytes == bytes[..cursor + 2] + r.error.rest)
      && after == if enough then cursor + 2 else cursor
  {
    hide Of, Received;
    if cursor + 2 <= |bytes| {
      assert bytes[..cursor + 2][..cursor] == bytes[..cursor];
    }
  }

  // The outcome of checkCRC at the same cursor after a transmission error.
  lemma ErrorsDetected(sent: seq<byte>, received: seq<byte>, errors: CrcPolynomial.Poly, cursor: nat)
    requires cursor <= |sent| && CheckAt(sent, cursor).0.Ok?
    requires CrcPolynomial.Flipped(sent, received, errors)
    ensures CheckAt(received, cursor).0.Ok? <==> CrcPolynomial.Divisible(errors)
    ensures !CrcPolynomial.Divisible(errors) ==>
              CheckAt(received, cursor).0.Err? && CheckAt(received, cursor).0.error.CRCError?
    ensures |errors| % 2 == 1 ==> !CrcPolynomial.Divisible(errors)
    ensures errors != {} && (exists start: nat :: CrcPolynomial.Within(errors, start, 16)) ==>
              !CrcPolynomial.Divisible(errors)
  {
    CrcPolynomial.ErrorsPassIffDivisible(sent, received, errors);
    if |errors| % 2 == 1 {
      CrcPolynomial.OddErrorsDetected(sent, received, errors);
    }
    if errors != {} && exists start: nat :: CrcPolynomial.Within(errors, start, 16) {
      var start: nat :| CrcPolynomial.Within(errors, start, 16);
      CrcPolynomial.BurstDetected(sent, received, errors, start);
    }
  }

  lemma CrcBytesAre(data: seq<byte>)
    ensures CrcBytes(data) == [(Of(data) & 0xFF) as bv8, ((Of(data) >> 8) & 0xFF) as bv8]
  {
  }

  // ---- the classes ----

  class Buffer {
    var bytes: seq<byte>

    constructor ()
      ensures bytes == []
    {
      bytes := [];
    }

    constructor Call(address: byte, func: byte, params: seq<Value>)
      ensures bytes == FrameOf(address, func, params)
    {
      bytes := [];
      new;
      CallFunction(address, func, params);
      assert [] + [address, func] == [address, func];
    }

    method Write(v: Value)
      modifies this
      ensures bytes == old(bytes) + Encode(v)
    {
      match v
      case I24(x) => WriteI24(x);
      case _ => bytes := bytes + Encode(v);
    }

    method WriteI24(data: bv32)
      modifies this
      ensures bytes == old(bytes) + Bytes24(data)
    {
      bytes := bytes + [((data >> 16) & 0xFF) as bv8];
      bytes := bytes + [((data >> 8) & 0xFF) as bv8];
      bytes := bytes + [(data & 0xFF) as bv8];
    }

    method GetCalcCrc() returns (crc: bv16)
      ensures crc == Of(bytes)
    {
      var counter := new CRC.FromBytes(bytes);
      crc := counter.Get();
    }

    // Appends the CRC of the contents; the register over the whole buffer is then 0.
    method WriteCRC()
      modifies this
      ensures bytes == old(bytes) + CrcBytes(old(bytes)) && Sealed(bytes) && Of(bytes) == 0
    {
      hide *;
      FrameIsSealed(bytes);
      ghost var data := bytes;
      CrcBytesAre(data);
      var crc := GetCalcCrc();
      bytes := bytes + [(crc & 0xFF) as bv8];
      bytes := bytes + [((crc >> 8) & 0xFF) as bv8];
      assert bytes == data + CrcBytes(data);
    }

    method CallFunction(address: byte, func: byte, params: seq<Value>)
      modifies this
      ensures var head := old(bytes) + [address, func] + EncodeAll(params);
              bytes == head + CrcBytes(head)
    {
      hide Encode;
      EncodeByte(address);
      EncodeByte(func);
      Write(U8(address));
      Write(U8(func));
      ghost var head := bytes;
      for i := 0 to |params|
        invariant bytes + EncodeAll(params[i..]) == head + EncodeAll(params)
      {
        ghost var before := bytes;
        assert params[i..][0] == params[i] && params[i..][1..] == params[i + 1..];
        Write(params[i]);
        assert before + (Encode(params[i]) + EncodeAll(params[i + 1..])) ==
               bytes + EncodeAll(params[i + 1..]);
      }
      assert params[|params|..] == [];
      assert bytes == head + EncodeAll(params);
      WriteCRC();
      assert head == old(bytes) + [address, func];
    }

    method Address() returns (r: Result<byte, ParserError>)
      ensures r == if |bytes| > 0 then Ok(bytes[0]) else Err(OutOfRange)
    {
      r := if |bytes| > 0 then Ok(bytes[0]) else Err(OutOfRange);
    }

    method Func() returns (r: Result<byte, ParserError>)
      ensures r == if |bytes| > 1 then Ok(bytes[1]) else Err(OutOfRange)
    {
      r := if |bytes| > 1 then Ok(bytes[1]) else Err(OutOfRange);
    }
  }

  class Parser {
    var bytes: seq<byte>
    var cursor: nat

    predicate Valid()
      reads this
    {
      cursor <= |bytes|
    }

    constructor ()
      ensures Valid() && bytes == [] && cursor == 0
    {
      bytes, cursor := [], 0;
    }

    // A frame holds at least address, function and CRC.
    method Parse(buffer: seq<byte>) returns (r: Result<(), ParserError>)
      requires Valid()
      modifies this
      ensures Valid()
      ensures if |buffer| < 4 then r == Err(TooSmall) && bytes == old(bytes) && cursor == old(cursor)
              else r == Ok(()) && bytes == buffer && cursor == 2
    {
      if |buffer| < 4 {
        return Err(TooSmall);
      }
      bytes := buffer;
      cursor := 2;
      return Ok(());
    }

    method ReadBuffer(len: nat) returns (r: Result<seq<byte>, ParserError>)
      requires Valid()
      modifies this`cursor
      ensures Valid()
      ensures if old(cursor) + len > |bytes| then r == Err(OutOfRange) && cursor == old(cursor)
              else cursor == old(cursor) + len && r == Ok(bytes[old(cursor)..cursor])
    {
      if cursor + len > |bytes| {
        return Err(OutOfRange);
      }
      r := Ok(bytes[cursor..cursor + len]);
      cursor := cursor + len;
    }

    method Read(kind: Kind) returns (r: Result<Value, ParserError>)
      requires Valid()
      modifies this`cursor
      ensures Valid() && r == ReadAt(bytes, old(cursor), kind)
      ensures cursor == if r.Ok? then old(cursor) + Size(kind) else old(cursor)
    {
      var raw := ReadBuffer(Size(kind));
      if raw.Err? {
        return Err(raw.error);
      }
      r := Ok(Decode(kind, raw.value));
    }

    // The two CRC bytes are swapped twice on a little-endian host: the low byte comes first.
    method CheckCRC() returns (r: Result<(), ParserError>)
      requires Valid()
      modifies this`cursor
      ensures Valid() && (r, cursor) == CheckAt(bytes, old(cursor))
    {
      hide Word16, Received, Register;
      var crc := new CRC.FromBytes(bytes[..cursor]);
      var calculated := crc.Get();
      var raw := Read(KindU16);
      if raw.Err? {
        return Err(raw.error);
      }
      var received := (raw.value.u16 >> 8) | (raw.value.u16 << 8);
      SwapBytes(bytes[cursor - 2], bytes[cursor - 1]);
      if calculated != received {
        return Err(CRCError(calculated, received));
      }
      if cursor < |bytes| {
        return Err(LongResponse(bytes[cursor..]));
      }
      r := Ok(());
    }
  }

  lemma SwapBytes(b0: byte, b1: byte)
    ensures (Word16(b0, b1) >> 8) | (Word16(b0, b1) << 8) == Received(b0, b1)
  {
  }
}
