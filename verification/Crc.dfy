/** The bit-serial CRC-16 of the Modbus serial line. */
module Crc {
  // The functions specify what the loops of the source compute; what the numbers mean is proved in module
  // CrcPolynomial, against polynomial division.

  type byte = bv8

  // One turn of the loop over the eight bits of a byte.
  function Shift(c: bv16): bv16 {
    if c & 0x0001 != 0 then (c >> 1) ^ 0xA001 else c >> 1
  }

  function Shifts(c: bv16, n: nat): bv16
    decreases n
  {
    if n == 0 then c else Shifts(Shift(c), n - 1)
  }

  function AddByte(c: bv16, b: byte): bv16 {
    Shifts(c ^ (b as bv16), 8)
  }

  const RESET: bv16 := 0xFFFF

  // The register after all the bytes, in order, starting from c.
  function Register(c: bv16, data: seq<byte>): bv16
    decreases data
  {
    if data == [] then c else Register(AddByte(c, data[0]), data[1..])
  }

  // The CRC of a byte string.
  function Of(data: seq<byte>): bv16 {
    Register(RESET, data)
  }

  // The CRC at the end of a frame: low byte first.
  function Received(lo: byte, hi: byte): bv16 {
    (lo as bv16) | ((hi as bv16) << 8)
  }

  // The frame ends with the CRC of everything before it.
  predicate Sealed(frame: seq<byte>) {
    |frame| >= 2 && Of(frame[..|frame| - 2]) == Received(frame[|frame| - 2], frame[|frame| - 1])
  }

  lemma {:induction false} RegisterAppend(c: bv16, a: seq<byte>, b: seq<byte>)
    ensures Register(c, a + b) == Register(Register(c, a), b)
    decreases a
  {
    if a == [] {
      assert a + b == b;
    } else {
      assert (a + b)[1..] == a[1..] + b;
      RegisterAppend(AddByte(c, a[0]), a[1..], b);
    }
  }

  class CRC {
    var crcCounter: bv16

    constructor ()
      ensures crcCounter == RESET
    {
      crcCounter := 0xFFFF;
    }

    constructor FromBytes(data: seq<byte>)
      ensures crcCounter == Of(data)
    {
      crcCounter := 0xFFFF;
      new;
      for i := 0 to |data|
        invariant Register(crcCounter, data[i..]) == Of(data)
      {
        assert data[i..][1..] == data[i + 1..];
        Add(data[i]);
      }
    }

    method Reset()
      modifies this
      ensures crcCounter == RESET
    {
      crcCounter := 0xFFFF;
    }

    method Add(data: byte)
      modifies this
      ensures crcCounter == AddByte(old(crcCounter), data)
    {
      crcCounter := crcCounter ^ (data as bv16);
      for j := 0 to 8
        invariant Shifts(crcCounter, 8 - j) == AddByte(old(crcCounter), data)
      {
        ghost var before := crcCounter;
        if crcCounter & 0x0001 != 0 {
          crcCounter := crcCounter >> 1;
          crcCounter := crcCounter ^ 0xA001;
        } else {
          crcCounter := crcCounter >> 1;
        }
        assert crcCounter == Shift(before);
      }
    }

    method Get() returns (crc: bv16)
      ensures crc == crcCounter
    {
      crc := crcCounter;
    }
  }
}
