/** The delay words of the FIFO buffer. */
module Delay {
  import opened Results
  import F = Fpga

  const DELAY: F.word := 0x4000
  const LONG_DELAY: F.word := 0x5000

  function DelayWord(micros: nat): F.word {
    if micros > 0x0FFF then LONG_DELAY + (micros / 1000 + 1) % 0x1000 else DELAY + micros
  }

  function DelayOf(w: F.word): Option<nat> {
    if F.Tag(w) == 0x4 then Some(w % 0x1000)
    else if F.Tag(w) == 0x5 then Some(w % 0x1000 * 1000)
    else None
  }

  // A delay comes back exact up to 4095 us and rounded up by at most 1 ms above, exactly below
  // 4095 ms; from there on it wraps to a shorter one.
  lemma DelayBound(micros: nat)
    ensures DelayOf(DelayWord(micros)).Some?
    ensures var d := DelayOf(DelayWord(micros)).value;
            && (micros <= 0x0FFF ==> d == micros)
            && (micros > 0x0FFF ==> (micros < d <= micros + 1000 <==> micros < 4_095_000))
            && (micros >= 4_095_000 ==> d < micros)
  {
    var k := micros / 1000 + 1;
    assert micros < k * 1000 <= micros + 1000;
    if micros > 0x0FFF {
      assert DelayWord(micros) / 0x1000 == 0x5 && DelayWord(micros) % 0x1000 == k % 0x1000;
    }
  }

  class ModbusBuffer {
    var buffer: seq<F.word>
    var index: nat

    constructor ()
      ensures buffer == [] && index == 0
    {
      buffer, index := [], 0;
    }

    method WriteDelay(micros: nat)
      modifies this`buffer
      ensures buffer == old(buffer) + [DelayWord(micros)]
    {
      buffer := buffer + [if micros > 0x0FFF then LONG_DELAY + (micros / 1000 + 1) % 0x1000 else DELAY + micros];
    }

    method WriteWaitForRx(micros: nat)
      modifies this`buffer
      ensures buffer == old(buffer) + [F.WaitWord(micros)]
    {
      buffer := buffer + [F.WaitWord(micros)];
    }

    // The index moves past the word only if it is a delay.
    method ReadDelay() returns (r: Result<nat, F.word>)
      requires index < |buffer|
      modifies this`index
      ensures match DelayOf(buffer[old(index)])
              case Some(d) => r == Ok(d) && index == old(index) + 1
              case None => r == Err(buffer[old(index)]) && index == old(index)
    {
      var w: nat := buffer[index];
      if F.Tag(w) == 0x4 {
        r := Ok(w % 0x1000);
      } else if F.Tag(w) == 0x5 {
        r := Ok(w % 0x1000 * 1000);
      } else {
        return Err(buffer[index]);
      }
      index := index + 1;
    }
  }
}
