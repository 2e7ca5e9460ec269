/**
  Register read/write capabilities of a USB board (usb_read, usb_write):
  a transfer of `size` bytes starting at `addr` becomes one 32-bit bus
  operation per 4-byte word, each at the running address masked to the
  16-bit register window. The caller's buffer is modelled as a sequence of
  words; the byte layout inside a word belongs to the transport.
*/
module RegisterAccess {

  import opened Lbp

  /** Number of words a transfer of `size` bytes touches: the ceiling of size/4, or none. */
  function WordCount(size: int): nat
  {
    if size > 0 then (size + 3) / 4 else 0
  }

  /** Bus address of the `i`-th word of a transfer that starts at `addr`. */
  function WordAddress(addr: word, i: nat): nat
  {
    Mask16(Wrap32(addr + 4 * i))
  }

  /** WordCount really is the ceiling of size/4. */
  lemma WordCountIsCeiling(size: int)
    ensures size <= 0 ==> WordCount(size) == 0
    ensures size > 0 ==> 4 * (WordCount(size) - 1) < size <= 4 * WordCount(size)
  {
  }

  /** Every word address lies in the 16-bit window and ignores the u32 wrap. */
  lemma WordAddressInWindow(addr: word, i: nat)
    ensures WordAddress(addr, i) < 0x10000
    ensures WordAddress(addr, i) == (addr + 4 * i) % 0x10000
  {
    Mask16OfWrap32(addr + 4 * i);
  }

  /**
    usb_read: one register read per word; `buffer[i]` receives the reply of
    the `i`-th read. When `size` is not a multiple of 4 it still stores
    the ceiling of size/4 whole words, up to 3 bytes past a buffer of `size`
    bytes. Always returns 0.
  */
  method UsbRead(addr: word, size: int, bus: Bus) returns (ret: int, trace: seq<Event>, buffer: seq<word>)
    ensures ret == 0
    ensures |trace| == WordCount(size) && |buffer| == |trace|
    ensures forall i :: 0 <= i < |trace| ==> trace[i] == ReadReg(WordAddress(addr, i))
    ensures forall i :: 0 <= i < |buffer| ==> buffer[i] == bus.reg(WordAddress(addr, i))
  {
    var a := addr;
    var s := size;
    var k: nat := 0;
    trace, buffer := [], [];
    while s > 0
      invariant s == size - 4 * k
      invariant k == 0 || s > -4
      invariant a == Wrap32(addr + 4 * k)
      invariant |trace| == k && |buffer| == k
      invariant forall i :: 0 <= i < k ==> trace[i] == ReadReg(WordAddress(addr, i))
      invariant forall i :: 0 <= i < k ==> buffer[i] == bus.reg(WordAddress(addr, i))
      decreases s
    {
      trace := trace + [ReadReg(Mask16(a))];
      buffer := buffer + [bus.reg(Mask16(a))];
      Wrap32Add(addr + 4 * k, 4);
      a := Wrap32(a as int + 4);
      s := s - 4;
      k := k + 1;
    }
    ret := 0;
  }

  /**
    usb_write: one register write per word, the `i`-th carrying `buffer[i]`.
    The caller's buffer must hold every word the loop touches (when `size`
    is not a multiple of 4 that is more than `size` bytes). Always returns 0.
  */
  method UsbWrite(addr: word, size: int, buffer: seq<word>) returns (ret: int, trace: seq<Event>)
    requires |buffer| >= WordCount(size)
    ensures ret == 0
    ensures |trace| == WordCount(size)
    ensures forall i :: 0 <= i < |trace| ==> trace[i] == WriteReg(WordAddress(addr, i), buffer[i])
  {
    var a := addr;
    var s := size;
    var k: nat := 0;
    trace := [];
    while s > 0
      invariant s == size - 4 * k
      invariant k == 0 || s > -4
      invariant a == Wrap32(addr + 4 * k)
      invariant |trace| == k
      invariant forall i :: 0 <= i < k ==> trace[i] == WriteReg(WordAddress(addr, i), buffer[i])
      decreases s
    {
      trace := trace + [WriteReg(Mask16(a), buffer[k])];
      Wrap32Add(addr + 4 * k, 4);
      a := Wrap32(a as int + 4);
      s := s - 4;
      k := k + 1;
    }
    ret := 0;
  }
}
