/** Optional values: the C driver uses NULL pointers for "not set". */
module Wrappers {

  datatype Option<+T> = None | Some(value: T)
}

/**
  Vocabulary of the LBP transport as the USB board driver sees it: bytes,
  32-bit register words, the replies a device gives, and the trace of
  observable events (bus commands and progress marks) an operation produces.
  The transport primitives themselves (lbp_read_ctrl, lbp_read, lbp_write,
  lbp_send, lbp_recv) are not part of this model; their replies are inputs.
*/
module Lbp {

  /** A C `u8`. */
  type byte = x: int | 0 <= x < 0x100

  /** A C `u32`. */
  type word = x: int | 0 <= x < 0x1_0000_0000

  /** Unsigned 32-bit wrap-around, as in `addr += 4` on a `u32`. */
  function Wrap32(x: int): word
  {
    x % 0x1_0000_0000
  }

  /** `a & 0xFFFF` for a non-negative `a`: the low 16 bits. */
  function Mask16(a: int): (r: nat)
    requires a >= 0
    ensures r < 0x10000
  {
    a % 0x10000
  }

  /** `(b & 0x01) != 0`. */
  predicate Bit0(b: byte)
  {
    b % 2 == 1
  }

  /** The arithmetic bit test agrees with `b & 0x01`. */
  lemma Bit0IsBitwiseAnd(b: byte)
    ensures Bit0(b) <==> ((b as bv8) & 0x01) != 0
  {
  }

  /** Wrapping twice is wrapping once: the running `u32` address of a loop. */
  lemma Wrap32Add(x: int, d: int)
    ensures Wrap32(Wrap32(x) + d) == Wrap32(x + d)
  {
  }

  /** The low 16 bits do not see a 32-bit wrap-around. */
  lemma Mask16OfWrap32(x: int)
    requires x >= 0
    ensures Mask16(Wrap32(x)) == x % 0x10000
  {
  }

  /**
    One observable event: a command on the bus, or one progress mark ('W')
    printed by the firmware upload.
  */
  datatype Event =
    | ReadCtrl(cmd: byte)              // lbp_read_ctrl(cmd)
    | ReadReg(addr: nat)               // lbp_read(addr, buffer)
    | WriteReg(addr: nat, value: word) // lbp_write(addr, buffer)
    | Send(data: seq<byte>)            // lbp_send(data, |data|)
    | Recv(count: nat)                 // lbp_recv(buffer, count)
    | Progress                         // printf("W")

  /**
    What the attached device answers: `ctrl(c)` to the control read `c`,
    `reg(a)` to a read of register `a`, and `reply(c)` is the byte received
    after sending the one-byte command `c`.
  */
  datatype Bus = Bus(ctrl: byte -> byte, reg: nat -> word, reply: byte -> byte)
}
