/**
  The program-firmware capability of a CPLD-controlled board
  (usb_program_fpga): after the file and its header are checked, four
  priming '0' bytes are sent, then the rest of the file is read in chunks
  of at most 8192 bytes; every byte of a chunk is bit-reversed, the chunk is
  sent, and one 'W' progress mark is printed.

  The bit-reversal (bitfile_reverse_bits) and the header parser
  (print_bitfile_header) live in bitfile.c, which is not part of this model:
  the reversal is the parameter `rev` and the header check is a flag.
*/
module FpgaUpload {

  import opened Lbp

  /** Bytes requested by each `fread` of the upload loop. */
  const ChunkSize: nat := 8192

  /** The priming command byte, the character '0'. */
  const PrimeByte: byte := 0x30

  /**
    What the upload sees of the bitstream file: whether `stat` finds it,
    whether `fopen` opens it, whether the header parses, and the bytes that
    follow the header (what the upload loop reads).
  */
  datatype BitFile = BitFile(found: bool, opens: bool, headerOk: bool, payload: seq<byte>)

  /** An open file: its contents, the read position and the end-of-file flag. */
  datatype FileStream = FileStream(data: seq<byte>, pos: nat, eof: bool)
  {
    ghost predicate Valid()
    {
      pos <= |data|
    }
  }

  function Min(a: nat, b: nat): nat
  {
    if a <= b then a else b
  }

  /**
    Standard `fread(buf, 1, n, fp)` on a file without read errors: it returns
    the next min(n, remaining) bytes, and sets the end-of-file flag exactly
    when it could not deliver all `n`.
  */
  function Fread(s: FileStream, n: nat): (r: (seq<byte>, FileStream))
    requires s.Valid()
    ensures r.1.Valid() && r.1.data == s.data
    ensures |r.0| == Min(n, |s.data| - s.pos)
    ensures r.1.pos == s.pos + |r.0| && r.0 == s.data[s.pos..r.1.pos]
    ensures r.1.eof <==> s.eof || |r.0| < n
  {
    var got := Min(n, |s.data| - s.pos);
    (s.data[s.pos..s.pos + got], FileStream(s.data, s.pos + got, s.eof || got < n))
  }

  /** Every byte passed through `rev`, in order. */
  function Reversed(rev: byte -> byte, s: seq<byte>): seq<byte>
  {
    seq(|s|, i requires 0 <= i < |s| => rev(s[i]))
  }

  lemma ReversedAppend(rev: byte -> byte, a: seq<byte>, b: seq<byte>)
    ensures Reversed(rev, a + b) == Reversed(rev, a) + Reversed(rev, b)
  {
  }

  /** The four priming sends, each the single byte '0'. */
  function Priming(): (r: seq<Event>)
  {
    [Send([PrimeByte]), Send([PrimeByte]), Send([PrimeByte]), Send([PrimeByte])]
  }

  /**
    Reference definition of the upload loop's trace for the remaining bytes
    `rest`: a full chunk and its mark while at least ChunkSize bytes remain,
    then one final (possibly empty) chunk and its mark.
  */
  function ChunkTrace(rest: seq<byte>, rev: byte -> byte): seq<Event>
    decreases |rest|
  {
    if |rest| < ChunkSize then [Send(Reversed(rev, rest)), Progress]
    else [Send(Reversed(rev, rest[..ChunkSize])), Progress] + ChunkTrace(rest[ChunkSize..], rev)
  }

  /** The data of the sends of a trace, in order. */
  function Sends(t: seq<Event>): seq<seq<byte>>
  {
    if t == [] then [] else (if t[0].Send? then [t[0].data] else []) + Sends(t[1..])
  }

  /** All bytes sent, concatenated in order. */
  function SentBytes(t: seq<Event>): seq<byte>
  {
    if t == [] then [] else (if t[0].Send? then t[0].data else []) + SentBytes(t[1..])
  }

  /** Number of progress marks in a trace. */
  function Marks(t: seq<Event>): nat
  {
    if t == [] then 0 else (if t[0].Progress? then 1 else 0) + Marks(t[1..])
  }

  lemma {:induction false} TraceAppend(a: seq<Event>, b: seq<Event>)
    ensures Sends(a + b) == Sends(a) + Sends(b)
    ensures SentBytes(a + b) == SentBytes(a) + SentBytes(b)
    ensures Marks(a + b) == Marks(a) + Marks(b)
    decreases |a|
  {
    if a == [] {
      assert a + b == b;
    } else {
      assert (a + b)[1..] == a[1..] + b;
      TraceAppend(a[1..], b);
    }
  }

  lemma OneChunk(data: seq<byte>)
    ensures Sends([Send(data), Progress]) == [data]
    ensures SentBytes([Send(data), Progress]) == data
    ensures Marks([Send(data), Progress]) == 1
  {
    var t := [Send(data), Progress];
    assert t[1..] == [Progress];
    assert t[1..][1..] == [];
    assert Marks([Progress]) == 1 by { assert [Progress][1..] == []; }
    assert Sends(t[1..]) == [] && SentBytes(t[1..]) == [] && Marks(t[1..]) == 1;
  }

  /** What the device receives is the reversed image, every byte once, in file order. */
  lemma {:induction false} ChunkTraceContents(p: seq<byte>, rev: byte -> byte)
    ensures SentBytes(ChunkTrace(p, rev)) == Reversed(rev, p)
    decreases |p|
  {
    if |p| < ChunkSize {
      OneChunk(Reversed(rev, p));
    } else {
      var head := [Send(Reversed(rev, p[..ChunkSize])), Progress];
      TraceAppend(head, ChunkTrace(p[ChunkSize..], rev));
      OneChunk(Reversed(rev, p[..ChunkSize]));
      ChunkTraceContents(p[ChunkSize..], rev);
      ReversedAppend(rev, p[..ChunkSize], p[ChunkSize..]);
      assert p[..ChunkSize] + p[ChunkSize..] == p;
    }
  }

  /**
    The loop runs |p|/ChunkSize + 1 times: one send and one mark each, the
    two alternating, sends first.
  */
  lemma {:induction false} ChunkTraceCounts(p: seq<byte>, rev: byte -> byte)
    ensures |Sends(ChunkTrace(p, rev))| == |p| / ChunkSize + 1
    ensures Marks(ChunkTrace(p, rev)) == |p| / ChunkSize + 1
    ensures |ChunkTrace(p, rev)| == 2 * (|p| / ChunkSize + 1)
    ensures forall i :: 0 <= i < |ChunkTrace(p, rev)| ==>
      (ChunkTrace(p, rev)[i].Send? <==> i % 2 == 0) && (ChunkTrace(p, rev)[i].Progress? <==> i % 2 == 1)
    decreases |p|
  {
    if |p| < ChunkSize {
      OneChunk(Reversed(rev, p));
    } else {
      var head := [Send(Reversed(rev, p[..ChunkSize])), Progress];
      var tail := ChunkTrace(p[ChunkSize..], rev);
      TraceAppend(head, tail);
      OneChunk(Reversed(rev, p[..ChunkSize]));
      ChunkTraceCounts(p[ChunkSize..], rev);
      assert |p[ChunkSize..]| / ChunkSize + 1 == |p| / ChunkSize;
      forall i | 2 <= i < |head + tail|
        ensures (head + tail)[i] == tail[i - 2] && (i - 2) % 2 == i % 2
      {
      }
    }
  }

  /**
    Every chunk sent holds at most ChunkSize bytes; all but the last hold
    exactly ChunkSize, and the last holds the remainder, so it is empty
    exactly when the payload size is a multiple of ChunkSize.
  */
  lemma {:induction false} ChunkTraceSizes(p: seq<byte>, rev: byte -> byte)
    ensures var s := Sends(ChunkTrace(p, rev));
      && |s| > 0
      && (forall i :: 0 <= i < |s| ==> |s[i]| <= ChunkSize)
      && (forall i :: 0 <= i < |s| - 1 ==> |s[i]| == ChunkSize)
      && |s[|s| - 1]| == |p| % ChunkSize
    decreases |p|
  {
    if |p| < ChunkSize {
      OneChunk(Reversed(rev, p));
    } else {
      var head := [Send(Reversed(rev, p[..ChunkSize])), Progress];
      TraceAppend(head, ChunkTrace(p[ChunkSize..], rev));
      OneChunk(Reversed(rev, p[..ChunkSize]));
      ChunkTraceSizes(p[ChunkSize..], rev);
      assert |p[ChunkSize..]| % ChunkSize == |p| % ChunkSize;
    }
  }

  /**
    When `rev` undoes itself (as a bit reversal does), reversing what was
    sent gives back the file's payload.
  */
  lemma UploadRoundTrip(p: seq<byte>, rev: byte -> byte)
    requires forall b: byte :: rev(rev(b)) == b
    ensures Reversed(rev, SentBytes(ChunkTrace(p, rev))) == p
  {
    ChunkTraceContents(p, rev);
  }

  /** The inner loop of the upload: bit-reverse a chunk in place. */
  method ReverseChunk(chunk: seq<byte>, rev: byte -> byte) returns (out: seq<byte>)
    ensures |out| == |chunk|
    ensures forall i :: 0 <= i < |chunk| ==> out[i] == rev(chunk[i])
  {
    out := chunk;
    var i := 0;
    while i < |out|
      invariant |out| == |chunk| && 0 <= i <= |out|
      invariant forall j :: 0 <= j < i ==> out[j] == rev(chunk[j])
      invariant out[i..] == chunk[i..]
    {
      out := out[i := rev(out[i])];
      i := i + 1;
    }
  }

  /**
    One pass of the upload loop consumes exactly one step of the reference
    trace.
  */
  lemma {:induction false} LoopStep(s: FileStream, rev: byte -> byte)
    requires s.Valid() && !s.eof
    ensures var (got, s') := Fread(s, ChunkSize);
      ChunkTrace(s.data[s.pos..], rev) ==
        [Send(Reversed(rev, got)), Progress] + (if s'.eof then [] else ChunkTrace(s'.data[s'.pos..], rev))
  {
    var rest := s.data[s.pos..];
    var (got, s') := Fread(s, ChunkSize);
    if |rest| >= ChunkSize {
      assert got == rest[..ChunkSize];
      assert s'.data[s'.pos..] == rest[ChunkSize..];
    } else {
      assert got == rest;
    }
  }

  /**
    usb_program_fpga. Returns -1 with no bus traffic when the file is
    missing, cannot be opened, or has a bad header; otherwise returns 0
    after the four priming sends and the chunked, bit-reversed payload.
  */
  method ProgramFpga(f: BitFile, rev: byte -> byte) returns (ret: int, trace: seq<Event>)
    ensures ret == 0 || ret == -1
    ensures ret == -1 <==> !f.found || !f.opens || !f.headerOk
    ensures ret == -1 ==> trace == []
    ensures ret == 0 ==> trace == Priming() + ChunkTrace(f.payload, rev)
    ensures ret == 0 ==> |trace| >= 4 && forall i :: 0 <= i < 4 ==> trace[i] == Send([PrimeByte])
    ensures ret == 0 ==> SentBytes(trace[4..]) == Reversed(rev, f.payload)
    ensures ret == 0 ==> Marks(trace) == |f.payload| / ChunkSize + 1
    ensures ret == 0 ==> forall c :: c in Sends(trace[4..]) ==> |c| <= ChunkSize
  {
    if !f.found || !f.opens || !f.headerOk {
      return -1, [];
    }
    trace := Priming();
    var s := FileStream(f.payload, 0, false);
    assert s.data[s.pos..] == f.payload;
    while !s.eof
      invariant s.Valid() && s.data == f.payload
      invariant s.eof ==> trace == Priming() + ChunkTrace(f.payload, rev)
      invariant !s.eof ==> trace + ChunkTrace(s.data[s.pos..], rev) == Priming() + ChunkTrace(f.payload, rev)
      decreases |s.data| - s.pos, !s.eof
    {
      LoopStep(s, rev);
      var r := Fread(s, ChunkSize);
      var got := r.0;
      s := r.1;
      var chunk := ReverseChunk(got, rev);
      assert chunk == Reversed(rev, got);
      trace := trace + [Send(chunk), Progress];
    }
    ret := 0;
    var body := ChunkTrace(f.payload, rev);
    assert trace[4..] == body;
    TraceAppend(Priming(), body);
    assert Marks(Priming()) == 0 by {
      var t := Priming();
      assert t[1..][1..][1..][1..] == [];
    }
    ChunkTraceContents(f.payload, rev);
    ChunkTraceCounts(f.payload, rev);
    ChunkTraceSizes(f.payload, rev);
  }
}
