/**
  Identification of a board on the USB transport (usb_boards_scan): a small
  decision tree over the device's replies that fills in at most one board
  descriptor, the one in slot `boards[boards_count]`, and counts it.

  A modern device answers the LBP cookie and a 4-character tag: "7I64" is a
  passive I/O board, "7I43" is a motion-control board whose FPGA already
  runs HOSTMOT2 (its part number comes from the HOSTMOT2 IDROM, best
  effort). A device that does not answer the cookie gets the legacy probe:
  a clear status bit means a 7I43 whose CPLD is in control and whose FPGA
  still needs its firmware.
*/
module BoardScan {

  import opened Wrappers
  import opened Lbp

  /**
    The protocol constants of lbp.h and hostmot2.h, which are not part of this
    model: the LBP cookie and the control commands that read it and the tag,
    the HOSTMOT2 cookie register and value, the IDROM pointer register, and
    the byte offset of `fpga_size` inside the IDROM descriptor.
  */
  datatype Constants = Constants(
    lbpCookie: byte,
    cmdReadCookie: byte,
    cmdDevName0: byte,
    cmdDevName1: byte,
    cmdDevName2: byte,
    cmdDevName3: byte,
    hm2CookieReg: nat,
    hm2Cookie: word,
    hm2IdromAddr: nat,
    fpgaSizeOffset: nat)

  /** The legacy probe's status command, the character '1'. */
  const CmdStatus: byte := 0x31
  /** The legacy probe's size command, the character '0'. */
  const CmdSize: byte := 0x30

  /** "7I64" */
  const Tag7I64: seq<byte> := [0x37, 0x49, 0x36, 0x34]
  /** "7I43" */
  const Tag7I43: seq<byte> := [0x37, 0x49, 0x34, 0x33]

  const Part400: string := "3s400tq144"
  const Part200: string := "3s200tq144"

  /** `board->type`: this driver only ever writes BOARD_USB. */
  datatype BoardType = OtherBoard | UsbBoard

  /**
    `board->mode`: ModeUnknown stands for whatever value the slot held before
    the driver assigned one.
  */
  datatype Mode = ModeUnknown | Cpld | Fpga

  /**
    A board descriptor. `hasRead`, `hasWrite` and `hasProgram` say whether
    llio.read, llio.write and llio.program_fpga point at this driver's
    usb_read, usb_write and usb_program_fpga; `linked` says whether
    llio.private points back at the descriptor; `fpgaPart` None is a NULL
    part-number pointer; `connectorNames` holds the entries of the connector
    name array by index.
  */
  datatype Board = Board(
    boardType: BoardType,
    mode: Mode,
    devAddr: string,
    boardName: seq<byte>,
    numConnectors: int,
    pinsPerConnector: int,
    connectorNames: map<nat, string>,
    numLeds: int,
    fpgaPart: Option<string>,
    hasRead: bool,
    hasWrite: bool,
    hasProgram: bool,
    linked: bool,
    verbose: int)

  /** The scan request: the transport address and the verbosity flag. */
  datatype Access = Access(devAddr: string, verbose: int)

  /** The outcome of one scan: the filled-in descriptor, if any, and the bus trace. */
  datatype Identified = Identified(board: Option<Board>, trace: seq<Event>)

  /** The outcome of the HOSTMOT2 part-number probe. */
  datatype PartProbe = PartProbe(part: Option<string>, trace: seq<Event>)

  /** The board table and `boards_count`. */
  datatype Registry = Registry(boards: seq<Board>, count: nat)

  predicate CookieMatches(bus: Bus, k: Constants)
  {
    bus.ctrl(k.cmdReadCookie) == k.lbpCookie
  }

  /** The four tag bytes, read one control command each. */
  function DeviceTag(bus: Bus, k: Constants): seq<byte>
  {
    [bus.ctrl(k.cmdDevName0), bus.ctrl(k.cmdDevName1), bus.ctrl(k.cmdDevName2), bus.ctrl(k.cmdDevName3)]
  }

  /** The cookie read followed by the four tag reads. */
  function TagReads(k: Constants): seq<Event>
  {
    [ReadCtrl(k.cmdReadCookie), ReadCtrl(k.cmdDevName0), ReadCtrl(k.cmdDevName1),
     ReadCtrl(k.cmdDevName2), ReadCtrl(k.cmdDevName3)]
  }

  /** Register holding `fpga_size`: the IDROM pointer masked to 16 bits, plus the field offset. */
  function FpgaSizeAddr(bus: Bus, k: Constants): nat
  {
    Mask16(bus.reg(k.hm2IdromAddr)) + k.fpgaSizeOffset
  }

  /** Fields every recognised board gets from the scan request. */
  predicate Stamped(b: Board, access: Access)
  {
    b.boardType == UsbBoard && b.devAddr == access.devAddr && b.verbose == access.verbose && b.linked
  }

  /** The 7I43 connector geometry: two 24-pin connectors named P3 and P4. */
  predicate Has7I43Geometry(b: Board, slot: Board)
  {
    && b.boardName == Tag7I43
    && b.numConnectors == 2 && b.pinsPerConnector == 24
    && b.connectorNames == slot.connectorNames[0 := "P3"][1 := "P4"]
    && b.numLeds == 8
  }

  /**
    The HOSTMOT2 part-number probe. Only when the HOSTMOT2 cookie answers is a
    part chosen, by exact comparison of `fpga_size` with 400; otherwise no
    part is reported.
  */
  function ProbeHm2Part(bus: Bus, k: Constants): (r: PartProbe)
    ensures |r.trace| >= 1 && r.trace[0] == ReadReg(k.hm2CookieReg)
    ensures r.part.Some? <==> bus.reg(k.hm2CookieReg) == k.hm2Cookie
    ensures r.part.Some? ==> (r.part.value == Part400 <==> bus.reg(FpgaSizeAddr(bus, k)) == 400)
    ensures r.part.Some? ==> r.part.value == Part400 || r.part.value == Part200
    ensures r.part.Some? ==> r.trace == [ReadReg(k.hm2CookieReg), ReadReg(k.hm2IdromAddr), ReadReg(FpgaSizeAddr(bus, k))]
    ensures r.part.None? ==> r.trace == [ReadReg(k.hm2CookieReg)]
  {
    if bus.reg(k.hm2CookieReg) == k.hm2Cookie then
      var sizeAddr := FpgaSizeAddr(bus, k);
      var part := if bus.reg(sizeAddr) == 400 then Part400 else Part200;
      PartProbe(Some(part), [ReadReg(k.hm2CookieReg), ReadReg(k.hm2IdromAddr), ReadReg(sizeAddr)])
    else
      PartProbe(None, [ReadReg(k.hm2CookieReg)])
  }

  /** True when no raw byte traffic (the legacy probe) appears in a trace. */
  predicate NoRawTraffic(t: seq<Event>)
  {
    forall i :: 0 <= i < |t| ==> !t[i].Send? && !t[i].Recv?
  }

  /**
    usb_boards_scan on the slot `slot`: the descriptor it fills in (fields
    the code does not assign keep the slot's value), or None when nothing was
    recognised and the slot is untouched, plus the bus commands issued.
  */
  function Identify(slot: Board, access: Access, bus: Bus, k: Constants): (r: Identified)
    ensures |r.trace| >= 1 && r.trace[0] == ReadCtrl(k.cmdReadCookie)
    ensures CookieMatches(bus, k) <==> NoRawTraffic(r.trace)
    ensures r.board.Some? ==> Stamped(r.board.value, access)
    ensures r.board.Some? ==> r.board.value.boardName == Tag7I64 || r.board.value.boardName == Tag7I43
    ensures r.board.Some? ==>
      r.board.value.fpgaPart == slot.fpgaPart || r.board.value.fpgaPart == Some(Part400) || r.board.value.fpgaPart == Some(Part200)
  {
    if CookieMatches(bus, k) then
      var tag := DeviceTag(bus, k);
      if tag == Tag7I64 then
        var b := slot.(boardType := UsbBoard, devAddr := access.devAddr, boardName := tag,
                       linked := true, verbose := access.verbose);
        Identified(Some(b), TagReads(k))
      else if tag == Tag7I43 then
        var b := slot.(boardType := UsbBoard, mode := Fpga, devAddr := access.devAddr, boardName := Tag7I43,
                       numConnectors := 2, pinsPerConnector := 24,
                       connectorNames := slot.connectorNames[0 := "P3"][1 := "P4"],
                       numLeds := 8, hasRead := true, hasWrite := true,
                       linked := true, verbose := access.verbose);
        var probe := ProbeHm2Part(bus, k);
        var b' := if probe.part.Some? then b.(fpgaPart := probe.part) else b;
        Identified(Some(b'), TagReads(k) + probe.trace)
      else
        Identified(None, TagReads(k))
    else
      var legacy := [ReadCtrl(k.cmdReadCookie), Send([CmdStatus]), Recv(1)];
      assert legacy[1].Send?;
      if !Bit0(bus.reply(CmdStatus)) then
        var part := if Bit0(bus.reply(CmdSize)) then Part400 else Part200;
        var b := slot.(boardType := UsbBoard, mode := Cpld, devAddr := access.devAddr, boardName := Tag7I43,
                       numConnectors := 2, pinsPerConnector := 24,
                       connectorNames := slot.connectorNames[0 := "P3"][1 := "P4"],
                       fpgaPart := Some(part), numLeds := 8, hasProgram := true,
                       linked := true, verbose := access.verbose);
        var t := legacy + [Send([CmdSize]), Recv(1)];
        assert t[1].Send?;
        Identified(Some(b), t)
      else
        Identified(None, legacy)
  }

  /**
    A "7I64" tag: a passive USB board carrying the tag; mode, geometry,
    part number and the read, write and program_fpga capabilities keep the
    slot's values.
  */
  lemma ScanPassive7I64(slot: Board, access: Access, bus: Bus, k: Constants)
    requires CookieMatches(bus, k) && DeviceTag(bus, k) == Tag7I64
    ensures var r := Identify(slot, access, bus, k);
      && r.board.Some?
      && var b := r.board.value;
      && Stamped(b, access) && b.boardName == Tag7I64
      && b.mode == slot.mode
      && b.hasRead == slot.hasRead && b.hasWrite == slot.hasWrite && b.hasProgram == slot.hasProgram
      && b.numConnectors == slot.numConnectors && b.pinsPerConnector == slot.pinsPerConnector
      && b.connectorNames == slot.connectorNames && b.numLeds == slot.numLeds
      && b.fpgaPart == slot.fpgaPart
      && r.trace == TagReads(k)
  {
  }

  /**
    A "7I43" tag: FPGA mode, P3/P4 geometry, 8 LEDs, read/write wired,
    program_fpga left alone; the part number is set only when the HOSTMOT2
    cookie answers, and the board is counted either way.
  */
  lemma ScanHostmot7I43(slot: Board, access: Access, bus: Bus, k: Constants)
    requires CookieMatches(bus, k) && DeviceTag(bus, k) == Tag7I43
    ensures var r := Identify(slot, access, bus, k);
      && r.board.Some?
      && var b := r.board.value;
      && Stamped(b, access) && b.mode == Fpga && Has7I43Geometry(b, slot)
      && b.hasRead && b.hasWrite && b.hasProgram == slot.hasProgram
      && (bus.reg(k.hm2CookieReg) == k.hm2Cookie ==>
            b.fpgaPart == Some(if bus.reg(FpgaSizeAddr(bus, k)) == 400 then Part400 else Part200))
      && (bus.reg(k.hm2CookieReg) != k.hm2Cookie ==> b.fpgaPart == slot.fpgaPart)
      && r.trace == TagReads(k) + ProbeHm2Part(bus, k).trace
  {
  }

  /** Any other tag: nothing is recognised and the legacy probe is not tried. */
  lemma ScanUnknownTag(slot: Board, access: Access, bus: Bus, k: Constants)
    requires CookieMatches(bus, k) && DeviceTag(bus, k) != Tag7I64 && DeviceTag(bus, k) != Tag7I43
    ensures Identify(slot, access, bus, k) == Identified(None, TagReads(k))
  {
  }

  /**
    Legacy probe, status bit clear: a 7I43 in CPLD mode with program_fpga
    wired and read/write left alone; bit 0 of the size reply picks the part.
  */
  lemma ScanLegacyCpld(slot: Board, access: Access, bus: Bus, k: Constants)
    requires !CookieMatches(bus, k) && !Bit0(bus.reply(CmdStatus))
    ensures var r := Identify(slot, access, bus, k);
      && r.board.Some?
      && var b := r.board.value;
      && Stamped(b, access) && b.mode == Cpld && Has7I43Geometry(b, slot)
      && b.hasProgram && b.hasRead == slot.hasRead && b.hasWrite == slot.hasWrite
      && b.fpgaPart == Some(if Bit0(bus.reply(CmdSize)) then Part400 else Part200)
      && r.trace == [ReadCtrl(k.cmdReadCookie), Send([CmdStatus]), Recv(1), Send([CmdSize]), Recv(1)]
  {
  }

  /** Legacy probe, status bit set: nothing is recognised. */
  lemma ScanLegacyAbsent(slot: Board, access: Access, bus: Bus, k: Constants)
    requires !CookieMatches(bus, k) && Bit0(bus.reply(CmdStatus))
    ensures Identify(slot, access, bus, k) == Identified(None, [ReadCtrl(k.cmdReadCookie), Send([CmdStatus]), Recv(1)])
  {
  }

  /**
    On a slot with no capability wired and no mode assigned yet, a
    capability ends up wired exactly for the mode that needs it:
    program_fpga exactly for CPLD mode, read and write exactly for FPGA mode.
  */
  lemma FreshSlotCapabilities(slot: Board, access: Access, bus: Bus, k: Constants)
    requires !slot.hasRead && !slot.hasWrite && !slot.hasProgram && slot.mode == ModeUnknown
    ensures var r := Identify(slot, access, bus, k);
      r.board.Some? ==>
        && (r.board.value.hasProgram <==> r.board.value.mode == Cpld)
        && (r.board.value.hasRead <==> r.board.value.mode == Fpga)
        && (r.board.value.hasWrite <==> r.board.value.mode == Fpga)
  {
  }

  /** Two devices give the same answer to every command recorded in `t`. */
  predicate AgreeOn(t: seq<Event>, b1: Bus, b2: Bus)
  {
    forall i :: 0 <= i < |t| ==>
      && (t[i].ReadCtrl? ==> b1.ctrl(t[i].cmd) == b2.ctrl(t[i].cmd))
      && (t[i].ReadReg? ==> b1.reg(t[i].addr) == b2.reg(t[i].addr))
      && (t[i].Send? && |t[i].data| == 1 ==> b1.reply(t[i].data[0]) == b2.reply(t[i].data[0]))
  }

  /**
    The scan consults nothing but the replies its trace records: a device
    that answers those commands the same way is identified the same way,
    with the same trace.
  */
  lemma {:induction false} IdentifyUsesOnlyTracedReplies(slot: Board, access: Access, b1: Bus, b2: Bus, k: Constants)
    requires AgreeOn(Identify(slot, access, b1, k).trace, b1, b2)
    ensures Identify(slot, access, b1, k) == Identify(slot, access, b2, k)
  {
    var t := Identify(slot, access, b1, k).trace;
    assert t[0] == ReadCtrl(k.cmdReadCookie);
    if CookieMatches(b1, k) {
      assert t[..5] == TagReads(k);
      assert t[1].cmd == k.cmdDevName0 && t[2].cmd == k.cmdDevName1;
      assert t[3].cmd == k.cmdDevName2 && t[4].cmd == k.cmdDevName3;
      assert DeviceTag(b1, k) == DeviceTag(b2, k);
      if DeviceTag(b1, k) == Tag7I43 {
        var p1 := ProbeHm2Part(b1, k);
        assert t[5..] == p1.trace;
        assert t[5] == ReadReg(k.hm2CookieReg);
        if p1.part.Some? {
          assert t[6] == ReadReg(k.hm2IdromAddr);
          assert FpgaSizeAddr(b1, k) == FpgaSizeAddr(b2, k);
          assert t[7] == ReadReg(FpgaSizeAddr(b1, k));
        }
        assert p1 == ProbeHm2Part(b2, k);
      }
    } else {
      assert t[1] == Send([CmdStatus]);
      if !Bit0(b1.reply(CmdStatus)) {
        assert t[3] == Send([CmdSize]);
      }
    }
  }

  /**
    usb_boards_scan on the board table: only `boards[count]` may change, and
    the count grows by one exactly when a board was recognised. The table
    must have room (the code does not check MAX_BOARDS).
  */
  function ScanBoards(reg: Registry, access: Access, bus: Bus, k: Constants): (r: Registry)
    requires reg.count < |reg.boards|
    ensures |r.boards| == |reg.boards|
    ensures r.count == reg.count || r.count == reg.count + 1
    ensures forall i :: 0 <= i < |reg.boards| && i != reg.count ==> r.boards[i] == reg.boards[i]
    ensures r.count == reg.count ==> r.boards == reg.boards
    ensures r.count == reg.count + 1 ==> Stamped(r.boards[reg.count], access)
    ensures r.count == reg.count + 1 <==> Identify(reg.boards[reg.count], access, bus, k).board.Some?
    ensures r.count == reg.count + 1 ==> Some(r.boards[reg.count]) == Identify(reg.boards[reg.count], access, bus, k).board
  {
    match Identify(reg.boards[reg.count], access, bus, k).board
    case Some(b) => Registry(reg.boards[reg.count := b], reg.count + 1)
    case None => reg
  }
}
