# USB board driver of mesaflash, modelled in Dafny

This project models `usb_boards.c` of mesaflash. That file is the driver for
Mesa boards attached over the LBP USB transport. It covers three pieces:

- **Register access** (`usb_read`, `usb_write`). A transfer of `size` bytes
  becomes one 32-bit bus operation per word, at the running `u32` address
  masked to the 16-bit register window.
- **Firmware upload** (`usb_program_fpga`). The driver checks the bitstream
  file and its header, sends four priming `'0'` bytes, and then streams the
  rest of the file. It reads chunks of at most 8192 bytes, bit-reverses every
  byte, sends each chunk and prints one `W` per chunk.
- **Identification** (`usb_boards_scan`). This is a decision tree over the
  device's replies. A 7I64 is recognised by its tag. A 7I43 running HOSTMOT2
  is recognised by its tag, and its part number is read from the IDROM on a
  best-effort basis. A 7I43 whose FPGA is still unprogrammed is found by the
  legacy probe. The scan fills in at most the slot `boards[boards_count]`.

Everything is written as pure functions, or as methods with loops, over
immutable data:

- Bus replies are inputs: the `Bus` record of `lbp.dfy`.
- Bus commands and progress marks are recorded as a trace of `Event`s.
- The bitstream is given as flags for `stat`, `fopen` and the header check,
  plus the bytes that follow the header.
- `fread`/`feof` get their standard semantics: a read that delivers fewer
  bytes than requested sets end-of-file.

Files:

- `lbp.dfy`: the `Wrappers` and `Lbp` modules (bytes, words, events, bus replies).
- `register_access.dfy`: module `RegisterAccess`.
- `fpga_upload.dfy`: module `FpgaUpload`.
- `board_scan.dfy`: module `BoardScan`.

Behaviour worth knowing, as the code has it:

- Every failure of the upload returns the same `-1`. A missing file, a file
  that cannot be opened and a bad header are not told apart.
- The upload loop tests `feof` before each read. So a payload of N × 8192
  bytes is sent as N full chunks plus one empty send, and prints N + 1 marks.
- The part name that the header parser extracts is never compared with the
  board's part.
- A 7I43 found through HOSTMOT2 is counted even when the HOSTMOT2 cookie does
  not answer. In that case its part number keeps the slot's old value.

## Model

| member | source | states |
|---|---|---|
| `RegisterAccess.UsbRead` | usb_boards.c:25-33 | exactly ⌈size/4⌉ reads (none when size ≤ 0); the i-th at the 16-bit-masked address addr + 4i with u32 wrap; buffer word i is that read's reply; returns 0 |
| `RegisterAccess.UsbWrite` | usb_boards.c:35-43 | exactly ⌈size/4⌉ writes (none when size ≤ 0); the i-th writes buffer word i to the masked address addr + 4i; returns 0 |
| `RegisterAccess.WordCountIsCeiling` | usb_boards.c:26-30 | the number of loop passes is the ceiling of size/4 for a positive size and 0 otherwise |
| `RegisterAccess.WordAddressInWindow` | usb_boards.c:27-28 | every address issued is below 0x10000 and equals (addr + 4i) mod 0x10000, unaffected by the u32 wrap-around |
| `Lbp.Wrap32Add` | usb_boards.c:28 | adding to an already wrapped u32 address gives the same result as wrapping once |
| `Lbp.Mask16OfWrap32` | usb_boards.c:27-28 | masking to 16 bits ignores a 32-bit wrap-around |
| `Lbp.Bit0IsBitwiseAnd` | usb_boards.c:163 | the bit test used by the legacy probe agrees with `data & 0x01` |
| `FpgaUpload.ProgramFpga` | usb_boards.c:45-93 | returns -1 with no bus traffic exactly when stat, fopen or the header check fails; otherwise returns 0, the first four sends are single '0' bytes before any payload, the payload sends concatenate to the reversed file bytes in order, each send is at most 8192 bytes, and there are size/8192 + 1 marks |
| `FpgaUpload.ReverseChunk` | usb_boards.c:79-83 | every byte of the chunk is replaced by its reversal, in place, and the length is kept |
| `FpgaUpload.LoopStep` | usb_boards.c:77-87 | one pass of the read/reverse/send/mark loop produces exactly the next step of the reference chunk trace |
| `FpgaUpload.ChunkTraceContents` | usb_boards.c:77-84 | the bytes sent by the loop are the reversal of every payload byte, each exactly once, in file order |
| `FpgaUpload.ChunkTraceCounts` | usb_boards.c:77-87 | the loop makes size/8192 + 1 sends and prints as many marks; sends and marks alternate, each send followed by its mark |
| `FpgaUpload.ChunkTraceSizes` | usb_boards.c:77-84 | every send holds at most 8192 bytes; all but the last hold exactly 8192; the last holds size mod 8192 bytes, so it is empty exactly when the size is a multiple of 8192 |
| `FpgaUpload.UploadRoundTrip` | usb_boards.c:81-84 | when the byte transform undoes itself, undoing it on the bytes sent gives back the payload |
| `BoardScan.ProbeHm2Part` | usb_boards.c:140-153 | a part number is reported exactly when the HOSTMOT2 cookie answers; it is 3s400tq144 exactly when fpga_size is 400 and otherwise 3s200tq144; it reads fpga_size at the masked IDROM address plus the field offset |
| `BoardScan.Identify` | usb_boards.c:104-187 | the cookie is read first; the legacy probe runs exactly when the cookie does not match; a recognised board is USB-typed, carries the request's address and verbosity and links back to itself, is named 7I64 or 7I43, and has either its old part number or one of the two known ones |
| `BoardScan.ScanPassive7I64` | usb_boards.c:117-124 | a 7I64 tag gives a USB board with the tag copied, counted; mode, geometry, LEDs, part number, read, write and program_fpga keep the slot's values; only the cookie and tag are read |
| `BoardScan.ScanHostmot7I43` | usb_boards.c:125-156 | a 7I43 tag gives FPGA mode, 2 × 24 pins named P3/P4, 8 LEDs, read and write wired, program_fpga untouched; the part is set from fpga_size only when the HOSTMOT2 cookie answers, and the board is counted either way |
| `BoardScan.ScanUnknownTag` | usb_boards.c:111-158 | a matching cookie with any other tag recognises nothing and returns after the tag reads, without the legacy probe |
| `BoardScan.ScanLegacyCpld` | usb_boards.c:160-185 | a clear status bit gives CPLD mode, P3/P4 geometry, 8 LEDs and program_fpga wired, with read and write untouched; bit 0 of the second reply picks 3s400tq144 (set) or 3s200tq144 (clear) |
| `BoardScan.ScanLegacyAbsent` | usb_boards.c:160-163 | a set status bit recognises nothing after the one send and receive |
| `BoardScan.FreshSlotCapabilities` | usb_boards.c:125-185 | on a slot with no capability and no mode, program_fpga is wired exactly in CPLD mode, and read and write exactly in FPGA mode |
| `BoardScan.IdentifyUsesOnlyTracedReplies` | usb_boards.c:110-186 | the scan consults only the replies to the commands its trace records: a device answering those the same way is identified identically, with the same trace |
| `BoardScan.ScanBoards` | usb_boards.c:104-187 | only `boards[boards_count]` may change; the count grows by one exactly when the device is recognised, and that slot then holds the identified descriptor; otherwise the count and the whole table are unchanged |

## Left out

- The LBP transport primitives (`lbp_read_ctrl`, `lbp_read`, `lbp_write`, `lbp_send`, `lbp_recv`, `lbp_init`, `lbp_release`) are outside this model. Their replies are inputs (`Lbp.Bus`) and their commands are trace events.
- The protocol constants (`LBP_COOKIE`, the `LBP_CMD_READ_*` commands, `HM2_COOKIE_REG`, `HM2_COOKIE`, `HM2_IDROM_ADDR`, the offset of `fpga_size`) are defined in lbp.h and hostmot2.h, which are not part of this model. They are fields of `BoardScan.Constants`.
- `bitfile_reverse_bits` and `print_bitfile_header` are in bitfile.c, which is not part of this model. The reversal is the parameter `rev`, the header check is a flag, and the payload is the bytes that follow the header.
- File I/O (`stat`, `fopen`, `fread`, `fclose`, `errno`) is reduced to flags and a byte sequence. A read error in the middle of the stream is not modelled. In the code such an error never sets end-of-file, so the loop would keep going.
- Console output is left out: the error messages, "Programming FPGA...", the `|` and the final newline. Only the `W` marks are traced.
- `usb_print_info`, `usb_boards_init`, `usb_boards_cleanup` and `usb_boards_release` are console output or one-line wrappers over the transport.
- `MAX_BOARDS` is never checked by the code. `BoardScan.ScanBoards` therefore requires a free slot.
- `SECTOR_SIZE` is assumed to be at least 8192, as the code assumes. The static chunk buffer is modelled as the chunk itself.
- The byte layout of a register word inside the caller's buffer belongs to the transport. Buffers are modelled as sequences of words.
- The C `int size` is modelled as an unbounded integer. The loop subtracts 4 only from a positive size, so it cannot overflow.
- Device replies do not depend on history: `Lbp.Bus` answers each command or register address with a fixed value, so reading the same register twice gives the same word. Volatile registers are not modelled. No contract relies on this beyond what a single pass of each operation reads.
- The tag is modelled as the 4 bytes that `strncpy` writes. The rest of the `board_name` array is not modelled.
