// The maintenance tasks run over NFC (NFCTools.swift): dump, reset,
// prolong, unlock and activate, as sequences of the tag operations of
// module Nfc, with the FRAM patches they compute and the dump's CRC scan.

module NfcTools {
  import opened Bytes
  import opened Crc
  import opened SensorTypes
  import opened Nfc
  import opened SensorModel

  /** What the tasks read of the sensor: its type, security generation,
      whether it holds an encrypted image, its uid and patch info, and
      whether it parses with the Libre Pro layout. */
  datatype SensorFacts = SensorFacts(t: SensorType, gen: int, encrypted: bool, uid: seq<byte>, info: seq<byte>, isPro: bool)

  datatype Task = Dump | Reset | Prolong | Unlock | Activate

  /** One awaited tag operation of a task. */
  datatype Op =
    | SendOp(command: NfcCommand)
    | RawReadOp(address: int, bytes: int)
    | WriteRawOp(address: int, data: seq<byte>)
    | WriteOp(block: int, data: seq<byte>)
    | ReadOp(block: int, count: int)
    | ReadBlocksOp(block: int, count: int)

  /** Where a task stands: what `execute` ends with (normally, with an
      error, or trapped), the FRAM it last assigned to the sensor, and the
      requests sent. */
  datatype Run = Run(outcome: Outcome<()>, fram: Option<seq<byte>>, sent: seq<Request>)

  function Forget<T>(o: Outcome<T>): (r: Outcome<seq<byte>>)
    ensures r.Done? == o.Done? && (o.Thrown? ==> r == Thrown(o.error)) && (o.Trapped? ==> r.Trapped?)
  {
    match o
    case Done(_) => Done([])
    case Thrown(e) => Thrown(e)
    case Trapped => Trapped
  }

  /** One operation after the requests `sent`: its outcome and the requests
      it sends. `send` rethrows the tag's own error. */
  function RunOp(tag: Tag, history: seq<Request>, s: SensorFacts, op: Op, sent: seq<Request>)
    : (Outcome<seq<byte>>, seq<Request>)
    requires RawAnswersWords(tag)
  {
    var h := history + sent;
    match op
    case SendOp(c) =>
      var reply := tag(h + [Custom(c)]);
      (if reply.Failed? then Thrown(TagError) else Done(reply.data), [Custom(c)])
    case RawReadOp(a, n) => RawReadSpec(tag, h, s.t, a, n)
    case WriteRawOp(a, d) => var (o, r) := WriteRawSpec(tag, h, s.t, a, d); (Forget(o), r)
    case WriteOp(b, d) => var (o, r) := WriteLoop(tag, h, b, d, b, []); (Forget(o), r)
    case ReadOp(b, n) => ReadSpec(tag, h, b, n, 3, 5)
    case ReadBlocksOp(b, n) => ReadBlocksSpec(tag, h, s.t, s.gen, b, n, 3)
  }

  /** What assigning an image to the sensor's `fram` needs, by the parser
      of its layout. */
  predicate Assignable(s: SensorFacts, image: seq<byte>)
  {
    if s.isPro then ProParseSafe(image) else FramAssignable(s.t, s.uid, s.info, image)
  }

  /** The facts after the FRAM, if any, was assigned: its parse keeps an
      encrypted image only for an incomplete image whose header fails; the
      Libre Pro parse leaves the encrypted image alone. */
  function AfterFram(s: SensorFacts, fram: Option<seq<byte>>): (r: SensorFacts)
    requires fram.Some? ==> Assignable(s, fram.value)
    ensures r.t == s.t && r.gen == s.gen && r.uid == s.uid && r.info == s.info && r.isPro == s.isPro
    ensures fram.None? || s.isPro ==> r == s
    ensures fram.Some? && !s.isPro ==> (r.encrypted <==> HeaderEncrypted(s.t, fram.value) && |fram.value| < 344)
  {
    if fram.None? || s.isPro then s
    else
      s.(encrypted := EncryptedKept(s.t, s.uid, s.info, fram.value) != [])
  }

  /** Operations awaited one after the other: the first error or trap ends
      the sequence; a completed `read(fromBlock:count:)` becomes the
      sensor's FRAM, whose parse traps when the image lacks what it
      reads. */
  function RunOps(tag: Tag, history: seq<Request>, s: SensorFacts, ops: seq<Op>, sent: seq<Request>,
                  fram: Option<seq<byte>>): (r: Run)
    requires RawAnswersWords(tag)
    ensures sent <= r.sent
    ensures !r.outcome.Trapped? ==> r.fram == fram || (r.fram.Some? && Assignable(s, r.fram.value))
    ensures (forall k :: 0 <= k < |ops| ==> !ops[k].ReadOp?) ==> r.fram == fram
    decreases |ops|
  {
    if ops == [] then Run(Done(()), fram, sent)
    else
      var (o, rs) := RunOp(tag, history, s, ops[0], sent);
      match o
      case Trapped => Run(Trapped, fram, sent + rs)
      case Thrown(e) => Run(Thrown(e), fram, sent + rs)
      case Done(d) =>
        if ops[0].ReadOp? && !Assignable(s, d) then Run(Trapped, Some(d), sent + rs)
        else RunOps(tag, history, s, ops[1..], sent + rs, if ops[0].ReadOp? then Some(d) else fram)
  }

  /** `do { … } catch { }`: an error ends the block without leaving it. */
  function Caught(r: Run): (c: Run)
    ensures c.fram == r.fram && c.sent == r.sent && (c.outcome.Trapped? <==> r.outcome.Trapped?)
    ensures !c.outcome.Thrown?
  {
    if r.outcome.Thrown? then Run(Done(()), r.fram, r.sent) else r
  }

  // ---------------------------------------------------------------------
  // Gates
  // ---------------------------------------------------------------------

  /** The sensors and generations each task refuses with
      `commandNotSupported` before any request. */
  predicate Refused(task: Task, s: SensorFacts)
  {
    match task
    case Dump => false
    case Reset => s.t != Libre1 && s.t != LibreProH
    case Prolong => s.t != Libre1
    case Unlock => s.gen < 1
    case Activate => s.gen > 1
  }

  // ---------------------------------------------------------------------
  // prolong: the footer's maximum life
  // ---------------------------------------------------------------------

  /** The footer: FRAM blocks 40-42 at raw address 0xF860 + 40·8. */
  const FooterAddress := 0xF860 + 40 * 8
  const MaxLifeOffset := 6

  /** The footer with its maximum life set to FF FF and its CRC redone over
      bytes 2 ..< 24. */
  function ProlongPatch(footer: seq<byte>): (p: seq<byte>)
    requires |footer| >= 24
    ensures |p| == |footer|
  {
    var patched := footer[MaxLifeOffset := 0xFF][MaxLifeOffset + 1 := 0xFF];
    LeBytes(Crc16(patched[2 .. 3 * 8])) + patched[2..]
  }

  /** The patch writes 65535 minutes of life and a matching CRC, and
      leaves every other byte of the footer as it was. */
  lemma ProlongPatchFacts(footer: seq<byte>)
    requires |footer| >= 24
    ensures var p := ProlongPatch(footer);
      p[6] == 0xFF && p[7] == 0xFF && p[6] as int + p[7] as int * 256 == 65535 &&
      LE16(p, 0) == Crc16(p[2..24]) &&
      forall i :: 2 <= i < |footer| && i != 6 && i != 7 ==> p[i] == footer[i]
  {
    var patched := footer[MaxLifeOffset := 0xFF][MaxLifeOffset + 1 := 0xFF];
    var p := ProlongPatch(footer);
    assert p[2..24] == patched[2..24];
    LeBytesRoundTrip(Crc16(patched[2..24]));
  }

  /** `patchedFram` is built in place from a copy of the footer. */
  method PatchFooter(footer: seq<byte>) returns (patchedFram: seq<byte>)
    requires |footer| >= 24
    ensures patchedFram == ProlongPatch(footer)
  {
    patchedFram := footer;
    patchedFram := patchedFram[MaxLifeOffset := 0xFF];
    patchedFram := patchedFram[MaxLifeOffset + 1 := 0xFF];
    var patchedCrc := Crc16(patchedFram[2 .. 3 * 8]);
    var crcBytes := LeBytes(patchedCrc);
    patchedFram := patchedFram[0 := crcBytes[0]][1 := crcBytes[1]];
    assert patchedFram == crcBytes + footer[MaxLifeOffset := 0xFF][MaxLifeOffset + 1 := 0xFF][2..];
  }

  /** The writes of `prolong`: the two life bytes, then the CRC, then the
      FRAM read back. */
  function ProlongOps(footer: seq<byte>): (ops: seq<Op>)
    requires |footer| >= 24
    ensures |ops| == 3
  {
    var patched := ProlongPatch(footer);
    [WriteRawOp(FooterAddress + MaxLifeOffset, patched[MaxLifeOffset .. MaxLifeOffset + 2]),
     WriteRawOp(FooterAddress, patched[..2]),
     ReadOp(0, 43)]
  }

  // ---------------------------------------------------------------------
  // reset: the Libre 1 commands section
  // ---------------------------------------------------------------------

  /** The commands section: 195 blocks after the 43 FRAM blocks. */
  const CommandsAddress := 0xF860 + 43 * 8
  const CommandsBytes := 195 * 8
  /** The slots of the E0 and A1 command addresses in the section. */
  const E0Offset := 0xFFB6 - CommandsAddress
  const A1Offset := 0xFFC6 - CommandsAddress

  /** The section with the A1 slot pointing at the E0 command, and its CRC
      redone over bytes 2 ..< 1560. */
  function ResetPatch(commands: seq<byte>): (p: seq<byte>)
    requires |commands| >= CommandsBytes
    ensures |p| == |commands|
  {
    var e0Address := LE16(commands, E0Offset);
    var e0Bytes := LeBytes(e0Address);
    var patched := commands[A1Offset := e0Bytes[0]][A1Offset + 1 := e0Bytes[1]];
    LeBytes(Crc16(patched[2 .. CommandsBytes])) + patched[2..]
  }

  /** Both slots lie inside the checksummed bytes; the patch copies the E0
      slot into the A1 slot, makes the CRC match, and changes nothing else. */
  lemma ResetPatchFacts(commands: seq<byte>)
    requires |commands| >= CommandsBytes
    ensures 2 <= E0Offset && E0Offset + 2 <= CommandsBytes && 2 <= A1Offset && A1Offset + 2 <= CommandsBytes
    ensures var p := ResetPatch(commands);
      p[A1Offset .. A1Offset + 2] == commands[E0Offset .. E0Offset + 2] &&
      LE16(p, 0) == Crc16(p[2 .. CommandsBytes]) &&
      forall i :: 2 <= i < |commands| && i != A1Offset && i != A1Offset + 1 ==> p[i] == commands[i]
  {
    var e0Address := LE16(commands, E0Offset);
    LE16OfBytes(commands[E0Offset], commands[E0Offset + 1]);
    var e0Bytes := LeBytes(e0Address);
    var patched := commands[A1Offset := e0Bytes[0]][A1Offset + 1 := e0Bytes[1]];
    assert e0Bytes == [commands[E0Offset], commands[E0Offset + 1]];
    var p := ResetPatch(commands);
    assert p[A1Offset .. A1Offset + 2] == e0Bytes;
    assert p[2 .. CommandsBytes] == patched[2 .. CommandsBytes];
    LeBytesRoundTrip(Crc16(patched[2 .. CommandsBytes]));
  }

  /** `patchedFram` is built in place from a copy of the section. */
  method PatchCommands(commands: seq<byte>) returns (patchedFram: seq<byte>)
    requires |commands| >= CommandsBytes
    ensures patchedFram == ResetPatch(commands)
  {
    var e0Address := LE16(commands, E0Offset);
    patchedFram := commands;
    var e0Bytes := LeBytes(e0Address);
    patchedFram := patchedFram[A1Offset := e0Bytes[0]][A1Offset + 1 := e0Bytes[1]];
    ghost var withA1 := patchedFram;
    var patchedCrc := Crc16(patchedFram[2 .. CommandsBytes]);
    var crcBytes := LeBytes(patchedCrc);
    patchedFram := patchedFram[0 := crcBytes[0]][1 := crcBytes[1]];
    assert patchedFram == crcBytes + withA1[2..];
  }

  /** The command that makes the sensor run the command at the A1 slot. */
  const GetPatchInfoCommand := NfcCommand(0xA1, [])

  /** `reset` of a Libre 1: point A1 at E0 and fix the CRC, trigger A1,
      then write back the original A1 address and the CRC computed over
      the original section, and read the FRAM. */
  function ResetOps(commands: seq<byte>): (ops: seq<Op>)
    requires |commands| >= CommandsBytes
    ensures |ops| == 6
  {
    var patched := ResetPatch(commands);
    var a1Address := LE16(commands, A1Offset);
    var originalCrc := Crc16(commands[2 .. CommandsBytes]);
    [WriteRawOp(CommandsAddress + A1Offset, patched[A1Offset .. A1Offset + 2]),
     WriteRawOp(CommandsAddress, patched[..2]),
     SendOp(GetPatchInfoCommand),
     WriteRawOp(CommandsAddress + A1Offset, LeBytes(a1Address)),
     WriteRawOp(CommandsAddress, LeBytes(originalCrc)),
     ReadOp(0, 43)]
  }

  /** The reset writes the patched slot and CRC, triggers A1 after them,
      and only then writes back the original A1 address and, last, the
      CRC; when the section's stored CRC was valid that restores both
      slots exactly. */
  lemma ResetRestores(commands: seq<byte>)
    requires |commands| >= CommandsBytes
    ensures var ops := ResetOps(commands);
      var p := ResetPatch(commands);
      ops[0] == WriteRawOp(0xFFC6, p[A1Offset .. A1Offset + 2]) && ops[1] == WriteRawOp(CommandsAddress, p[..2]) &&
      ops[2] == SendOp(GetPatchInfoCommand) &&
      ops[3] == WriteRawOp(0xFFC6, commands[A1Offset .. A1Offset + 2]) &&
      ops[4].WriteRawOp? && ops[4].address == CommandsAddress &&
      (LE16(commands, 0) == Crc16(commands[2 .. CommandsBytes]) ==> ops[4].data == commands[..2])
  {
    LE16OfBytes(commands[A1Offset], commands[A1Offset + 1]);
    LE16OfBytes(commands[0], commands[1]);
  }

  /** `reset` of a Libre Pro: unlock, rewrite the header, footer, indexes
      and trend blocks 0-21 one block each, poke block 0x04DF with B1, and
      lock. */
  function ProResetOps(t: SensorType): (ops: seq<Op>)
    ensures |ops| == 27
  {
    var zeros: seq<byte> := [0, 0, 0, 0, 0, 0, 0, 0];
    var readCommand := NfcCommand(0xB0, [0xDF, 0x04]);
    [SendOp(UnlockCommand(t)),
     WriteOp(0x00, [0x6A, 0xBC, 0x00, 0x00, 0x01, 0x00, 0x00, 0x00]),
     WriteOp(0x01, zeros), WriteOp(0x02, zeros), WriteOp(0x03, zeros), WriteOp(0x04, zeros),
     WriteOp(0x05, [0x99, 0xDD, 0x10, 0x00, 0x14, 0x08, 0xC0, 0x4E]),
     WriteOp(0x06, [0x14, 0x03, 0x96, 0x80, 0x5A, 0x00, 0xED, 0xA6]),
     WriteOp(0x07, [0x12, 0x56, 0xDA, 0xA0, 0x04, 0x0C, 0xD8, 0x66]),
     WriteOp(0x08, [0x29, 0x02, 0xC8, 0x18, 0x00, 0x00, 0x00, 0x00]),
     WriteOp(0x09, [0xBD, 0xD1, 0x00, 0x00, 0x00, 0x00, 0x00, 0x00])] +
    seq(12, k requires 0 <= k < 12 => WriteOp(0x0A + k, zeros)) +
    [SendOp(readCommand),
     SendOp(NfcCommand(0xB1, [0xDF, 0x04, 0x20, 0x00, 0xDF, 0x88, 0x00, 0x00, 0x00, 0x00])),
     SendOp(readCommand),
     SendOp(LockCommand(t))]
  }

  /** The Libre Pro reset writes blocks 0 to 0x15 in order, one 8-byte
      block each, between the unlock and the lock. */
  lemma ProResetBlocks(t: SensorType)
    ensures var ops := ProResetOps(t);
      ops[0] == SendOp(UnlockCommand(t)) && ops[26] == SendOp(LockCommand(t)) &&
      forall k :: 1 <= k <= 22 ==> ops[k].WriteOp? && ops[k].block == k - 1 && |ops[k].data| == 8
  {
  }

  // ---------------------------------------------------------------------
  // activate
  // ---------------------------------------------------------------------

  /** `activate`: a Libre Pro first pokes block 0x04DF; then the sensor's
      activation command. */
  function ActivateOps(s: SensorFacts): seq<Op>
    requires s.t == Libre2 ==> |s.uid| >= 6
  {
    var readCommand := NfcCommand(0xB0, [0xDF, 0x04]);
    var writeCommand := NfcCommand(0xB1, [0xDF, 0x04, 0x20, 0x00, 0xDF, 0x88, 0x00, 0x00, 0x00, 0x00]);
    (if s.t == LibreProH
     then [SendOp(readCommand), SendOp(UnlockCommand(s.t)), SendOp(writeCommand), SendOp(LockCommand(s.t)), SendOp(readCommand)]
     else []) +
    [SendOp(ActivationCommand(s.t, s.uid))]
  }

  // ---------------------------------------------------------------------
  // dump
  // ---------------------------------------------------------------------

  /** The raw reads of the dump: config RAM, SRAM, the command patch table
      and the FRAM (with the commands section on a Libre 1). */
  function DumpRawOps(t: SensorType): seq<Op>
  {
    [RawReadOp(0x1A00, 64), RawReadOp(0x1C00, 512), RawReadOp(0xFFAC, 36),
     RawReadOp(0xF860, 43 * 8 + (if t == Libre1 then 201 * 8 else 0))]
  }

  /** The blocks the dump asks `readBlocks` for. */
  function DumpCount(s: SensorFacts): (n: int)
    ensures s.gen > 1 ==> n == 43
    ensures s.gen <= 1 ==> n == (if s.encrypted then 89 else 1252)
  {
    var count := if s.encrypted then 89 else 1252;
    if s.gen > 1 then 43 else count
  }

  /** After a FRAM read of the dump (outside the Libre Pro layout, at
      generation 1 or below), `readBlocks` is asked for 89 blocks exactly
      when the image read was an incomplete one whose header fails, and for
      1252 otherwise, even if the sensor held an encrypted image before,
      since the parse of a complete image ends with `encryptedFram` empty. */
  lemma DumpCountAfterRead(s: SensorFacts, d: seq<byte>)
    requires !s.isPro && s.gen <= 1 && Assignable(s, d)
    ensures DumpCount(AfterFram(s, Some(d))) == if HeaderEncrypted(s.t, d) && |d| < 344 then 89 else 1252
  {
  }

  // ---------------------------------------------------------------------
  // execute(_:)
  // ---------------------------------------------------------------------

  /** The `read(fromBlock: 0, count: 43)` that ends unlock and activate,
      outside their `do` blocks. */
  function ReadBack(tag: Tag, history: seq<Request>, s: SensorFacts, r: Run): Run
    requires RawAnswersWords(tag)
  {
    if r.outcome.Trapped? then r else RunOps(tag, history, s, [ReadOp(0, 43)], r.sent, r.fram)
  }

  /** `execute(_:)` for the maintenance tasks. Errors escape only where the
      Swift code has no `do` block around them: the gates, the raw reads
      of reset and prolong, and the final reads of unlock and activate. */
  function Execute(tag: Tag, history: seq<Request>, task: Task, s: SensorFacts): (r: Run)
    requires RawAnswersWords(tag)
  {
    if Refused(task, s) then Run(Thrown(CommandNotSupported), None, [])
    else match task
      case Dump => DumpRun(tag, history, s)
      case Reset => if s.t == Libre1 then ResetRun(tag, history, s) else Caught(RunOps(tag, history, s, ProResetOps(s.t), [], None))
      case Prolong => ProlongRun(tag, history, s)
      case Unlock => ReadBack(tag, history, s, Caught(RunOps(tag, history, s, [SendOp(UnlockCommand(s.t))], [], None)))
      case Activate => ActivateRun(tag, history, s)
  }

  /** Activate: the activation of a Libre 2 computes its command from the
      uid, which traps when the uid is too short. */
  function ActivateRun(tag: Tag, history: seq<Request>, s: SensorFacts): (r: Run)
    requires RawAnswersWords(tag)
  {
    if s.t == Libre2 && |s.uid| < 6 then Run(Trapped, None, [])
    else ReadBack(tag, history, s, Caught(RunOps(tag, history, s, ActivateOps(s), [], None)))
  }

  /** The dump: three `do` blocks, raw reads, the FRAM read, and the
      `readBlocks` read, whose count depends on the encrypted image the
      parse of the new FRAM leaves. */
  function DumpRun(tag: Tag, history: seq<Request>, s: SensorFacts): (r: Run)
    requires RawAnswersWords(tag)
    ensures !r.outcome.Thrown?
  {
    var r1 := Caught(RunOps(tag, history, s, DumpRawOps(s.t), [], None));
    if r1.outcome.Trapped? then r1
    else
      var r2 := Caught(RunOps(tag, history, s, [ReadOp(0, 43 + (if s.t == Libre1 then 201 else 0))], r1.sent, r1.fram));
      if r2.outcome.Trapped? then r2
      else Caught(RunOps(tag, history, s, [ReadBlocksOp(0, DumpCount(AfterFram(s, r2.fram)))], r2.sent, r2.fram))
  }

  /** The Libre 1 reset: the raw read of the commands section throws out
      of `execute`; the patch steps are caught. */
  function ResetRun(tag: Tag, history: seq<Request>, s: SensorFacts): (r: Run)
    requires RawAnswersWords(tag)
  {
    var (o, sent) := RawReadSpec(tag, history, s.t, CommandsAddress, CommandsBytes);
    if o.Trapped? then Run(Trapped, None, sent)
    else if o.Thrown? then Run(Thrown(o.error), None, sent)
    else if |o.value| < CommandsBytes then Run(Trapped, None, sent)
    else Caught(RunOps(tag, history, s, ResetOps(o.value), sent, None))
  }

  /** Prolong: the raw read of the footer throws out of `execute`; the
      writes are caught. */
  function ProlongRun(tag: Tag, history: seq<Request>, s: SensorFacts): (r: Run)
    requires RawAnswersWords(tag)
  {
    var (o, sent) := RawReadSpec(tag, history, s.t, FooterAddress, 3 * 8);
    if o.Trapped? then Run(Trapped, None, sent)
    else if o.Thrown? then Run(Thrown(o.error), None, sent)
    else if |o.value| < 3 * 8 then Run(Trapped, None, sent)
    else Caught(RunOps(tag, history, s, ProlongOps(o.value), sent, None))
  }

  /** Where a refused task throws: at once, with nothing sent. */
  predicate GateHolds(task: Task, s: SensorFacts, r: Run)
  {
    (r.outcome == Thrown(CommandNotSupported) <==> Refused(task, s)) &&
    (Refused(task, s) ==> r.sent == [] && r.fram == None)
  }

  lemma ResetGate(tag: Tag, history: seq<Request>, s: SensorFacts)
    requires RawAnswersWords(tag)
    ensures var r := Execute(tag, history, Reset, s);
      GateHolds(Reset, s, r) && (r.outcome.Thrown? && !Refused(Reset, s) ==> r.outcome.error == CustomCommandError)
  {
    if s.t == Libre1 {
      RawReadLength(tag, history, s.t, CommandsAddress, CommandsBytes);
    }
  }

  lemma ProlongGate(tag: Tag, history: seq<Request>, s: SensorFacts)
    requires RawAnswersWords(tag)
    ensures var r := Execute(tag, history, Prolong, s);
      GateHolds(Prolong, s, r) && (r.outcome.Thrown? && !Refused(Prolong, s) ==> r.outcome.error == CustomCommandError)
  {
    if s.t == Libre1 {
      RawReadLength(tag, history, s.t, FooterAddress, 3 * 8);
    }
  }

  /** The final read throws only `read`. */
  lemma ReadBackThrows(tag: Tag, history: seq<Request>, s: SensorFacts, r1: Run)
    requires RawAnswersWords(tag) && !r1.outcome.Thrown?
    ensures var r := ReadBack(tag, history, s, r1);
      r.outcome.Thrown? ==> r.outcome.error == ReadError
  {
    ReadRetries(tag, history + r1.sent, 0, 43, 3, 5);
  }

  lemma UnlockGate(tag: Tag, history: seq<Request>, s: SensorFacts)
    requires RawAnswersWords(tag)
    ensures var r := Execute(tag, history, Unlock, s);
      GateHolds(Unlock, s, r) && (r.outcome.Thrown? && !Refused(Unlock, s) ==> r.outcome.error == ReadError)
  {
    if !Refused(Unlock, s) {
      ReadBackThrows(tag, history, s, Caught(RunOps(tag, history, s, [SendOp(UnlockCommand(s.t))], [], None)));
    }
  }

  lemma ActivateGate(tag: Tag, history: seq<Request>, s: SensorFacts)
    requires RawAnswersWords(tag)
    ensures var r := Execute(tag, history, Activate, s);
      GateHolds(Activate, s, r) && (r.outcome.Thrown? && !Refused(Activate, s) ==> r.outcome.error == ReadError)
  {
    if !Refused(Activate, s) && !(s.t == Libre2 && |s.uid| < 6) {
      ReadBackThrows(tag, history, s, Caught(RunOps(tag, history, s, ActivateOps(s), [], None)));
    }
  }

  /** The gates: each task throws `commandNotSupported` exactly when its
      sensor type or generation is refused, and then before any request.
      Past the gate, reset and prolong can throw only the raw read's
      `customCommandError`, unlock and activate only the final read's
      `read` error, and the dump throws nothing. */
  lemma ExecuteGates(tag: Tag, history: seq<Request>, task: Task, s: SensorFacts)
    requires RawAnswersWords(tag)
    ensures var r := Execute(tag, history, task, s);
      GateHolds(task, s, r) &&
      (r.outcome.Thrown? && !Refused(task, s) ==>
        (task == Dump ==> false) &&
        (task == Reset || task == Prolong ==> r.outcome.error == CustomCommandError) &&
        (task == Unlock || task == Activate ==> r.outcome.error == ReadError))
  {
    match task
    case Dump =>
    case Reset => ResetGate(tag, history, s);
    case Prolong => ProlongGate(tag, history, s);
    case Unlock => UnlockGate(tag, history, s);
    case Activate => ActivateGate(tag, history, s);
  }

  // ---------------------------------------------------------------------
  // The dump's CRC scan
  // ---------------------------------------------------------------------

  /** A run of bytes whose first two hold the CRC of the rest; `end` is
      exclusive. */
  datatype Section = Section(start: int, end: int)

  /** The scan looks at the first 89·8 + 34 + 10 bytes at most. */
  function ScanBytes(data: seq<byte>): (n: int)
    ensures 0 <= n <= |data|
  {
    if 89 * 8 + 34 + 10 < |data| then 89 * 8 + 34 + 10 else |data|
  }

  /** The two bytes at `start` hold, little-endian, the CRC of the bytes
      from `start + 2` up to `end`. */
  predicate CrcHeads(data: seq<byte>, start: int, end: int)
    requires 0 <= start && start + 2 <= end <= |data|
  {
    LE16(data, start) == Crc16(data[start + 2 .. end])
  }

  /** The scan from `offset`, trying ever longer sections two bytes at a
      time; a match moves `offset` past it. */
  function ScanLoop(data: seq<byte>, bytes: int, offset: int, i: int): seq<Section>
    requires 0 <= offset && offset + 2 <= i && bytes <= |data|
    decreases bytes - i
  {
    if !(offset < bytes - 3 && i < bytes - 1) then []
    else if CrcHeads(data, offset, i + 2) then [Section(offset, i + 2)] + ScanLoop(data, bytes, i + 2, i + 4)
    else ScanLoop(data, bytes, offset, i + 2)
  }

  /** Every section found holds a matching CRC, lies within the scanned
      bytes, and starts where the previous one ended, the first one at
      `offset`. */
  lemma {:induction false} ScanSections(data: seq<byte>, bytes: int, offset: int, i: int)
    requires 0 <= offset && offset + 2 <= i && bytes <= |data|
    ensures var r := ScanLoop(data, bytes, offset, i);
      (r != [] ==> r[0].start == offset) &&
      (forall k :: 0 <= k < |r| ==>
        offset <= r[k].start && r[k].start + 4 <= r[k].end <= bytes &&
        CrcHeads(data, r[k].start, r[k].end)) &&
      forall k :: 0 <= k < |r| - 1 ==> r[k + 1].start == r[k].end
    decreases bytes - i
  {
    var r := ScanLoop(data, bytes, offset, i);
    if offset < bytes - 3 && i < bytes - 1 {
      if CrcHeads(data, offset, i + 2) {
        ScanSections(data, bytes, i + 2, i + 4);
        var rest := ScanLoop(data, bytes, i + 2, i + 4);
        assert r == [Section(offset, i + 2)] + rest;
        forall k | 1 <= k < |r|
          ensures r[k] == rest[k - 1]
        {
        }
      } else {
        ScanSections(data, bytes, offset, i + 2);
        assert r == ScanLoop(data, bytes, offset, i + 2);
      }
    } else {
      assert r == [];
    }
  }

  /** The scan loop of the dump, over the `readBlocks` output; it returns
      the sections it would log. */
  method DumpScan(data: seq<byte>) returns (sections: seq<Section>)
    ensures sections == ScanLoop(data, ScanBytes(data), 0, 2)
  {
    var bytes := if 89 * 8 + 34 + 10 < |data| then 89 * 8 + 34 + 10 else |data|;
    var offset := 0;
    var i := offset + 2;
    sections := [];
    while offset < bytes - 3 && i < bytes - 1
      invariant 0 <= offset && offset + 2 <= i && bytes == ScanBytes(data)
      invariant sections + ScanLoop(data, bytes, offset, i) == ScanLoop(data, bytes, 0, 2)
      decreases bytes - i
    {
      if LE16(data, offset) == Crc16(data[offset + 2 .. i + 2]) {
        sections := sections + [Section(offset, i + 2)];
        offset := i + 2;
        i := offset;
      }
      i := i + 2;
    }
  }

  // ---------------------------------------------------------------------
  // The steps, awaited one after the other
  // ---------------------------------------------------------------------

  /** One awaited operation, by the methods of module Nfc. */
  method RunStep(tag: Tag, history: seq<Request>, s: SensorFacts, op: Op, sent: seq<Request>)
    returns (o: Outcome<seq<byte>>, rs: seq<Request>)
    requires RawAnswersWords(tag)
    ensures (o, rs) == RunOp(tag, history, s, op, sent)
  {
    var h := history + sent;
    match op {
      case SendOp(c) =>
        var reply := tag(h + [Custom(c)]);
        o := if reply.Failed? then Thrown(TagError) else Done(reply.data);
        rs := [Custom(c)];
      case RawReadOp(a, n) =>
        o, rs := ReadRaw(tag, h, s.t, a, n);
      case WriteRawOp(a, d) =>
        var w;
        w, rs := WriteRaw(tag, h, s.t, a, d);
        o := Forget(w);
      case WriteOp(b, d) =>
        var w;
        w, rs := Write(tag, h, b, d);
        o := Forget(w);
      case ReadOp(b, n) =>
        o, rs := Read(tag, h, b, n, 3, 5);
      case ReadBlocksOp(b, n) =>
        o, rs := ReadBlocks(tag, h, s.t, s.gen, b, n, 3);
    }
  }

  /** The steps of a `do` block, or of the body of `execute`, in order. */
  method RunSteps(tag: Tag, history: seq<Request>, s: SensorFacts, ops: seq<Op>, sent0: seq<Request>,
                  fram0: Option<seq<byte>>) returns (r: Run)
    requires RawAnswersWords(tag)
    ensures r == RunOps(tag, history, s, ops, sent0, fram0)
  {
    var sent := sent0;
    var fram := fram0;
    var i := 0;
    while i < |ops|
      invariant 0 <= i <= |ops|
      invariant RunOps(tag, history, s, ops[i..], sent, fram) == RunOps(tag, history, s, ops, sent0, fram0)
    {
      assert ops[i..][0] == ops[i] && ops[i..][1..] == ops[i + 1..];
      var o, rs := RunStep(tag, history, s, ops[i], sent);
      if o.Trapped? {
        return Run(Trapped, fram, sent + rs);
      } else if o.Thrown? {
        return Run(Thrown(o.error), fram, sent + rs);
      }
      sent := sent + rs;
      if ops[i].ReadOp? {
        fram := Some(o.value);
        if !Assignable(s, o.value) {
          return Run(Trapped, fram, sent);
        }
      }
      i := i + 1;
    }
    r := Run(Done(()), fram, sent);
  }

  /** `execute(_:)`. */
  method ExecuteTask(tag: Tag, history: seq<Request>, task: Task, s: SensorFacts) returns (r: Run)
    requires RawAnswersWords(tag)
    ensures r == Execute(tag, history, task, s)
  {
    if Refused(task, s) {
      return Run(Thrown(CommandNotSupported), None, []);
    }
    match task {
      case Dump =>
        r := RunSteps(tag, history, s, DumpRawOps(s.t), [], None);
        r := Caught(r);
        if !r.outcome.Trapped? {
          r := RunSteps(tag, history, s, [ReadOp(0, 43 + (if s.t == Libre1 then 201 else 0))], r.sent, r.fram);
          r := Caught(r);
          if !r.outcome.Trapped? {
            var count := DumpCount(AfterFram(s, r.fram));
            r := RunSteps(tag, history, s, [ReadBlocksOp(0, count)], r.sent, r.fram);
            r := Caught(r);
          }
        }
      case Reset =>
        if s.t == Libre1 {
          var o, sent := ReadRaw(tag, history, s.t, CommandsAddress, CommandsBytes);
          if o.Trapped? || (o.Done? && |o.value| < CommandsBytes) {
            return Run(Trapped, None, sent);
          } else if o.Thrown? {
            return Run(Thrown(o.error), None, sent);
          }
          var commands := o.value;
          var patchedFram := PatchCommands(commands);
          var a1Address := LE16(commands, A1Offset);
          var originalCrc := Crc16(commands[2 .. CommandsBytes]);
          var steps := [WriteRawOp(CommandsAddress + A1Offset, patchedFram[A1Offset .. A1Offset + 2]),
                        WriteRawOp(CommandsAddress, patchedFram[..2]),
                        SendOp(GetPatchInfoCommand),
                        WriteRawOp(CommandsAddress + A1Offset, LeBytes(a1Address)),
                        WriteRawOp(CommandsAddress, LeBytes(originalCrc)),
                        ReadOp(0, 43)];
          assert steps == ResetOps(commands);
          r := RunSteps(tag, history, s, steps, sent, None);
        } else {
          r := RunSteps(tag, history, s, ProResetOps(s.t), [], None);
        }
        r := Caught(r);
      case Prolong =>
        var o, sent := ReadRaw(tag, history, s.t, FooterAddress, 3 * 8);
        if o.Trapped? || (o.Done? && |o.value| < 3 * 8) {
          return Run(Trapped, None, sent);
        } else if o.Thrown? {
          return Run(Thrown(o.error), None, sent);
        }
        var patchedFram := PatchFooter(o.value);
        var steps := [WriteRawOp(FooterAddress + MaxLifeOffset, patchedFram[MaxLifeOffset .. MaxLifeOffset + 2]),
                      WriteRawOp(FooterAddress, patchedFram[..2]),
                      ReadOp(0, 43)];
        r := RunSteps(tag, history, s, steps, sent, None);
        r := Caught(r);
      case Unlock =>
        r := RunSteps(tag, history, s, [SendOp(UnlockCommand(s.t))], [], None);
        r := Caught(r);
        r := RunSteps(tag, history, s, [ReadOp(0, 43)], r.sent, r.fram);
      case Activate =>
        if s.t == Libre2 && |s.uid| < 6 {
          return Run(Trapped, None, []);
        }
        r := RunSteps(tag, history, s, ActivateOps(s), [], None);
        r := Caught(r);
        if !r.outcome.Trapped? {
          r := RunSteps(tag, history, s, [ReadOp(0, 43)], r.sent, r.fram);
        }
    }
  }
}
