// The ISO 15693 tag protocol: the custom commands built from a sensor's
// type and uid, and the chunking loops that read and write FRAM blocks.
// The tag is an oracle: its reply to a request may depend on every request
// sent before it, and any request may fail.
module Nfc {
  import opened Bytes
  import opened SensorTypes
  import opened Libre2

  /** A custom command: its code byte and its request parameters. */
  datatype NfcCommand = NfcCommand(code: byte, parameters: seq<byte>)

  datatype NfcError = CommandNotSupported | CustomCommandError | ReadError | ReadBlocksError | WriteError | TagError

  /** How a tag operation ends: a value, a thrown `NFCError`, or a Swift
      run-time trap (a failed integer conversion or an out-of-range slice). */
  datatype Outcome<T> = Done(value: T) | Thrown(error: NfcError) | Trapped

  // ---------------------------------------------------------------------
  // Command builders
  // ---------------------------------------------------------------------

  /** The four-byte backdoor the Libre 1 and Libre Pro firmware accept. */
  function Backdoor(t: SensorType): (r: seq<byte>)
    ensures |r| == 4
  {
    match t
    case Libre1 => [0xc2, 0xad, 0x75, 0x21]
    case LibreProH => [0xc2, 0xad, 0x00, 0x90]
    case _ => [0xde, 0xad, 0xbe, 0xef]
  }

  function LockCommand(t: SensorType): NfcCommand { NfcCommand(0xA2, Backdoor(t)) }
  function ReadRawCommand(t: SensorType): NfcCommand { NfcCommand(0xA3, Backdoor(t)) }
  function UnlockCommand(t: SensorType): NfcCommand { NfcCommand(0xA4, Backdoor(t)) }

  /** The lock, raw-read and unlock commands all carry the type's
      backdoor, and only the Libre 1 and Libre Pro backdoors start with the
      firmware's 0xC2 0xAD prefix. */
  lemma BackdoorCommands(t: SensorType)
    ensures LockCommand(t).parameters == ReadRawCommand(t).parameters == UnlockCommand(t).parameters == Backdoor(t)
    ensures LockCommand(t).code == 0xA2 && ReadRawCommand(t).code == 0xA3 && UnlockCommand(t).code == 0xA4
    ensures Backdoor(t)[0] == 0xc2 && Backdoor(t)[1] == 0xad <==> t == Libre1 || t == LibreProH
    ensures t == Libre1 ==> Backdoor(t) == [0xc2, 0xad, 0x75, 0x21]
    ensures t == LibreProH ==> Backdoor(t) == [0xc2, 0xad, 0x00, 0x90]
    ensures t != Libre1 && t != LibreProH ==> Backdoor(t) == [0xde, 0xad, 0xbe, 0xef]
  {
  }

  /** The `A1` subcommands; the names follow their descriptions. */
  datatype Subcommand =
    | UnlockSub | ActivateSub | EnableStreaming | GetSessionInfo
    | Unknown0x10 | Unknown0x1c | Unknown0x1d
    | ReadChallenge | ReadFramBlocks | ReadAttribute

  function SubRaw(c: Subcommand): byte
  {
    match c
    case UnlockSub => 0x1a
    case ActivateSub => 0x1b
    case EnableStreaming => 0x1e
    case GetSessionInfo => 0x1f
    case Unknown0x10 => 0x10
    case Unknown0x1c => 0x1c
    case Unknown0x1d => 0x1d
    case ReadChallenge => 0x20
    case ReadFramBlocks => 0x21
    case ReadAttribute => 0x22
  }

  /** The secret used when the caller passes 0. */
  function EffectiveSecret(secret: u16): (s: u16)
    ensures s != 0
    ensures secret != 0 ==> s == secret
  {
    if secret != 0 then secret else Secret
  }

  /** `nfcCommand(_:parameters:secret:)`: code 0xA1, then the subcommand
      byte and the parameters; the subcommands below 0x20 append the
      four-byte `usefulFunction` of the uid, the subcommand and the
      secret. Those read six uid bytes, which must then exist. */
  function NfcCommandFor(uid: seq<byte>, c: Subcommand, params: seq<byte>, secret: u16): (r: NfcCommand)
    requires SubRaw(c) < 0x20 ==> |uid| >= 6
    ensures r.code == 0xA1
    ensures |r.parameters| == 1 + |params| + (if SubRaw(c) < 0x20 then 4 else 0)
    ensures r.parameters[0] == SubRaw(c) && r.parameters[1..1 + |params|] == params
    ensures SubRaw(c) < 0x20 ==>
      r.parameters[1 + |params|..] == UsefulFunction(uid, SubRaw(c) as u16, EffectiveSecret(secret))
  {
    var suffix := if SubRaw(c) < 0x20 then UsefulFunction(uid, SubRaw(c) as u16, EffectiveSecret(secret)) else [];
    var p := [SubRaw(c)] + params + suffix;
    assert p[1..1 + |params|] == params;
    assert p[1 + |params|..] == suffix;
    NfcCommand(0xA1, p)
  }

  /** Passing secret 0 is the same as passing the Libre 2 default secret,
      and the subcommands from 0x20 on do not depend on the uid or the
      secret at all. */
  lemma NfcCommandSecrets(uid: seq<byte>, uid': seq<byte>, c: Subcommand, params: seq<byte>, s: u16)
    requires SubRaw(c) < 0x20 ==> |uid| >= 6 && |uid'| >= 6
    ensures NfcCommandFor(uid, c, params, 0) == NfcCommandFor(uid, c, params, Secret)
    ensures SubRaw(c) >= 0x20 ==> NfcCommandFor(uid, c, params, s) == NfcCommandFor(uid', c, params, 0)
    ensures SubRaw(c) >= 0x20 ==> NfcCommandFor(uid, c, params, s).parameters == [SubRaw(c)] + params
  {
    assert Secret != 0;
  }

  /** The Libre Pro activation suffix, the hex string
      "4A454D573136382D5430323638365F23" as bytes. */
  const ProActivationKey: seq<byte> :=
    [0x4A, 0x45, 0x4D, 0x57, 0x31, 0x36, 0x38, 0x2D, 0x54, 0x30, 0x32, 0x36, 0x38, 0x36, 0x5F, 0x23]

  /** `activationCommand`: A0 with the backdoor for the Libre 1, A0 with the
      backdoor and the activation key for the Libre Pro, the `A1 1B`
      subcommand for the Libre 2 (EU) and the empty code 0x00 otherwise. */
  function ActivationCommand(t: SensorType, uid: seq<byte>): (r: NfcCommand)
    requires t == Libre2 ==> |uid| >= 6
    ensures t == Libre1 ==> r == NfcCommand(0xA0, Backdoor(t))
    ensures t == LibreProH ==> r == NfcCommand(0xA0, Backdoor(t) + ProActivationKey) && |r.parameters| == 20
    ensures t == Libre2 ==>
      r.code == 0xA1 && |r.parameters| == 5 && r.parameters[0] == 0x1b &&
      r.parameters[1..] == UsefulFunction(uid, 0x1b, 0x1b6a)
    ensures t !in {Libre1, LibreProH, Libre2} ==> r == NfcCommand(0x00, [])
  {
    match t
    case Libre1 => NfcCommand(0xA0, Backdoor(t))
    case LibreProH => NfcCommand(0xA0, Backdoor(t) + ProActivationKey)
    case Libre2 => NfcCommandFor(uid, ActivateSub, [], 0)
    case _ => NfcCommand(0x00, [])
  }

  // ---------------------------------------------------------------------
  // The tag oracle
  // ---------------------------------------------------------------------

  /** What is sent to the tag: a standard multiple-block read or write, a
      custom command, or the A3 raw read, which keeps its address and word
      count as numbers (`RawCommand` gives the bytes it sends). */
  datatype Request =
    | ReadMultipleBlocks(first: int, count: int)
    | WriteMultipleBlocks(first: int, blocks: seq<seq<byte>>)
    | Custom(command: NfcCommand)
    | RawRead(t: SensorType, address: int, words: int)

  /** A failed request, or its answer; the blocks of a multiple-block read
      are answered concatenated, as `read` appends them. */
  datatype Reply = Failed | Answer(data: seq<byte>)

  /** The tag's reply to the last request of a history. */
  type Tag = seq<Request> -> Reply

  /** The replies to the requests `sent` after `history`, in order. */
  function Replies(tag: Tag, history: seq<Request>, sent: seq<Request>): (rs: seq<Reply>)
    ensures |rs| == |sent|
  {
    if sent == [] then [] else Replies(tag, history, sent[..|sent| - 1]) + [tag(history + sent)]
  }

  lemma RepliesSnoc(tag: Tag, history: seq<Request>, sent: seq<Request>, req: Request)
    ensures Replies(tag, history, sent + [req]) == Replies(tag, history, sent) + [tag(history + sent + [req])]
  {
    assert (sent + [req])[..|sent|] == sent;
    assert history + (sent + [req]) == history + sent + [req];
  }

  /** The reply to the j-th request sent. */
  function ReplyTo(tag: Tag, history: seq<Request>, sent: seq<Request>, j: int): Reply
    requires 0 <= j < |sent|
  {
    tag(history + sent[..j + 1])
  }

  /** The number of failed replies. */
  function Failures(rs: seq<Reply>): (n: nat)
    ensures n <= |rs|
  {
    if rs == [] then 0 else Failures(rs[..|rs| - 1]) + (if rs[|rs| - 1].Failed? then 1 else 0)
  }

  lemma FailuresSnoc(rs: seq<Reply>, r: Reply)
    ensures Failures(rs + [r]) == Failures(rs) + (if r.Failed? then 1 else 0)
  {
    assert (rs + [r])[..|rs|] == rs;
  }

  /** A tag that answers every multiple-block read of n blocks with 8n
      bytes, when it answers. */
  ghost predicate EightByteBlocks(tag: Tag)
  {
    forall h: seq<Request>, first: int, n: int ::
      tag(h + [ReadMultipleBlocks(first, n)]).Answer? ==> |tag(h + [ReadMultipleBlocks(first, n)]).data| == 8 * n
  }

  // ---------------------------------------------------------------------
  // read(fromBlock:count:requesting:retries:)
  // ---------------------------------------------------------------------

  /** The next request size after a success leaves `left` blocks:
      `requested` shrinks to a smaller non-zero `left`. */
  function Shrink(left: int, requested: int): (n: int)
    ensures left > 0 && requested >= 1 ==> 1 <= n <= requested
    ensures left >= requested ==> n == requested
  {
    if left != 0 && left < requested then left else requested
  }

  /** The loop of `read` from a given state: each request starts right
      after the blocks already buffered; a success lowers `remaining` by
      `requested` and shrinks `requested` to a smaller non-zero
      `remaining`; a failure counts against the retries, and the counter is
      never reset. A range ending before it starts traps. */
  function ReadLoop(tag: Tag, history: seq<Request>, start: int, retries: int,
                    buffer: seq<byte>, remaining: int, requested: int, retry: int, sent: seq<Request>)
    : (r: (Outcome<seq<byte>>, seq<Request>))
    decreases if remaining > 0 then remaining else 0, retries - retry
  {
    if remaining <= 0 || retry > retries then (Done(buffer), sent)
    else if requested < 1 then (Trapped, sent)
    else
      var req := ReadMultipleBlocks(start + |buffer| / 8, requested);
      match tag(history + sent + [req])
      case Answer(d) =>
        var left := remaining - requested;
        ReadLoop(tag, history, start, retries, buffer + d, left,
                 Shrink(left, requested), retry, sent + [req])
      case Failed =>
        if retry + 1 <= retries then ReadLoop(tag, history, start, retries, buffer, remaining, requested, retry + 1, sent + [req])
        else (Thrown(ReadError), sent + [req])
  }

  /** `read`: the outcome and the requests sent. */
  function ReadSpec(tag: Tag, history: seq<Request>, start: int, blocks: int, requesting: int, retries: int)
    : (Outcome<seq<byte>>, seq<Request>)
  {
    ReadLoop(tag, history, start, retries, [], blocks, requesting, 0, [])
  }

  /** `read(fromBlock:count:requesting:retries:)`; Swift also returns
      `start` with the buffer. */
  method Read(tag: Tag, history: seq<Request>, start: int, blocks: int, requesting: int, retries: int)
    returns (result: Outcome<seq<byte>>, sent: seq<Request>)
    ensures (result, sent) == ReadSpec(tag, history, start, blocks, requesting, retries)
  {
    var buffer: seq<byte> := [];
    var remaining := blocks;
    var requested := requesting;
    var retry := 0;
    sent := [];
    while remaining > 0 && retry <= retries
      invariant ReadLoop(tag, history, start, retries, buffer, remaining, requested, retry, sent)
        == ReadSpec(tag, history, start, blocks, requesting, retries)
      decreases if remaining > 0 then remaining else 0, retries - retry
    {
      if requested < 1 {
        return Trapped, sent;
      }
      var req := ReadMultipleBlocks(start + |buffer| / 8, requested);
      var reply := tag(history + sent + [req]);
      sent := sent + [req];
      if reply.Answer? {
        buffer := buffer + reply.data;
        remaining := remaining - requested;
        if remaining != 0 && remaining < requested {
          requested := remaining;
        }
      } else {
        retry := retry + 1;
        if retry > retries {
          return Thrown(ReadError), sent;
        }
      }
    }
    result := Done(buffer);
  }

  /** The retry counter is cumulative: from a state whose counter equals
      the failures so far, the loop throws exactly when the failures reach
      `retries + 1`, throws nothing but `read`, and never traps once
      `requested` is positive. */
  lemma {:induction false} ReadLoopFailures(tag: Tag, history: seq<Request>, start: int, retries: int,
                                            buffer: seq<byte>, remaining: int, requested: int, retry: int, sent: seq<Request>)
    requires 0 <= retry <= retries && retry == Failures(Replies(tag, history, sent))
    requires remaining > 0 ==> requested >= 1
    ensures var r := ReadLoop(tag, history, start, retries, buffer, remaining, requested, retry, sent);
      !r.0.Trapped? && (r.0.Thrown? ==> r.0.error == ReadError) &&
      (r.0.Thrown? <==> Failures(Replies(tag, history, r.1)) == retries + 1) &&
      Failures(Replies(tag, history, r.1)) <= retries + 1
    decreases if remaining > 0 then remaining else 0, retries - retry
  {
    var r := ReadLoop(tag, history, start, retries, buffer, remaining, requested, retry, sent);
    if remaining > 0 {
      var req := ReadMultipleBlocks(start + |buffer| / 8, requested);
      var reply := tag(history + sent + [req]);
      var failures := Failures(Replies(tag, history, sent + [req]));
      RepliesSnoc(tag, history, sent, req);
      FailuresSnoc(Replies(tag, history, sent), reply);
      assert failures == retry + (if reply.Failed? then 1 else 0);
      if reply.Answer? {
        var left := remaining - requested;
        ReadLoopFailures(tag, history, start, retries, buffer + reply.data, left,
                         Shrink(left, requested), retry, sent + [req]);
        assert r == ReadLoop(tag, history, start, retries, buffer + reply.data, left,
                             Shrink(left, requested), retry, sent + [req]);
      } else if retry + 1 <= retries {
        ReadLoopFailures(tag, history, start, retries, buffer, remaining, requested, retry + 1, sent + [req]);
        assert r == ReadLoop(tag, history, start, retries, buffer, remaining, requested, retry + 1, sent + [req]);
      } else {
        assert r == (Thrown(ReadError), sent + [req]);
        assert failures == retries + 1;
      }
    } else {
      assert r == (Done(buffer), sent);
    }
  }

  /** `read` throws `NFCError.read` exactly at the (retries+1)-th failure
      overall, and never traps when `requesting` is positive. */
  lemma ReadRetries(tag: Tag, history: seq<Request>, start: int, blocks: int, requesting: int, retries: int)
    requires requesting >= 1 && retries >= 0
    ensures var r := ReadSpec(tag, history, start, blocks, requesting, retries);
      !r.0.Trapped? && (r.0.Thrown? ==> r.0.error == ReadError) &&
      (r.0.Thrown? <==> Failures(Replies(tag, history, r.1)) == retries + 1)
  {
    ReadLoopFailures(tag, history, start, retries, [], blocks, requesting, 0, []);
  }

  /** With 8-byte blocks and at least `requesting` blocks to read, every
      state of the loop keeps the buffer at 8 bytes per block done and
      `requested` within `remaining`, so a completed read has exactly
      8·blocks bytes. */
  lemma {:induction false} ReadLoopExact(tag: Tag, history: seq<Request>, start: int, blocks: int, retries: int,
                                         buffer: seq<byte>, remaining: int, requested: int, retry: int, sent: seq<Request>)
    requires EightByteBlocks(tag) && retry <= retries
    requires 0 <= remaining <= blocks && |buffer| == 8 * (blocks - remaining)
    requires remaining > 0 ==> 1 <= requested <= remaining
    ensures var r := ReadLoop(tag, history, start, retries, buffer, remaining, requested, retry, sent);
      r.0.Done? ==> |r.0.value| == 8 * blocks
    decreases remaining, retries - retry
  {
    var r := ReadLoop(tag, history, start, retries, buffer, remaining, requested, retry, sent);
    if remaining > 0 {
      var req := ReadMultipleBlocks(start + |buffer| / 8, requested);
      var reply := tag(history + sent + [req]);
      if reply.Answer? {
        var left := remaining - requested;
        assert |reply.data| == 8 * requested;
        ReadLoopExact(tag, history, start, blocks, retries, buffer + reply.data, left,
                      Shrink(left, requested), retry, sent + [req]);
        assert r == ReadLoop(tag, history, start, retries, buffer + reply.data, left,
                             Shrink(left, requested), retry, sent + [req]);
      } else if retry + 1 <= retries {
        ReadLoopExact(tag, history, start, blocks, retries, buffer, remaining, requested, retry + 1, sent + [req]);
        assert r == ReadLoop(tag, history, start, retries, buffer, remaining, requested, retry + 1, sent + [req]);
      }
    }
  }

  lemma ReadExact(tag: Tag, history: seq<Request>, start: int, blocks: int, requesting: int, retries: int)
    requires EightByteBlocks(tag) && 1 <= requesting <= blocks && retries >= 0
    ensures var r := ReadSpec(tag, history, start, blocks, requesting, retries);
      r.0.Done? ==> |r.0.value| == 8 * blocks
  {
    ReadLoopExact(tag, history, start, blocks, retries, [], blocks, requesting, 0, []);
  }

  /** The over-read: asking for fewer blocks than `requesting` still sends
      one request for `requesting` blocks, so an answering tag returns
      8·requesting bytes, more than the 8·blocks asked for. */
  lemma ReadOverReads(tag: Tag, history: seq<Request>, start: int, blocks: int, requesting: int, retries: int)
    requires EightByteBlocks(tag) && 1 <= blocks < requesting && retries >= 0
    requires tag(history + [ReadMultipleBlocks(start, requesting)]).Answer?
    ensures var r := ReadSpec(tag, history, start, blocks, requesting, retries);
      r.1 == [ReadMultipleBlocks(start, requesting)] && r.0.Done? && |r.0.value| == 8 * requesting > 8 * blocks
  {
    var req := ReadMultipleBlocks(start, requesting);
    assert [] + [req] == [req];
    assert history + [] + [req] == history + [req];
    var d := tag(history + [req]).data;
    assert |d| == 8 * requesting;
    var left := blocks - requesting;
    assert ReadSpec(tag, history, start, blocks, requesting, retries)
      == ReadLoop(tag, history, start, retries, [] + d, left, left, 0, [] + [req]);
  }

  // ---------------------------------------------------------------------
  // readBlocks(from:count:requesting:)
  // ---------------------------------------------------------------------

  /** The low and high bytes of a 16-bit block number or address, as
      `UInt8(v & 0xFF)` and `UInt8(v >> 8)`. */
  function LoByte(v: int): byte
    requires 0 <= v <= 0xFFFF
  {
    (v % 256) as byte
  }

  function HiByte(v: int): byte
    requires 0 <= v <= 0xFFFF
  {
    (v / 256) as byte
  }

  /** The number a tag reads from a low and a high byte. */
  function WordValue(lo: byte, hi: byte): int
  {
    lo as int + 256 * hi as int
  }

  lemma WordBytes(v: int)
    requires 0 <= v <= 0xFFFF
    ensures WordValue(LoByte(v), HiByte(v)) == v
  {
    ByteOfNat(v % 256);
    ByteOfNat(v / 256);
  }

  /** `UInt8(n - 1)`, the count byte of a read of n blocks. */
  function CountByte(n: int): byte
    requires 1 <= n <= 256
  {
    (n - 1) as byte
  }

  lemma CountBytes(n: int)
    requires 1 <= n <= 256
    ensures CountByte(n) as int + 1 == n
  {
    ByteOfNat(n - 1);
  }

  /** The command `readBlocks` sends for `n` blocks from `blk`: B3 [lo, hi,
      n-1], B0 [lo, hi] for one block, and for security generation 2 and
      later the `A1 21` [blk, n-1] subcommand when `blk` fits a byte. The
      `UInt8` conversions trap (None) unless 0 <= blk <= 0xFFFF and
      1 <= n <= 256. */
  function ReadBlocksCommand(gen: int, blk: int, n: int): (r: Option<NfcCommand>)
    ensures r.Some? <==> 0 <= blk <= 0xFFFF && 1 <= n <= 256
  {
    if !(0 <= blk <= 0xFFFF && 1 <= n <= 256) then None
    else if gen > 1 && blk <= 255 then Some(NfcCommand(0xA1, [SubRaw(ReadFramBlocks), blk as byte, CountByte(n)]))
    else if n == 1 then Some(NfcCommand(0xB0, [LoByte(blk), HiByte(blk)]))
    else Some(NfcCommand(0xB3, [LoByte(blk), HiByte(blk), CountByte(n)]))
  }

  /** The `A1 21` read is `nfcCommand(.readBlocks, ...)`, whatever the
      uid and secret. */
  lemma ReadBlocksIsNfcCommand(gen: int, blk: int, n: int, uid: seq<byte>, secret: u16)
    requires 0 <= blk <= 255 && 1 <= n <= 256 && gen > 1
    ensures ReadBlocksCommand(gen, blk, n) == Some(NfcCommandFor(uid, ReadFramBlocks, [blk as byte, CountByte(n)], secret))
  {
    NfcCommandSecrets(uid, uid, ReadFramBlocks, [blk as byte, CountByte(n)], secret);
    assert [SubRaw(ReadFramBlocks)] + [blk as byte, CountByte(n)] == [SubRaw(ReadFramBlocks), blk as byte, CountByte(n)];
  }

  /** What a tag reads from a block-read command: its first block and
      block count. */
  function DecodeReadCommand(c: NfcCommand): Option<(int, int)>
  {
    var p := c.parameters;
    if c.code == 0xB0 && |p| == 2 then Some((WordValue(p[0], p[1]), 1))
    else if c.code == 0xB3 && |p| == 3 then Some((WordValue(p[0], p[1]), p[2] as int + 1))
    else if c.code == 0xA1 && |p| == 3 && p[0] == 0x21 then Some((p[1] as int, p[2] as int + 1))
    else None
  }

  /** Every command `readBlocks` builds names exactly the blocks it wants:
      the tag decodes the same first block and count. */
  lemma ReadBlocksCommandDecodes(gen: int, blk: int, n: int)
    requires 0 <= blk <= 0xFFFF && 1 <= n <= 256
    ensures DecodeReadCommand(ReadBlocksCommand(gen, blk, n).value) == Some((blk, n))
    ensures var c := ReadBlocksCommand(gen, blk, n).value;
      (c.code == 0xA1 <==> gen > 1 && blk <= 255) && (c.code == 0xB0 <==> n == 1 && !(gen > 1 && blk <= 255))
  {
    var c := ReadBlocksCommand(gen, blk, n).value;
    if gen > 1 && blk <= 255 {
      FramBlocksDecode(blk, n);
      assert c == NfcCommand(0xA1, [0x21, blk as byte, CountByte(n)]);
    } else if n == 1 {
      SingleBlockDecodes(blk);
      assert c == NfcCommand(0xB0, [LoByte(blk), HiByte(blk)]);
    } else {
      MultipleBlocksDecode(blk, n);
      assert c == NfcCommand(0xB3, [LoByte(blk), HiByte(blk), CountByte(n)]);
    }
  }

  lemma FramBlocksDecode(blk: int, n: int)
    requires 0 <= blk <= 255 && 1 <= n <= 256
    ensures DecodeReadCommand(NfcCommand(0xA1, [0x21, blk as byte, CountByte(n)])) == Some((blk, n))
  {
    CountBytes(n);
    ByteOfNat(blk);
  }

  lemma SingleBlockDecodes(blk: int)
    requires 0 <= blk <= 0xFFFF
    ensures DecodeReadCommand(NfcCommand(0xB0, [LoByte(blk), HiByte(blk)])) == Some((blk, 1))
  {
    WordBytes(blk);
  }

  lemma MultipleBlocksDecode(blk: int, n: int)
    requires 0 <= blk <= 0xFFFF && 1 <= n <= 256
    ensures DecodeReadCommand(NfcCommand(0xB3, [LoByte(blk), HiByte(blk), CountByte(n)])) == Some((blk, n))
  {
    CountBytes(n);
    WordBytes(blk);
  }

  /** Security generation 2 and later prefix each answer with 8 dummy
      bytes, which `readBlocks` drops; an answer shorter than that traps
      (None). */
  function BlocksPayload(gen: int, d: seq<byte>): Option<seq<byte>>
  {
    if gen < 2 then Some(d) else if |d| < 8 then None else Some(d[8..])
  }

  /** The loop of `readBlocks`: like `read` but with a custom command per
      request and no retry; the first failure throws. */
  function ReadBlocksLoop(tag: Tag, history: seq<Request>, gen: int, start: int,
                          buffer: seq<byte>, remaining: int, requested: int, sent: seq<Request>)
    : (r: (Outcome<seq<byte>>, seq<Request>))
    decreases if remaining > 0 then remaining else 0
  {
    if remaining <= 0 then (Done(buffer), sent)
    else match ReadBlocksCommand(gen, start + |buffer| / 8, requested)
      case None => (Trapped, sent)
      case Some(c) =>
        var req := Custom(c);
        match tag(history + sent + [req])
        case Failed => (Thrown(ReadBlocksError), sent + [req])
        case Answer(d) =>
          match BlocksPayload(gen, d)
          case None => (Trapped, sent + [req])
          case Some(got) =>
            var left := remaining - requested;
            ReadBlocksLoop(tag, history, gen, start, buffer + got, left,
                           Shrink(left, requested), sent + [req])
  }

  /** `readBlocks`: B3/B0 reads need security generation 1 or the Libre
      Pro; other sensors are refused before any request. */
  function ReadBlocksSpec(tag: Tag, history: seq<Request>, t: SensorType, gen: int,
                          start: int, blocks: int, requesting: int): (Outcome<seq<byte>>, seq<Request>)
  {
    if gen < 1 && t != LibreProH then (Thrown(CommandNotSupported), [])
    else ReadBlocksLoop(tag, history, gen, start, [], blocks, requesting, [])
  }

  method ReadBlocks(tag: Tag, history: seq<Request>, t: SensorType, gen: int,
                    start: int, blocks: int, requesting: int)
    returns (result: Outcome<seq<byte>>, sent: seq<Request>)
    ensures (result, sent) == ReadBlocksSpec(tag, history, t, gen, start, blocks, requesting)
  {
    if gen < 1 && t != LibreProH {
      return Thrown(CommandNotSupported), [];
    }
    var buffer: seq<byte> := [];
    var remaining := blocks;
    var requested := requesting;
    sent := [];
    while remaining > 0
      invariant ReadBlocksLoop(tag, history, gen, start, buffer, remaining, requested, sent)
        == ReadBlocksSpec(tag, history, t, gen, start, blocks, requesting)
      decreases if remaining > 0 then remaining else 0
    {
      var command := ReadBlocksCommand(gen, start + |buffer| / 8, requested);
      if command.None? {
        return Trapped, sent;
      }
      var req := Custom(command.value);
      var reply := tag(history + sent + [req]);
      sent := sent + [req];
      if reply.Failed? {
        return Thrown(ReadBlocksError), sent;
      }
      var got := BlocksPayload(gen, reply.data);
      if got.None? {
        return Trapped, sent;
      }
      buffer := buffer + got.value;
      remaining := remaining - requested;
      if remaining != 0 && remaining < requested {
        requested := remaining;
      }
    }
    result := Done(buffer);
  }

  /** A tag that answers every block-read command for n blocks with 8n
      bytes after `lead` dummy bytes, when it answers. */
  ghost predicate AnswersBlocks(tag: Tag, lead: nat)
  {
    forall h: seq<Request>, c: NfcCommand ::
      DecodeReadCommand(c).Some? && tag(h + [Custom(c)]).Answer? ==>
        |tag(h + [Custom(c)]).data| == lead + 8 * DecodeReadCommand(c).value.1
  }

  /** One answered round of `readBlocks`. */
  lemma ReadBlocksStep(tag: Tag, history: seq<Request>, gen: int, start: int,
                       buffer: seq<byte>, remaining: int, requested: int, sent: seq<Request>, c: NfcCommand, got: seq<byte>)
    requires remaining > 0 && ReadBlocksCommand(gen, start + |buffer| / 8, requested) == Some(c)
    requires tag(history + sent + [Custom(c)]).Answer?
    requires BlocksPayload(gen, tag(history + sent + [Custom(c)]).data) == Some(got)
    ensures ReadBlocksLoop(tag, history, gen, start, buffer, remaining, requested, sent)
      == ReadBlocksLoop(tag, history, gen, start, buffer + got, remaining - requested,
                        Shrink(remaining - requested, requested), sent + [Custom(c)])
  {
  }

  /** A failed round of `readBlocks` throws. */
  lemma ReadBlocksFailedStep(tag: Tag, history: seq<Request>, gen: int, start: int,
                             buffer: seq<byte>, remaining: int, requested: int, sent: seq<Request>, c: NfcCommand)
    requires remaining > 0 && ReadBlocksCommand(gen, start + |buffer| / 8, requested) == Some(c)
    requires tag(history + sent + [Custom(c)]).Failed?
    ensures ReadBlocksLoop(tag, history, gen, start, buffer, remaining, requested, sent)
      == (Thrown(ReadBlocksError), sent + [Custom(c)])
  {
  }

  lemma AnswerSize(tag: Tag, lead: nat, h: seq<Request>, c: NfcCommand, blk: int, n: int)
    requires AnswersBlocks(tag, lead) && DecodeReadCommand(c) == Some((blk, n)) && tag(h + [Custom(c)]).Answer?
    ensures |tag(h + [Custom(c)]).data| == lead + 8 * n
  {
  }

  /** From any state, `readBlocks` sends no request after a failure: all
      replies but the last are answers, and it throws `readBlocks` exactly
      when the last one failed. */
  lemma {:induction false} ReadBlocksLoopNoRetry(tag: Tag, history: seq<Request>, gen: int, start: int,
                                                 buffer: seq<byte>, remaining: int, requested: int, sent: seq<Request>)
    requires forall k :: 0 <= k < |sent| ==> Replies(tag, history, sent)[k].Answer?
    ensures var r := ReadBlocksLoop(tag, history, gen, start, buffer, remaining, requested, sent);
      var rs := Replies(tag, history, r.1);
      (forall k :: 0 <= k < |r.1| - 1 ==> rs[k].Answer?) &&
      (r.0.Thrown? ==> r.0.error == ReadBlocksError) &&
      (r.0.Thrown? <==> r.1 != [] && rs[|r.1| - 1].Failed?)
    decreases if remaining > 0 then remaining else 0
  {
    var r := ReadBlocksLoop(tag, history, gen, start, buffer, remaining, requested, sent);
    if remaining > 0 && ReadBlocksCommand(gen, start + |buffer| / 8, requested).Some? {
      var req := Custom(ReadBlocksCommand(gen, start + |buffer| / 8, requested).value);
      var reply := tag(history + sent + [req]);
      RepliesSnoc(tag, history, sent, req);
      if reply.Failed? {
        assert r == (Thrown(ReadBlocksError), sent + [req]);
      } else if BlocksPayload(gen, reply.data).Some? {
        var got := BlocksPayload(gen, reply.data).value;
        var left := remaining - requested;
        ReadBlocksLoopNoRetry(tag, history, gen, start, buffer + got, left, Shrink(left, requested), sent + [req]);
        assert r == ReadBlocksLoop(tag, history, gen, start, buffer + got, left, Shrink(left, requested), sent + [req]);
      } else {
        assert r == (Trapped, sent + [req]);
      }
    }
  }

  lemma ReadBlocksNoRetry(tag: Tag, history: seq<Request>, t: SensorType, gen: int,
                          start: int, blocks: int, requesting: int)
    ensures var r := ReadBlocksSpec(tag, history, t, gen, start, blocks, requesting);
      var rs := Replies(tag, history, r.1);
      (gen < 1 && t != LibreProH <==> r.0 == Thrown(CommandNotSupported) && r.1 == []) &&
      (forall k :: 0 <= k < |r.1| - 1 ==> rs[k].Answer?) &&
      (r.0.Thrown? && r.1 != [] ==> r.0.error == ReadBlocksError && rs[|r.1| - 1].Failed?)
  {
    if !(gen < 1 && t != LibreProH) {
      ReadBlocksLoopNoRetry(tag, history, gen, start, [], blocks, requesting, []);
    }
  }

  /** With 8 bytes per block (after the dummy prefix of generation 2 and
      later), block numbers that fit 16 bits and at least `requesting`
      blocks, the loop keeps 8 bytes per block done, so it either throws
      `readBlocks` or returns exactly 8·blocks bytes. */
  lemma {:induction false} ReadBlocksLoopExact(tag: Tag, history: seq<Request>, gen: int, start: int, blocks: int,
                                               buffer: seq<byte>, remaining: int, requested: int, sent: seq<Request>)
    requires AnswersBlocks(tag, if gen < 2 then 0 else 8)
    requires 0 <= start && start + blocks <= 0x1_0000 && requested <= 256
    requires 0 <= remaining <= blocks && |buffer| == 8 * (blocks - remaining)
    requires remaining > 0 ==> 1 <= requested <= remaining
    ensures var r := ReadBlocksLoop(tag, history, gen, start, buffer, remaining, requested, sent);
      r.0 == Thrown(ReadBlocksError) || (r.0.Done? && |r.0.value| == 8 * blocks)
    decreases remaining
  {
    if remaining > 0 {
      var blk := start + |buffer| / 8;
      assert blk == start + blocks - remaining;
      ReadBlocksCommandDecodes(gen, blk, requested);
      var command := ReadBlocksCommand(gen, blk, requested);
      assert command.Some?;
      var c := command.value;
      var reply := tag(history + sent + [Custom(c)]);
      if reply.Answer? {
        AnswerSize(tag, if gen < 2 then 0 else 8, history + sent, c, blk, requested);
        var got := BlocksPayload(gen, reply.data).value;
        var left := remaining - requested;
        assert |got| == 8 * requested;
        ReadBlocksLoopExact(tag, history, gen, start, blocks, buffer + got, left, Shrink(left, requested), sent + [Custom(c)]);
        ReadBlocksStep(tag, history, gen, start, buffer, remaining, requested, sent, c, got);
      } else {
        ReadBlocksFailedStep(tag, history, gen, start, buffer, remaining, requested, sent, c);
      }
    }
  }

  lemma ReadBlocksExact(tag: Tag, history: seq<Request>, t: SensorType, gen: int,
                        start: int, blocks: int, requesting: int)
    requires !(gen < 1 && t != LibreProH)
    requires AnswersBlocks(tag, if gen < 2 then 0 else 8)
    requires 0 <= start && start + blocks <= 0x1_0000 && 1 <= requesting <= blocks && requesting <= 256
    ensures var r := ReadBlocksSpec(tag, history, t, gen, start, blocks, requesting);
      r.0 == Thrown(ReadBlocksError) || (r.0.Done? && |r.0.value| == 8 * blocks)
  {
    ReadBlocksLoopExact(tag, history, gen, start, blocks, [], blocks, requesting, []);
  }

  // ---------------------------------------------------------------------
  // readRaw (Libre 1 only)
  // ---------------------------------------------------------------------

  /** `wordsToRead`: half the remaining bytes, one more for an odd count or
      an odd address, at most 12. */
  function RawWords(remaining: int, addr: int): (w: int)
    requires remaining > 0 && addr >= 0
    ensures 1 <= w <= 12
  {
    var words := remaining / 2 + (if remaining % 2 == 1 || (remaining % 2 == 0 && addr % 2 == 1) then 1 else 0);
    if words < 12 then words else 12
  }

  /** The A3 command bytes of a raw read: the backdoor, the address low
      and high bytes, and the word count. */
  function RawCommand(t: SensorType, addr: int, words: int): (c: NfcCommand)
    requires 0 <= addr <= 0xFFFF && 1 <= words <= 12
    ensures c.code == 0xA3 && |c.parameters| == 7 && c.parameters[..4] == Backdoor(t)
  {
    NfcCommand(0xA3, Backdoor(t) + [LoByte(addr), HiByte(addr), words as byte])
  }

  /** The tag reads back the address and the word count it was sent. */
  lemma RawCommandDecodes(t: SensorType, addr: int, words: int)
    requires 0 <= addr <= 0xFFFF && 1 <= words <= 12
    ensures var p := RawCommand(t, addr, words).parameters;
      WordValue(p[4], p[5]) == addr && p[6] as int == words
  {
    WordBytes(addr);
    ByteOfNat(words);
  }

  /** An A3 answer at an odd address starts one byte early, and one byte
      past the `n` wanted is dropped. */
  function RawTrim(addr: int, n: int, d: seq<byte>): (got: seq<byte>)
    requires addr >= 0 && n >= 1 && (addr % 2 == 1 ==> |d| >= 1)
    ensures |got| <= |d|
    ensures |d| >= 2 ==> |got| >= 1
  {
    var d1 := if addr % 2 == 1 then d[1..] else d;
    if |d1| - n == 1 then d1[..|d1| - 1] else d1
  }

  /** How one round of `readRaw` ends: the loop stops with an outcome, or
      appends what the answer carries. */
  datatype RawRound = Stop(outcome: Outcome<seq<byte>>) | Append(got: seq<byte>)

  /** A failed A3 throws `customCommandError`; an empty answer at an odd
      address traps when its first byte is dropped. */
  function RawRoundOf(addr: int, n: int, reply: Reply): (r: RawRound)
    requires addr >= 0 && n >= 1
    ensures r.Stop? ==> r.outcome == Thrown(CustomCommandError) || r.outcome == Trapped
    ensures r.Append? ==> reply.Answer? && |r.got| <= |reply.data| && (|reply.data| >= 2 ==> |r.got| >= 1)
  {
    match reply
    case Failed => Stop(Thrown(CustomCommandError))
    case Answer(d) => if addr % 2 == 1 && |d| == 0 then Stop(Trapped) else Append(RawTrim(addr, n, d))
  }

  /** A tag that answers each raw read with at least two bytes (one
      word), when it answers. */
  ghost predicate RawAnswersWords(tag: Tag)
  {
    forall h: seq<Request>, t: SensorType, a: int, w: int ::
      tag(h + [RawRead(t, a, w)]).Answer? ==> |tag(h + [RawRead(t, a, w)]).data| >= 2
  }

  /** A tag that answers each raw read with exactly two bytes per word
      asked for, when it answers. */
  ghost predicate RawAnswersExactly(tag: Tag)
  {
    forall h: seq<Request>, t: SensorType, a: int, w: int ::
      tag(h + [RawRead(t, a, w)]).Answer? ==> |tag(h + [RawRead(t, a, w)]).data| == 2 * w
  }

  /** The raw read `readRaw` sends with `remaining` bytes left at `addr`. */
  function RawRequest(t: SensorType, addr: int, remaining: int): Request
    requires remaining > 0 && addr >= 0
  {
    RawRead(t, addr, RawWords(remaining, addr))
  }

  function RawWanted(remaining: int): (n: int)
    requires remaining > 0
    ensures 1 <= n <= 24 && n <= remaining
  {
    if remaining < 24 then remaining else 24
  }

  /** The loop of `readRaw`: each request starts right after the bytes
      already buffered, and what it appends lowers `remainingBytes`. */
  function RawLoop(tag: Tag, history: seq<Request>, t: SensorType, address: int,
                   buffer: seq<byte>, remaining: int, sent: seq<Request>): (r: (Outcome<seq<byte>>, seq<Request>))
    requires RawAnswersWords(tag)
    decreases if remaining > 0 then remaining else 0
  {
    if remaining <= 0 then (Done(buffer), sent)
    else if !(0 <= address + |buffer| <= 0xFFFF) then (Trapped, sent)
    else
      var req := RawRequest(t, address + |buffer|, remaining);
      match RawRoundOf(address + |buffer|, RawWanted(remaining), tag(history + sent + [req]))
      case Stop(o) => (o, sent + [req])
      case Append(got) => RawLoop(tag, history, t, address, buffer + got, remaining - |got|, sent + [req])
  }

  /** `readRaw`: only the Libre 1 has the A3 command. */
  function RawReadSpec(tag: Tag, history: seq<Request>, t: SensorType, address: int, bytes: int)
    : (Outcome<seq<byte>>, seq<Request>)
    requires RawAnswersWords(tag)
  {
    if t != Libre1 then (Thrown(CommandNotSupported), [])
    else RawLoop(tag, history, t, address, [], bytes, [])
  }

  /** `readRaw(_:_:)`. A tag that answers an A3 command with fewer than two
      bytes would make the Swift loop repeat forever. */
  method ReadRaw(tag: Tag, history: seq<Request>, t: SensorType, address: int, bytes: int)
    returns (result: Outcome<seq<byte>>, sent: seq<Request>)
    requires RawAnswersWords(tag)
    ensures (result, sent) == RawReadSpec(tag, history, t, address, bytes)
  {
    if t != Libre1 {
      return Thrown(CommandNotSupported), [];
    }
    var buffer: seq<byte> := [];
    var remaining := bytes;
    sent := [];
    while remaining > 0
      invariant RawLoop(tag, history, t, address, buffer, remaining, sent) == RawReadSpec(tag, history, t, address, bytes)
      decreases if remaining > 0 then remaining else 0
    {
      if !(0 <= address + |buffer| <= 0xFFFF) {
        return Trapped, sent;
      }
      var stop, outcome, buffer', remaining', sent' := RawReadRound(tag, history, t, address, buffer, remaining, sent);
      if stop {
        return outcome, sent';
      }
      buffer, remaining, sent := buffer', remaining', sent';
    }
    result := Done(buffer);
  }

  /** One pass of the `readRaw` loop: the A3 read at the next address, and
      either the outcome the loop stops with or the state it goes on from. */
  method RawReadRound(tag: Tag, history: seq<Request>, t: SensorType, address: int,
                      buffer: seq<byte>, remaining: int, sent: seq<Request>)
    returns (stop: bool, outcome: Outcome<seq<byte>>, buffer': seq<byte>, remaining': int, sent': seq<Request>)
    requires RawAnswersWords(tag) && remaining > 0 && 0 <= address + |buffer| <= 0xFFFF
    ensures stop ==> RawLoop(tag, history, t, address, buffer, remaining, sent) == (outcome, sent')
    ensures !stop ==> remaining' < remaining
    ensures !stop ==>
      RawLoop(tag, history, t, address, buffer, remaining, sent) == RawLoop(tag, history, t, address, buffer', remaining', sent')
  {
    var addr := address + |buffer|;
    var req := RawRequest(t, addr, remaining);
    var round := RawRoundOf(addr, RawWanted(remaining), tag(history + sent + [req]));
    RawStep(tag, history, t, address, buffer, remaining, sent);
    sent' := sent + [req];
    stop, outcome, buffer', remaining' := false, Done(buffer), buffer, remaining;
    if round.Stop? {
      stop, outcome := true, round.outcome;
    } else {
      buffer', remaining' := buffer + round.got, remaining - |round.got|;
    }
  }

  /** One round with an exact answer appends between 1 and min(remaining,
      24) bytes: all of them, except 23 at an odd address with 24 or more
      remaining. */
  lemma RawExactRound(remaining: int, addr: int, d: seq<byte>)
    requires remaining > 0 && addr >= 0 && |d| == 2 * RawWords(remaining, addr)
    ensures var got := RawTrim(addr, RawWanted(remaining), d);
      1 <= |got| <= RawWanted(remaining) &&
      (|got| == RawWanted(remaining) <==> !(addr % 2 == 1 && remaining >= 24))
  {
  }

  /** One round of the raw read loop. */
  lemma RawStep(tag: Tag, history: seq<Request>, t: SensorType, address: int,
                buffer: seq<byte>, remaining: int, sent: seq<Request>)
    requires RawAnswersWords(tag) && remaining > 0 && 0 <= address + |buffer| <= 0xFFFF
    ensures var req := RawRequest(t, address + |buffer|, remaining);
      var round := RawRoundOf(address + |buffer|, RawWanted(remaining), tag(history + sent + [req]));
      var r := RawLoop(tag, history, t, address, buffer, remaining, sent);
      (round.Stop? ==> r == (round.outcome, sent + [req])) &&
      (round.Append? ==> r == RawLoop(tag, history, t, address, buffer + round.got, remaining - |round.got|, sent + [req]))
  {
  }

  /** An exact answer to a raw read is appended, and no more than the
      bytes remaining. */
  lemma RawExactAppends(tag: Tag, h: seq<Request>, t: SensorType, addr: int, remaining: int)
    requires RawAnswersExactly(tag) && remaining > 0 && addr >= 0
    requires tag(h + [RawRequest(t, addr, remaining)]).Answer?
    ensures var round := RawRoundOf(addr, RawWanted(remaining), tag(h + [RawRequest(t, addr, remaining)]));
      round.Append? && 1 <= |round.got| <= remaining
  {
    var reply := tag(h + [RawRead(t, addr, RawWords(remaining, addr))]);
    assert |reply.data| == 2 * RawWords(remaining, addr);
    RawExactRound(remaining, addr, reply.data);
  }

  /** The loop throws only `customCommandError`, and the buffer always
      holds `bytes - remaining` bytes, so a completed raw read covers at
      least the bytes asked for. */
  lemma {:induction false} RawLoopLength(tag: Tag, history: seq<Request>, t: SensorType, address: int, bytes: int,
                                         buffer: seq<byte>, remaining: int, sent: seq<Request>)
    requires RawAnswersWords(tag) && |buffer| == bytes - remaining
    ensures var r := RawLoop(tag, history, t, address, buffer, remaining, sent);
      (r.0.Thrown? ==> r.0.error == CustomCommandError) && (r.0.Done? ==> |r.0.value| >= bytes)
    decreases if remaining > 0 then remaining else 0
  {
    if remaining > 0 && 0 <= address + |buffer| <= 0xFFFF {
      var req := RawRequest(t, address + |buffer|, remaining);
      var round := RawRoundOf(address + |buffer|, RawWanted(remaining), tag(history + sent + [req]));
      if round.Append? {
        RawLoopLength(tag, history, t, address, bytes, buffer + round.got, remaining - |round.got|, sent + [req]);
      }
    }
  }

  /** With exact answers no round overshoots `remaining`, so a completed
      raw read returns exactly `bytes` bytes. */
  lemma {:induction false} RawLoopExact(tag: Tag, history: seq<Request>, t: SensorType, address: int, bytes: int,
                                        buffer: seq<byte>, remaining: int, sent: seq<Request>)
    requires RawAnswersWords(tag) && RawAnswersExactly(tag)
    requires |buffer| == bytes - remaining && remaining >= 0
    ensures var r := RawLoop(tag, history, t, address, buffer, remaining, sent);
      r.0.Done? ==> |r.0.value| == bytes
    decreases remaining
  {
    if remaining > 0 && 0 <= address + |buffer| <= 0xFFFF {
      var req := RawRequest(t, address + |buffer|, remaining);
      var reply := tag(history + sent + [req]);
      var round := RawRoundOf(address + |buffer|, RawWanted(remaining), reply);
      RawStep(tag, history, t, address, buffer, remaining, sent);
      if round.Append? {
        RawExactAppends(tag, history + sent, t, address + |buffer|, remaining);
        assert history + sent + [req] == (history + sent) + [req];
        RawLoopExact(tag, history, t, address, bytes, buffer + round.got, remaining - |round.got|, sent + [req]);
      }
    }
  }

  /** `readRaw` refuses every sensor but the Libre 1 before any request,
      throws nothing but that and, for the Libre 1, `customCommandError`, returns at least
      the bytes asked for, and exactly those with exact answers. */
  lemma RawReadLength(tag: Tag, history: seq<Request>, t: SensorType, address: int, bytes: int)
    requires RawAnswersWords(tag) && bytes >= 0
    ensures var r := RawReadSpec(tag, history, t, address, bytes);
      (t != Libre1 <==> r == (Thrown(CommandNotSupported), [])) &&
      (r.0.Thrown? ==> r.0.error == if t == Libre1 then CustomCommandError else CommandNotSupported) &&
      (r.0.Done? ==> |r.0.value| >= bytes) &&
      (r.0.Done? && RawAnswersExactly(tag) ==> |r.0.value| == bytes)
  {
    if t == Libre1 {
      RawLoopLength(tag, history, t, address, bytes, [], bytes, []);
      if RawAnswersExactly(tag) {
        RawLoopExact(tag, history, t, address, bytes, [], bytes, []);
      }
    }
  }

  // ---------------------------------------------------------------------
  // write(fromBlock:_:)
  // ---------------------------------------------------------------------

  /** The i-th 8-byte block of a buffer. */
  function BlockAt(data: seq<byte>, i: int): (b: seq<byte>)
    requires 0 <= i && 8 * i + 8 <= |data|
    ensures |b| == 8
  {
    data[8 * i .. 8 * i + 8]
  }

  /** `n` consecutive blocks from block `from`. */
  function BlocksFrom(data: seq<byte>, from: int, n: nat): (r: seq<seq<byte>>)
    requires 0 <= from && 8 * (from + n) <= |data|
    ensures |r| == n && forall k :: 0 <= k < n ==> r[k] == BlockAt(data, from + k)
  {
    seq(n, k requires 0 <= k < n => BlockAt(data, from + k))
  }

  /** The last block `write` covers. */
  function EndBlock(startBlock: int, data: seq<byte>): int
  {
    startBlock + |data| / 8 - 1
  }

  /** The write request for the blocks from `startIndex` to at most one
      block further. */
  function WriteRequest(startBlock: int, data: seq<byte>, startIndex: int): (req: Request)
    requires startBlock <= startIndex <= EndBlock(startBlock, data)
    ensures req.WriteMultipleBlocks? && req.first == startIndex
    ensures |req.blocks| == (if startIndex < EndBlock(startBlock, data) then 2 else 1)
  {
    var endIndex := if startIndex + 1 < EndBlock(startBlock, data) then startIndex + 1 else EndBlock(startBlock, data);
    WriteMultipleBlocks(startIndex, BlocksFrom(data, startIndex - startBlock, endIndex - startIndex + 1))
  }

  /** The requests `write` sends when every write succeeds. */
  function WritePlan(startBlock: int, data: seq<byte>, startIndex: int): seq<Request>
    requires startBlock <= startIndex
    decreases EndBlock(startBlock, data) - startIndex + 1
  {
    if startIndex > EndBlock(startBlock, data) then []
    else [WriteRequest(startBlock, data, startIndex)] + WritePlan(startBlock, data, WriteRequest(startBlock, data, startIndex).first + |WriteRequest(startBlock, data, startIndex).blocks|)
  }

  /** The loop of `write`: the first failed write throws. */
  function WriteLoop(tag: Tag, history: seq<Request>, startBlock: int, data: seq<byte>,
                     startIndex: int, sent: seq<Request>): (r: (Outcome<()>, seq<Request>))
    requires startBlock <= startIndex
    decreases EndBlock(startBlock, data) - startIndex + 1
  {
    if startIndex > EndBlock(startBlock, data) then (Done(()), sent)
    else
      var req := WriteRequest(startBlock, data, startIndex);
      if tag(history + sent + [req]).Failed? then (Thrown(WriteError), sent + [req])
      else WriteLoop(tag, history, startBlock, data, startIndex + |req.blocks|, sent + [req])
  }

  /** `write(fromBlock:_:)`: 2-block writes, the last one possibly of a
      single block; a trailing partial block is not written. */
  method Write(tag: Tag, history: seq<Request>, startBlock: int, data: seq<byte>)
    returns (result: Outcome<()>, sent: seq<Request>)
    ensures (result, sent) == WriteLoop(tag, history, startBlock, data, startBlock, [])
  {
    var startIndex := startBlock;
    var endBlock := startBlock + |data| / 8 - 1;
    sent := [];
    while startIndex <= endBlock
      invariant startBlock <= startIndex && endBlock == EndBlock(startBlock, data)
      invariant WriteLoop(tag, history, startBlock, data, startIndex, sent) == WriteLoop(tag, history, startBlock, data, startBlock, [])
      decreases endBlock - startIndex + 1
    {
      var endIndex := if startIndex + 1 < endBlock then startIndex + 1 else endBlock;
      var dataBlocks: seq<seq<byte>> := [];
      var i := startIndex;
      while i <= endIndex
        invariant startIndex <= i <= endIndex + 1
        invariant dataBlocks == BlocksFrom(data, startIndex - startBlock, i - startIndex)
      {
        dataBlocks := dataBlocks + [data[(i - startBlock) * 8 .. (i - startBlock) * 8 + 8]];
        i := i + 1;
      }
      var req := WriteMultipleBlocks(startIndex, dataBlocks);
      assert req == WriteRequest(startBlock, data, startIndex);
      var reply := tag(history + sent + [req]);
      sent := sent + [req];
      if reply.Failed? {
        return Thrown(WriteError), sent;
      }
      startIndex := endIndex + 1;
    }
    result := Done(());
  }

  /** The blocks carried by a list of write requests, concatenated. */
  function Written(reqs: seq<Request>): seq<byte>
  {
    if reqs == [] then []
    else (if reqs[0].WriteMultipleBlocks? then Flatten(reqs[0].blocks) else []) + Written(reqs[1..])
  }

  function Flatten(bs: seq<seq<byte>>): seq<byte>
  {
    if bs == [] then [] else bs[0] + Flatten(bs[1..])
  }

  lemma {:induction false} FlattenBlocks(data: seq<byte>, from: int, n: nat)
    requires 0 <= from && 8 * (from + n) <= |data|
    ensures Flatten(BlocksFrom(data, from, n)) == data[8 * from .. 8 * (from + n)]
    decreases n
  {
    if n > 0 {
      var bs := BlocksFrom(data, from, n);
      assert bs[1..] == BlocksFrom(data, from + 1, n - 1);
      FlattenBlocks(data, from + 1, n - 1);
      assert data[8 * from .. 8 * (from + n)] == BlockAt(data, from) + data[8 * (from + 1) .. 8 * (from + n)];
    }
  }

  /** The plan partitions the blocks from `startIndex` to the end, in
      order: request k starts at block startIndex + 2k, all but the last
      carry two blocks, and together they carry exactly the whole blocks of
      the data from there on. */
  lemma WritePlanPartitions(startBlock: int, data: seq<byte>, startIndex: int)
    requires startBlock <= startIndex <= EndBlock(startBlock, data) + 1
    ensures var plan := WritePlan(startBlock, data, startIndex);
      (forall k :: 0 <= k < |plan| ==>
        plan[k].WriteMultipleBlocks? && plan[k].first == startIndex + 2 * k &&
        1 <= |plan[k].blocks| <= 2 && (k < |plan| - 1 ==> |plan[k].blocks| == 2)) &&
      Written(plan) == data[8 * (startIndex - startBlock) .. 8 * (|data| / 8)]
  {
    WritePlanShape(startBlock, data, startIndex);
    WritePlanWritten(startBlock, data, startIndex);
  }

  /** One unfolding of the plan. */
  lemma WritePlanStep(startBlock: int, data: seq<byte>, startIndex: int)
    requires startBlock <= startIndex <= EndBlock(startBlock, data)
    ensures WritePlan(startBlock, data, startIndex)
      == [WriteRequest(startBlock, data, startIndex)]
         + WritePlan(startBlock, data, startIndex + |WriteRequest(startBlock, data, startIndex).blocks|)
  {
  }

  predicate PlanShaped(plan: seq<Request>, startIndex: int)
  {
    forall k :: 0 <= k < |plan| ==>
      plan[k].WriteMultipleBlocks? && plan[k].first == startIndex + 2 * k &&
      1 <= |plan[k].blocks| <= 2 && (k < |plan| - 1 ==> |plan[k].blocks| == 2)
  }

  lemma {:induction false} WritePlanShape(startBlock: int, data: seq<byte>, startIndex: int)
    requires startBlock <= startIndex <= EndBlock(startBlock, data) + 1
    ensures PlanShaped(WritePlan(startBlock, data, startIndex), startIndex)
    decreases EndBlock(startBlock, data) - startIndex + 1
  {
    if startIndex <= EndBlock(startBlock, data) {
      var req := WriteRequest(startBlock, data, startIndex);
      var next := startIndex + |req.blocks|;
      WritePlanShape(startBlock, data, next);
      WritePlanStep(startBlock, data, startIndex);
      var rest := WritePlan(startBlock, data, next);
      var plan := [req] + rest;
      assert rest != [] ==> |req.blocks| == 2;
      forall k | 0 <= k < |plan|
        ensures plan[k].WriteMultipleBlocks? && plan[k].first == startIndex + 2 * k &&
          1 <= |plan[k].blocks| <= 2 && (k < |plan| - 1 ==> |plan[k].blocks| == 2)
      {
        if k > 0 {
          assert plan[k] == rest[k - 1];
        }
      }
    }
  }

  lemma {:induction false} WritePlanWritten(startBlock: int, data: seq<byte>, startIndex: int)
    requires startBlock <= startIndex <= EndBlock(startBlock, data) + 1
    ensures Written(WritePlan(startBlock, data, startIndex)) == data[8 * (startIndex - startBlock) .. 8 * (|data| / 8)]
    decreases EndBlock(startBlock, data) - startIndex + 1
  {
    if startIndex <= EndBlock(startBlock, data) {
      var req := WriteRequest(startBlock, data, startIndex);
      var next := startIndex + |req.blocks|;
      WritePlanWritten(startBlock, data, next);
      WritePlanStep(startBlock, data, startIndex);
      WrittenCons(req, WritePlan(startBlock, data, next));
      FlattenBlocks(data, startIndex - startBlock, |req.blocks|);
      SliceSplit(data, 8 * (startIndex - startBlock), 8 * (next - startBlock), 8 * (|data| / 8));
    }
  }

  lemma WrittenCons(req: Request, rest: seq<Request>)
    requires req.WriteMultipleBlocks?
    ensures Written([req] + rest) == Flatten(req.blocks) + Written(rest)
  {
    assert ([req] + rest)[1..] == rest;
  }

  lemma SliceSplit(data: seq<byte>, i: int, j: int, k: int)
    requires 0 <= i <= j <= k <= |data|
    ensures data[i..k] == data[i..j] + data[j..k]
  {
  }

  /** `write` sends a prefix of the plan: all of it when it completes,
      and up to the first failed request, which throws `write`, otherwise;
      every request before that one was answered. */
  lemma {:induction false} WriteFollowsPlan(tag: Tag, history: seq<Request>, startBlock: int, data: seq<byte>,
                                            startIndex: int, sent: seq<Request>)
    requires startBlock <= startIndex
    ensures var r := WriteLoop(tag, history, startBlock, data, startIndex, sent);
      r.1 <= sent + WritePlan(startBlock, data, startIndex) &&
      (r.0.Done? ==> r.1 == sent + WritePlan(startBlock, data, startIndex)) &&
      (r.0.Thrown? ==> r.0.error == WriteError && |r.1| > |sent| && tag(history + r.1).Failed?) &&
      !r.0.Trapped? &&
      forall j :: |sent| <= j < |r.1| && (r.0.Done? || j < |r.1| - 1) ==> ReplyTo(tag, history, r.1, j).Answer?
    decreases EndBlock(startBlock, data) - startIndex + 1
  {
    if startIndex <= EndBlock(startBlock, data) {
      var req := WriteRequest(startBlock, data, startIndex);
      var plan := WritePlan(startBlock, data, startIndex);
      var rest := WritePlan(startBlock, data, startIndex + |req.blocks|);
      assert plan == [req] + rest;
      assert sent + plan == (sent + [req]) + rest;
      assert (sent + [req])[..|sent| + 1] == sent + [req];
      if tag(history + sent + [req]).Answer? {
        WriteFollowsPlan(tag, history, startBlock, data, startIndex + |req.blocks|, sent + [req]);
        var r := WriteLoop(tag, history, startBlock, data, startIndex + |req.blocks|, sent + [req]);
        assert r.1[..|sent| + 1] == sent + [req] by {
          assert sent + [req] <= r.1;
        }
        assert history + (sent + [req]) == history + sent + [req];
        if |sent| < |r.1| {
          assert ReplyTo(tag, history, r.1, |sent|) == tag(history + sent + [req]);
        }
      } else {
        assert history + (sent + [req]) == history + sent + [req];
      }
    }
  }

  // ---------------------------------------------------------------------
  // writeRaw(_:_:)
  // ---------------------------------------------------------------------

  /** The whole 8-byte blocks around a raw write: where they start, where
      the new bytes start in them, and how many there are. */
  datatype FramWindow = FramWindow(address: int, offset: int, blocks: int)

  /** The window `writeRaw` reads back, with Swift's truncating `/` and `%`. */
  function RawWindow(address: int, count: int): FramWindow
  {
    var addressToRead := TruncDiv(address, 8) * 8;
    var endAddressToRead := TruncDiv(address + count - 1, 8) * 8 + 7;
    FramWindow(addressToRead, TruncMod(address, 8), TruncDiv(endAddressToRead - addressToRead, 8) + 1)
  }

  /** For a write of at least one byte at a non-negative address the window
      is block-aligned, holds the new bytes at `offset`, and has no block
      more than they need. */
  lemma RawWindowCovers(address: int, count: int)
    requires address >= 0 && count >= 1
    ensures var w := RawWindow(address, count);
      w.address % 8 == 0 && 0 <= w.offset < 8 && w.address + w.offset == address &&
      w.blocks >= 1 && w.offset + count <= 8 * w.blocks && 8 * (w.blocks - 1) < w.offset + count &&
      w.address + 8 * w.blocks == (address + count - 1) / 8 * 8 + 8
  {
    TruncMatchesEuclid(address, 8);
    TruncMatchesEuclid(address + count - 1, 8);
    var w := RawWindow(address, count);
    TruncMatchesEuclid((address + count - 1) / 8 * 8 + 7 - address / 8 * 8, 8);
  }

  /** `replaceSubrange(offset ..< offset + |data|, with: data)`. */
  function Patch(window: seq<byte>, offset: int, data: seq<byte>): seq<byte>
    requires 0 <= offset && offset + |data| <= |window|
  {
    window[..offset] + data + window[offset + |data|..]
  }

  /** The patch puts the new bytes at `offset` and keeps every other byte. */
  lemma PatchOnlyChanges(window: seq<byte>, offset: int, data: seq<byte>)
    requires 0 <= offset && offset + |data| <= |window|
    ensures var p := Patch(window, offset, data);
      |p| == |window| && p[offset .. offset + |data|] == data &&
      forall i :: 0 <= i < |window| && !(offset <= i < offset + |data|) ==> p[i] == window[i]
  {
    var p := Patch(window, offset, data);
    assert p[offset .. offset + |data|] == data;
  }

  /** FRAM starts at raw address 0xF860; the tag numbers its blocks from
      there. */
  const FramAddress := 0xF860

  /** How many 2-block requests cover `blocks` blocks: the rounded-up
      half. */
  function RawWriteRequests(blocks: nat): nat
  {
    (blocks + 1) / 2
  }

  /** The number of blocks in request i: two, but one for the last request
      of an odd block count. */
  function RawWriteCount(blocks: nat, i: int): int
  {
    if i == RawWriteRequests(blocks) - 1 && blocks % 2 == 1 then 1 else 2
  }

  /** Request i as written: it always carries the first one or two blocks
      of the buffer, whatever its block range. */
  function RawWriteRequestAsWritten(startBlock: int, bytes: seq<byte>, i: int): Request
    requires 0 <= i < RawWriteRequests(|bytes| / 8) && |bytes| >= 8
  {
    WriteMultipleBlocks(startBlock - FramAddress / 8 + 2 * i, BlocksFrom(bytes, 0, RawWriteCount(|bytes| / 8, i)))
  }

  /** The block writes of `writeRaw` as the code sends them. */
  function RawWritePlanAsWritten(startBlock: int, bytes: seq<byte>): (plan: seq<Request>)
    ensures |plan| == RawWriteRequests(|bytes| / 8)
  {
    var blocks := |bytes| / 8;
    if blocks == 0 then []
    else seq(RawWriteRequests(blocks), i requires 0 <= i < RawWriteRequests(blocks) => RawWriteRequestAsWritten(startBlock, bytes, i))
  }

  /** Request i carries the blocks of its own range. */
  function RawWriteRequest(startBlock: int, bytes: seq<byte>, i: int): (req: Request)
    requires 0 <= i < RawWriteRequests(|bytes| / 8)
    ensures req.WriteMultipleBlocks? && req.first == startBlock - FramAddress / 8 + 2 * i
    ensures |req.blocks| == RawWriteCount(|bytes| / 8, i)
  {
    WriteMultipleBlocks(startBlock - FramAddress / 8 + 2 * i, BlocksFrom(bytes, 2 * i, RawWriteCount(|bytes| / 8, i)))
  }

  function RawWritePlan(startBlock: int, bytes: seq<byte>): (plan: seq<Request>)
    ensures |plan| == RawWriteRequests(|bytes| / 8)
  {
    var blocks := |bytes| / 8;
    seq(RawWriteRequests(blocks), i requires 0 <= i < RawWriteRequests(blocks) => RawWriteRequest(startBlock, bytes, i))
  }

  /** With 24 distinct bytes at the start of FRAM the second request as
      written writes the first block again, into FRAM block 2, where the
      third block belongs. */
  lemma AsWrittenRepeatsFirstBlock()
    ensures var bytes := seq(24, k requires 0 <= k < 24 => if k < 8 then 0x00 as byte else if k < 16 then 0x11 else 0x22);
      var w := RawWindow(FramAddress, 24);
      w == FramWindow(FramAddress, 0, 3) &&
      RawWritePlanAsWritten(w.address / 8, bytes)[1] == WriteMultipleBlocks(2, [bytes[..8]]) &&
      RawWritePlan(w.address / 8, bytes)[1] == WriteMultipleBlocks(2, [bytes[16..24]]) &&
      bytes[..8] != bytes[16..24]
  {
    var bytes := seq(24, k requires 0 <= k < 24 => if k < 8 then 0x00 as byte else if k < 16 then 0x11 else 0x22);
    assert bytes[0] != bytes[16];
    assert BlocksFrom(bytes, 0, 1) == [bytes[..8]];
    assert BlocksFrom(bytes, 2, 1) == [bytes[16..24]];
  }

  /** As written, request i goes to FRAM blocks `first`, `first + 1`
      counted two per request from the window's first block, but carries
      the bytes of the window's first one or two blocks; it is the
      intended request exactly when those blocks equal its own. */
  lemma AsWrittenPlanShape(startBlock: int, bytes: seq<byte>)
    ensures var plan := RawWritePlanAsWritten(startBlock, bytes);
      var blocks := |bytes| / 8;
      forall k :: 0 <= k < |plan| ==>
        plan[k].WriteMultipleBlocks? && plan[k].first == startBlock - FramAddress / 8 + 2 * k &&
        8 * RawWriteCount(blocks, k) <= |bytes| &&
        Flatten(plan[k].blocks) == bytes[..8 * RawWriteCount(blocks, k)] &&
        (plan[k] == RawWritePlan(startBlock, bytes)[k] <==>
          bytes[..8 * RawWriteCount(blocks, k)] == bytes[16 * k .. 16 * k + 8 * RawWriteCount(blocks, k)])
  {
    forall k | 0 <= k < RawWriteRequests(|bytes| / 8) {
      AsWrittenRequestShape(startBlock, bytes, k);
    }
  }

  /** Request i of the plan as written, against the intended request i. */
  lemma AsWrittenRequestShape(startBlock: int, bytes: seq<byte>, i: int)
    requires 0 <= i < RawWriteRequests(|bytes| / 8)
    ensures var req := RawWritePlanAsWritten(startBlock, bytes)[i];
      var c := RawWriteCount(|bytes| / 8, i);
      req.WriteMultipleBlocks? && req.first == startBlock - FramAddress / 8 + 2 * i &&
      8 * c <= |bytes| && 16 * i + 8 * c <= |bytes| &&
      Flatten(req.blocks) == bytes[..8 * c] &&
      (req == RawWritePlan(startBlock, bytes)[i] <==> bytes[..8 * c] == bytes[16 * i .. 16 * i + 8 * c])
  {
    var c := RawWriteCount(|bytes| / 8, i);
    assert RawWritePlanAsWritten(startBlock, bytes)[i] == WriteMultipleBlocks(startBlock - FramAddress / 8 + 2 * i, BlocksFrom(bytes, 0, c));
    assert RawWritePlan(startBlock, bytes)[i] == WriteMultipleBlocks(startBlock - FramAddress / 8 + 2 * i, BlocksFrom(bytes, 2 * i, c));
    FlattenBlocks(bytes, 0, c);
    BlocksAgree(bytes, 0, 2 * i, c);
  }

  /** Two runs of blocks are equal exactly when their bytes are. */
  lemma BlocksAgree(data: seq<byte>, a: nat, b: nat, n: nat)
    requires 8 * (a + n) <= |data| && 8 * (b + n) <= |data|
    ensures BlocksFrom(data, a, n) == BlocksFrom(data, b, n) <==> data[8 * a .. 8 * (a + n)] == data[8 * b .. 8 * (b + n)]
  {
    if BlocksFrom(data, a, n) == BlocksFrom(data, b, n) {
      FlattenBlocks(data, a, n);
      FlattenBlocks(data, b, n);
    }
    if data[8 * a .. 8 * (a + n)] == data[8 * b .. 8 * (b + n)] {
      var x, y := BlocksFrom(data, a, n), BlocksFrom(data, b, n);
      forall m | 0 <= m < n
        ensures x[m] == y[m]
      {
        SameBlock(data, a, b, n, m);
      }
      assert x == y;
    }
  }

  /** Block m of two equal runs of bytes. */
  lemma SameBlock(data: seq<byte>, a: nat, b: nat, n: nat, m: nat)
    requires 8 * (a + n) <= |data| && 8 * (b + n) <= |data| && m < n
    requires data[8 * a .. 8 * (a + n)] == data[8 * b .. 8 * (b + n)]
    ensures BlockAt(data, a + m) == BlockAt(data, b + m)
  {
    var u := data[8 * a .. 8 * (a + n)];
    assert BlockAt(data, a + m) == u[8 * m .. 8 * m + 8];
    assert BlockAt(data, b + m) == data[8 * b .. 8 * (b + n)][8 * m .. 8 * m + 8];
  }

  /** Up to two blocks the code as written sends the intended request. */
  lemma AsWrittenAgreesUpToTwoBlocks(startBlock: int, bytes: seq<byte>)
    requires |bytes| < 24
    ensures RawWritePlanAsWritten(startBlock, bytes) == RawWritePlan(startBlock, bytes)
  {
  }

  lemma {:induction false} RawWritePlanFrom(startBlock: int, bytes: seq<byte>, i: nat)
    requires 0 <= i <= RawWriteRequests(|bytes| / 8)
    ensures Written(RawWritePlan(startBlock, bytes)[i..]) == bytes[RawWriteFrom(|bytes| / 8, i) .. 8 * (|bytes| / 8)]
    decreases RawWriteRequests(|bytes| / 8) - i
  {
    var blocks := |bytes| / 8;
    if i < RawWriteRequests(blocks) {
      RawWritePlanFrom(startBlock, bytes, i + 1);
      RawWritePlanStep(startBlock, bytes, i);
      var a, b := RawWriteFrom(blocks, i), RawWriteFrom(blocks, i + 1);
      assert bytes[a .. 8 * blocks] == bytes[a .. b] + bytes[b .. 8 * blocks];
    } else {
      assert RawWritePlan(startBlock, bytes)[i..] == [];
      assert RawWriteFrom(blocks, i) == 8 * blocks;
    }
  }

  /** Request i writes the bytes from where it starts to where the next
      one does. */
  lemma RawWritePlanStep(startBlock: int, bytes: seq<byte>, i: nat)
    requires i < RawWriteRequests(|bytes| / 8)
    ensures var plan := RawWritePlan(startBlock, bytes);
      var blocks := |bytes| / 8;
      RawWriteFrom(blocks, i) <= RawWriteFrom(blocks, i + 1) &&
      Written(plan[i..]) == bytes[RawWriteFrom(blocks, i) .. RawWriteFrom(blocks, i + 1)] + Written(plan[i + 1..])
  {
    var plan := RawWritePlan(startBlock, bytes);
    assert plan[i..][0] == plan[i] == RawWriteRequest(startBlock, bytes, i);
    assert plan[i..][1..] == plan[i + 1..];
    RawWriteRequestBytes(startBlock, bytes, i);
  }

  /** The blocks of request i flatten to its range of the bytes. */
  lemma RawWriteRequestBytes(startBlock: int, bytes: seq<byte>, i: nat)
    requires i < RawWriteRequests(|bytes| / 8)
    ensures var blocks := |bytes| / 8;
      RawWriteFrom(blocks, i) <= RawWriteFrom(blocks, i + 1) &&
      Flatten(RawWriteRequest(startBlock, bytes, i).blocks) == bytes[RawWriteFrom(blocks, i) .. RawWriteFrom(blocks, i + 1)]
  {
    var blocks := |bytes| / 8;
    var c := RawWriteCount(blocks, i);
    FlattenBlocks(bytes, 2 * i, c);
    assert RawWriteFrom(blocks, i) == 16 * i;
    assert RawWriteFrom(blocks, i + 1) == 16 * i + 8 * c;
  }

  /** Where the bytes of request i start, or the end for i past the last. */
  function RawWriteFrom(blocks: nat, i: nat): (n: nat)
    ensures n <= 8 * blocks
  {
    if 2 * i < blocks then 16 * i else 8 * blocks
  }

  /** The intended requests write the whole blocks of the patched window,
      in order, two FRAM blocks per request from the window's first block. */
  lemma RawWritePlanCovers(startBlock: int, bytes: seq<byte>)
    ensures var plan := RawWritePlan(startBlock, bytes);
      Written(plan) == bytes[..8 * (|bytes| / 8)] &&
      forall k :: 0 <= k < |plan| ==> plan[k].first == startBlock - FramAddress / 8 + 2 * k
  {
    RawWritePlanFrom(startBlock, bytes, 0);
    assert RawWritePlan(startBlock, bytes)[0..] == RawWritePlan(startBlock, bytes);
  }

  /** Sending requests in order until one fails. */
  function SendAll(tag: Tag, history: seq<Request>, sent: seq<Request>, reqs: seq<Request>): (r: (bool, seq<Request>))
    decreases |reqs|
  {
    if reqs == [] then (true, sent)
    else if tag(history + sent + [reqs[0]]).Failed? then (false, sent + [reqs[0]])
    else SendAll(tag, history, sent + [reqs[0]], reqs[1..])
  }

  /** One request of SendAll, from the i-th on. */
  lemma SendAllStep(tag: Tag, history: seq<Request>, sent: seq<Request>, reqs: seq<Request>, i: int)
    requires 0 <= i < |reqs|
    ensures SendAll(tag, history, sent, reqs[i..]) ==
      if tag(history + sent + [reqs[i]]).Failed? then (false, sent + [reqs[i]])
      else SendAll(tag, history, sent + [reqs[i]], reqs[i + 1..])
  {
    assert reqs[i..][0] == reqs[i];
    assert reqs[i..][1..] == reqs[i + 1..];
  }

  /** SendAll sends a prefix of the requests: all of them when it
      succeeds, up to the first failed one otherwise; every request before
      that one was answered. */
  lemma {:induction false} SendAllPrefix(tag: Tag, history: seq<Request>, sent: seq<Request>, reqs: seq<Request>)
    ensures var r := SendAll(tag, history, sent, reqs);
      r.1 <= sent + reqs && (r.0 ==> r.1 == sent + reqs) &&
      (!r.0 ==> |r.1| > |sent| && tag(history + r.1).Failed?) &&
      forall j :: |sent| <= j < |r.1| && (r.0 || j < |r.1| - 1) ==> ReplyTo(tag, history, r.1, j).Answer?
    decreases |reqs|
  {
    if reqs != [] {
      var req := reqs[0];
      assert sent + reqs == (sent + [req]) + reqs[1..];
      assert history + (sent + [req]) == history + sent + [req];
      assert (sent + [req])[..|sent| + 1] == sent + [req];
      if tag(history + sent + [req]).Answer? {
        SendAllPrefix(tag, history, sent + [req], reqs[1..]);
        var r := SendAll(tag, history, sent + [req], reqs[1..]);
        assert r.1[..|sent| + 1] == sent + [req] by {
          assert sent + [req] <= r.1;
        }
        assert ReplyTo(tag, history, r.1, |sent|) == tag(history + sent + [req]);
      }
    }
  }

  /** What `writeRaw` sends once the window has been read back: for
      addresses in FRAM the block writes as the code builds them; then the
      lock command. A failed write skips the lock. */
  function RawWriteTail(tag: Tag, history: seq<Request>, t: SensorType, address: int,
                        startBlock: int, bytes: seq<byte>, sent: seq<Request>): seq<Request>
  {
    var (ok, sent') := if address >= FramAddress then SendAll(tag, history, sent, RawWritePlanAsWritten(startBlock, bytes)) else (true, sent);
    if ok then sent' + [Custom(LockCommand(t))] else sent'
  }

  /** `writeRaw(_:_:)`: only the Libre 1 can be overwritten; it is
      unlocked, the window around the address is read back with `readRaw`,
      patched with the new bytes, written back when it lies in FRAM, and
      locked again. Every error after the unlock command is caught and
      ends the call normally. */
  function WriteRawSpec(tag: Tag, history: seq<Request>, t: SensorType, address: int, data: seq<byte>)
    : (Outcome<()>, seq<Request>)
    requires RawAnswersWords(tag)
  {
    if t != Libre1 then (Thrown(CommandNotSupported), [])
    else
      var unlock := Custom(UnlockCommand(t));
      if tag(history + [unlock]).Failed? then (Done(()), [unlock])
      else
        var w := RawWindow(address, |data|);
        var (read, s1) := RawReadSpec(tag, history + [unlock], t, w.address, w.blocks * 8);
        var sent := [unlock] + s1;
        if read.Trapped? then (Trapped, sent)
        else if read.Thrown? then (Done(()), sent)
        else if !(0 <= w.offset && w.offset + |data| <= |read.value|) then (Trapped, sent)
        else (Done(()), RawWriteTail(tag, history, t, address, TruncDiv(w.address, 8), Patch(read.value, w.offset, data), sent))
  }

  method WriteRaw(tag: Tag, history: seq<Request>, t: SensorType, address: int, data: seq<byte>)
    returns (result: Outcome<()>, sent: seq<Request>)
    requires RawAnswersWords(tag)
    ensures (result, sent) == WriteRawSpec(tag, history, t, address, data)
  {
    if t != Libre1 {
      return Thrown(CommandNotSupported), [];
    }
    var unlock := Custom(UnlockCommand(t));
    sent := [unlock];
    if tag(history + [unlock]).Failed? {
      return Done(()), sent;
    }
    var addressToRead := TruncDiv(address, 8) * 8;
    var startOffset := TruncMod(address, 8);
    var endAddressToRead := TruncDiv(address + |data| - 1, 8) * 8 + 7;
    var blocksToRead := TruncDiv(endAddressToRead - addressToRead, 8) + 1;
    ghost var w := RawWindow(address, |data|);
    assert addressToRead == w.address && startOffset == w.offset && blocksToRead == w.blocks;
    var read, s1 := ReadRaw(tag, history + [unlock], t, addressToRead, blocksToRead * 8);
    sent := sent + s1;
    if read.Trapped? {
      return Trapped, sent;
    } else if read.Thrown? {
      return Done(()), sent;
    }
    if !(0 <= startOffset && startOffset + |data| <= |read.value|) {
      return Trapped, sent;
    }
    var bytesToWrite := read.value[..startOffset] + data + read.value[startOffset + |data|..];
    assert bytesToWrite == Patch(read.value, startOffset, data);
    sent := WriteBack(tag, history, t, address, TruncDiv(addressToRead, 8), bytesToWrite, sent);
    result := Done(());
  }

  /** The block writes and the lock command of `writeRaw`. */
  method WriteBack(tag: Tag, history: seq<Request>, t: SensorType, address: int,
                   startBlock: int, bytesToWrite: seq<byte>, sent0: seq<Request>)
    returns (sent: seq<Request>)
    ensures sent == RawWriteTail(tag, history, t, address, startBlock, bytesToWrite, sent0)
  {
    sent := sent0;
    var blocks := |bytesToWrite| / 8;
    if address >= FramAddress {
      var blocksToWrite: seq<seq<byte>> := [];
      for i := 0 to blocks
        invariant blocksToWrite == BlocksFrom(bytesToWrite, 0, i)
      {
        blocksToWrite := blocksToWrite + [bytesToWrite[i * 8 .. i * 8 + 8]];
      }
      var plan := RawWritePlanAsWritten(startBlock, bytesToWrite);
      var requests := (blocks + 1) / 2;
      for i := 0 to requests
        invariant SendAll(tag, history, sent, plan[i..]) == SendAll(tag, history, sent0, plan)
      {
        var startIndex := startBlock - FramAddress / 8 + i * 2;
        var count := if i == requests - 1 && blocks % 2 == 1 then 1 else 2;
        var endIndex := startIndex + count - 1;
        assert count == RawWriteCount(blocks, i);
        RawWriteBlocksSliceAsWritten(startBlock, bytesToWrite, i);
        // the blocks `j - startIndex` for j in startIndex ... endIndex
        var req := WriteMultipleBlocks(startIndex, blocksToWrite[startIndex - startIndex .. endIndex + 1 - startIndex]);
        assert req == plan[i];
        SendAllStep(tag, history, sent, plan, i);
        assert history + (sent + [req]) == history + sent + [req];
        sent := sent + [req];
        if tag(history + sent).Failed? {
          return;
        }
      }
    }
    sent := sent + [Custom(LockCommand(t))];
  }

  /** The blocks of request i as written, cut from the list of all
      blocks: always its first ones. */
  lemma RawWriteBlocksSliceAsWritten(startBlock: int, bytes: seq<byte>, i: int)
    requires 0 <= i < RawWriteRequests(|bytes| / 8)
    ensures var blocks := |bytes| / 8;
      var count := RawWriteCount(blocks, i);
      count <= blocks &&
      BlocksFrom(bytes, 0, blocks)[0 .. count] == RawWritePlanAsWritten(startBlock, bytes)[i].blocks
  {
  }

  /** The blocks of request i, cut from the list of all blocks. */
  lemma RawWriteBlocksSlice(startBlock: int, bytes: seq<byte>, i: int)
    requires 0 <= i < RawWriteRequests(|bytes| / 8)
    ensures var blocks := |bytes| / 8;
      var count := RawWriteCount(blocks, i);
      2 * i + count <= blocks &&
      BlocksFrom(bytes, 0, blocks)[2 * i .. 2 * i + count] == RawWriteRequest(startBlock, bytes, i).blocks
  {
  }

  /** A tag that answers every request. */
  ghost predicate AnswersAll(tag: Tag)
  {
    forall h: seq<Request> :: tag(h).Answer?
  }

  /** With exact answers a raw read that stays inside the 64 KiB address
      space never traps, and it completes when the tag answers every
      request. */
  lemma {:induction false} RawLoopCompletes(tag: Tag, history: seq<Request>, t: SensorType, address: int, bytes: int,
                                            buffer: seq<byte>, remaining: int, sent: seq<Request>)
    requires RawAnswersWords(tag) && RawAnswersExactly(tag)
    requires 0 <= address && address + bytes <= 0x10000 && |buffer| == bytes - remaining && remaining >= 0
    ensures var r := RawLoop(tag, history, t, address, buffer, remaining, sent);
      !r.0.Trapped? && (AnswersAll(tag) ==> r.0.Done?)
    decreases remaining
  {
    if remaining > 0 {
      var req := RawRequest(t, address + |buffer|, remaining);
      var reply := tag(history + sent + [req]);
      var round := RawRoundOf(address + |buffer|, RawWanted(remaining), reply);
      RawStep(tag, history, t, address, buffer, remaining, sent);
      if reply.Answer? {
        RawExactAppends(tag, history + sent, t, address + |buffer|, remaining);
        assert history + sent + [req] == (history + sent) + [req];
        RawLoopCompletes(tag, history, t, address, bytes, buffer + round.got, remaining - |round.got|, sent + [req]);
      }
    }
  }

  /** `writeRaw` throws only for sensors other than the Libre 1, before
      sending anything; for the Libre 1 it starts with the unlock command. */
  lemma WriteRawThrows(tag: Tag, history: seq<Request>, t: SensorType, address: int, data: seq<byte>)
    requires RawAnswersWords(tag)
    ensures var r := WriteRawSpec(tag, history, t, address, data);
      (r.0.Thrown? <==> t != Libre1) && (r.0.Thrown? ==> r == (Thrown(CommandNotSupported), [])) &&
      (t == Libre1 ==> |r.1| >= 1 && r.1[0] == Custom(UnlockCommand(Libre1)))
  {
    if t == Libre1 && tag(history + [Custom(UnlockCommand(Libre1))]).Answer? {
      var w := RawWindow(address, |data|);
      var (read, s1) := RawReadSpec(tag, history + [Custom(UnlockCommand(t))], t, w.address, w.blocks * 8);
      if read.Done? && 0 <= w.offset && w.offset + |data| <= |read.value| {
        var bytes := Patch(read.value, w.offset, data);
        if address >= FramAddress {
          SendAllPrefix(tag, history, [Custom(UnlockCommand(t))] + s1, RawWritePlanAsWritten(TruncDiv(w.address, 8), bytes));
        }
      }
    }
  }

  /** With exact answers, `writeRaw` of at least one byte inside the
      64 KiB address space never traps. */
  lemma WriteRawNoTrap(tag: Tag, history: seq<Request>, t: SensorType, address: int, data: seq<byte>)
    requires RawAnswersWords(tag) && RawAnswersExactly(tag)
    requires 0 <= address && address + |data| <= 0x10000 && |data| >= 1
    ensures !WriteRawSpec(tag, history, t, address, data).0.Trapped?
  {
    if t == Libre1 {
      var w := RawWindow(address, |data|);
      RawWindowCovers(address, |data|);
      RawLoopCompletes(tag, history + [Custom(UnlockCommand(t))], t, w.address, w.blocks * 8, [], w.blocks * 8, []);
      RawReadLength(tag, history + [Custom(UnlockCommand(t))], t, w.address, w.blocks * 8);
    }
  }

  /** When the tag answers everything, `writeRaw` into FRAM completes and
      ends with the lock command. Between the raw reads and the lock it
      sends one request per two blocks of the patched window, addressed
      two FRAM blocks apart from the window's first block, each carrying
      the window's first one or two blocks. Below three blocks these are
      the whole window with the new bytes at their offset. */
  lemma WriteRawWritesWindow(tag: Tag, history: seq<Request>, address: int, data: seq<byte>)
    requires RawAnswersWords(tag) && RawAnswersExactly(tag) && AnswersAll(tag)
    requires FramAddress <= address && address + |data| <= 0x10000 && |data| >= 1
    ensures var r := WriteRawSpec(tag, history, Libre1, address, data);
      var w := RawWindow(address, |data|);
      var (read, s1) := RawReadSpec(tag, history + [Custom(UnlockCommand(Libre1))], Libre1, w.address, w.blocks * 8);
      r.0 == Done(()) && read.Done? && |read.value| == 8 * w.blocks &&
      2 + |s1| <= |r.1| && r.1[|r.1| - 1] == Custom(LockCommand(Libre1)) &&
      var bytes := Patch(read.value, w.offset, data);
      var writes := r.1[1 + |s1| .. |r.1| - 1];
      0 <= w.offset && w.offset + |data| <= |bytes| && bytes[w.offset .. w.offset + |data|] == data &&
      writes == RawWritePlanAsWritten(w.address / 8, bytes) && |writes| == (w.blocks + 1) / 2 &&
      (forall k :: 0 <= k < |writes| ==>
        writes[k].WriteMultipleBlocks? && writes[k].first == w.address / 8 - FramAddress / 8 + 2 * k &&
        8 * RawWriteCount(w.blocks, k) <= |bytes| &&
        Flatten(writes[k].blocks) == bytes[..8 * RawWriteCount(w.blocks, k)]) &&
      (w.blocks < 3 ==> Written(writes) == bytes)
  {
    var t := Libre1;
    var unlock := Custom(UnlockCommand(t));
    var w := RawWindow(address, |data|);
    RawWindowCovers(address, |data|);
    RawLoopCompletes(tag, history + [unlock], t, w.address, w.blocks * 8, [], w.blocks * 8, []);
    RawReadLength(tag, history + [unlock], t, w.address, w.blocks * 8);
    var (read, s1) := RawReadSpec(tag, history + [unlock], t, w.address, w.blocks * 8);
    assert tag(history + [unlock]).Answer?;
    assert read.Done? && |read.value| == 8 * w.blocks;
    var bytes := Patch(read.value, w.offset, data);
    PatchOnlyChanges(read.value, w.offset, data);
    var startBlock := TruncDiv(w.address, 8);
    TruncMatchesEuclid(w.address, 8);
    var plan := RawWritePlanAsWritten(startBlock, bytes);
    var sent := [unlock] + s1;
    SendAllPrefix(tag, history, sent, plan);
    var sa := SendAll(tag, history, sent, plan);
    assert tag(history + sa.1).Answer?;
    AsWrittenPlanShape(startBlock, bytes);
    assert |bytes| / 8 == w.blocks;
    if w.blocks < 3 {
      AsWrittenAgreesUpToTwoBlocks(startBlock, bytes);
      RawWritePlanCovers(startBlock, bytes);
      assert bytes[..8 * (|bytes| / 8)] == bytes;
    }
    var r := WriteRawSpec(tag, history, t, address, data);
    assert r.1 == sent + plan + [Custom(LockCommand(t))];
    assert r.1[1 + |s1| .. |r.1| - 1] == plan;
  }
}
