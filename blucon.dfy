// The BluCon transmitter of Devices/BluCon.swift: the requests it writes,
// and the request/response state machine of `read` that fills the
// sensor's uid, state, patch info and FRAM.

module BluConDevice {
  import opened Bytes
  import opened SensorTypes
  import opened SensorModel

  /** `BluCon.RequestType`. */
  datatype Request = NoRequest | Ack | Sleep | SensorInfo | FramRequest | Battery | Firmware | PatchUid | PatchInfo

  /** The bytes of a request, as its hex raw value spells them. */
  function RequestBytes(r: Request): seq<byte>
  {
    match r
    case NoRequest => []
    case Ack => [0x81, 0x0a, 0x00]
    case Sleep => [0x01, 0x0c, 0x0e, 0x00]
    case SensorInfo => [0x01, 0x0d, 0x09, 0x00]
    case FramRequest => [0x01, 0x0d, 0x0f, 0x02, 0x00, 0x2b]
    case Battery => [0x01, 0x0d, 0x0a, 0x00]
    case Firmware => [0x01, 0x0d, 0x0b, 0x00]
    case PatchUid => [0x01, 0x0e, 0x00, 0x03, 0x26, 0x01, 0x00]
    case PatchInfo => [0x01, 0x0e, 0x00, 0x03, 0x02, 0xa1, 0x07]
  }

  /** Distinct requests are written as distinct bytes, so the written
      packets tell which requests were made. */
  lemma RequestBytesDistinct(a: Request, b: Request)
    ensures RequestBytes(a) == RequestBytes(b) ==> a == b
  {
  }

  // ----- responses -----

  /** The responses `read` tells apart: exact packets for ack, no sensor,
      timeout and wake-up, and a two-byte prefix for the others. */
  datatype Response =
    | Timeout | NoSensor | Wakeup | SensorInfoReply | AckReply | FirmwareReply | BatteryReply
    | PatchUidInfoReply | MultipleBlocksReply | OtherReply

  const AckPacket: seq<byte> := [0x8b, 0x0a, 0x00]
  const NoSensorPacket: seq<byte> := [0x8b, 0x1a, 0x02, 0x00, 0x0f]
  const TimeoutPacket: seq<byte> := [0x8b, 0x1a, 0x02, 0x00, 0x14]
  const WakeupPacket: seq<byte> := [0xcb, 0x01, 0x00, 0x00]

  predicate HasPrefix(data: seq<byte>, a: byte, b: byte)
  {
    |data| >= 2 && data[0] == a && data[1] == b
  }

  /** The branch `read` takes, in the order it tests them. */
  function ResponseOf(data: seq<byte>): Response
  {
    if data == TimeoutPacket then Timeout
    else if data == NoSensorPacket then NoSensor
    else if data == WakeupPacket then Wakeup
    else if HasPrefix(data, 0x8b, 0xd9) then SensorInfoReply
    else if data == AckPacket then AckReply
    else if HasPrefix(data, 0x8b, 0xdb) then FirmwareReply
    else if HasPrefix(data, 0x8b, 0xda) then BatteryReply
    else if HasPrefix(data, 0x8b, 0x0e) then PatchUidInfoReply
    else if HasPrefix(data, 0x8b, 0xdf) then MultipleBlocksReply
    else OtherReply
  }

  /** The transmitter's side of the state machine: the current request,
      the block buffer and the requests written so far. */
  datatype Machine = Machine(current: Request, buffer: seq<byte>, written: seq<Request>)

  /** `write(request:)`. */
  function Write(m: Machine, r: Request): (n: Machine)
    ensures n.current == r && n.written == m.written + [r] && n.buffer == m.buffer
  {
    m.(current := r, written := m.written + [r])
  }

  /** What a reply needs to read, given the current request: the bytes
      of a sensor info reply (the state is byte 17) and of a battery reply,
      the header of a block reply, and of a patch reply the bytes before
      the patch info (after a patch info request) or before the uid (after
      a patch uid request); after any other request a patch reply is read
      no further than its prefix. */
  predicate Readable(data: seq<byte>, current: Request)
  {
    match ResponseOf(data)
    case SensorInfoReply => |data| >= 18
    case BatteryReply => |data| >= 3
    case PatchUidInfoReply =>
      (current == PatchInfo ==> |data| >= 3) && (current == PatchUid ==> |data| >= 4)
    case MultipleBlocksReply => |data| >= 4
    case _ => true
  }

  /** One reply to the state machine; `active` says whether the sensor is
      active once a sensor info reply has set its state. */
  function Step(m: Machine, data: seq<byte>, active: bool): Machine
    requires Readable(data, m.current)
  {
    if |data| == 0 then m
    else match ResponseOf(data)
      case Timeout => Write(m, Sleep)
      case NoSensor => m
      case Wakeup => Write(m, SensorInfo)
      case SensorInfoReply => Write(m, if active then Ack else Sleep)
      case AckReply => if m.current == Ack then Write(m, Firmware) else m.(current := NoRequest)
      case FirmwareReply => Write(m, Battery)
      case BatteryReply => Write(m, PatchInfo)
      case PatchUidInfoReply => Write(m, FramRequest)
      case MultipleBlocksReply =>
        var b := m.buffer + data[4..];
        if |b| == 344 then Write(m.(buffer := b), Sleep) else m.(buffer := b)
      case OtherReply => m
  }

  /** The requests a step may write, listed reply by reply: the machine
      writes at most one request per reply, and only the request the reply
      calls for. */
  lemma StepWritesAtMostOne(m: Machine, data: seq<byte>, active: bool)
    requires Readable(data, m.current)
    ensures var n := Step(m, data, active);
      (n.written == m.written || (|n.written| == |m.written| + 1 && n.written[..|m.written|] == m.written &&
        n.current == n.written[|m.written|])) &&
      (n.written != m.written ==> n.current != NoRequest)
  {
  }

  /** The happy path: waking up, an active sensor's info, the ack, the
      firmware, battery and patch info replies and the blocks of the FRAM
      write the requests sensorInfo, ack, firmware, battery, patchInfo,
      fram and sleep, in that order, and leave the 344 FRAM bytes in the
      buffer. */
  lemma HappyPath(info: seq<byte>, firmware: seq<byte>, battery: seq<byte>, patch: seq<byte>, blocks: seq<seq<byte>>)
    requires |info| >= 18 && ResponseOf(info) == SensorInfoReply
    requires ResponseOf(firmware) == FirmwareReply
    requires |battery| >= 3 && ResponseOf(battery) == BatteryReply
    requires |patch| >= 3 && ResponseOf(patch) == PatchUidInfoReply
    requires forall k :: 0 <= k < |blocks| ==> |blocks[k]| >= 4 && ResponseOf(blocks[k]) == MultipleBlocksReply
    requires |Payloads(blocks)| == 344
    requires forall k :: 0 <= k < |blocks| ==> |Payloads(blocks[..k])| < 344
    ensures var m0 := Machine(NoRequest, [], []);
      var m1 := Step(m0, WakeupPacket, false);
      var m2 := Step(m1, info, true);
      var m3 := Step(m2, AckPacket, true);
      var m4 := Step(m3, firmware, true);
      var m5 := Step(m4, battery, true);
      var m6 := Step(m5, patch, true);
      var m7 := Blocks(m6, blocks);
      m7.written == [SensorInfo, Ack, Firmware, Battery, PatchInfo, FramRequest, Sleep] &&
      m7.buffer == Payloads(blocks) && m7.current == Sleep
  {
    var m0 := Machine(NoRequest, [], []);
    var m6 := Machine(FramRequest, [], [SensorInfo, Ack, Firmware, Battery, PatchInfo, FramRequest]);
    assert Step(Step(Step(Step(Step(Step(m0, WakeupPacket, false), info, true), AckPacket, true),
      firmware, true), battery, true), patch, true) == m6;
    BlocksFill(m6, blocks);
  }

  /** Block replies fed one at a time. */
  function Blocks(m: Machine, blocks: seq<seq<byte>>): Machine
    requires forall k :: 0 <= k < |blocks| ==> |blocks[k]| >= 4 && ResponseOf(blocks[k]) == MultipleBlocksReply
  {
    if blocks == [] then m
    else
      Step(Blocks(m, blocks[..|blocks| - 1]), blocks[|blocks| - 1], false)
  }

  /** Blocks that reach exactly 344 bytes only at the last one append
      their payloads and write `sleep` once, at the end. */
  lemma {:induction false} BlocksFill(m: Machine, blocks: seq<seq<byte>>)
    requires m.buffer == []
    requires forall k :: 0 <= k < |blocks| ==> |blocks[k]| >= 4 && ResponseOf(blocks[k]) == MultipleBlocksReply
    requires forall k :: 0 <= k < |blocks| ==> |Payloads(blocks[..k])| < 344
    ensures Blocks(m, blocks).buffer == Payloads(blocks)
    ensures |Payloads(blocks)| == 344 ==> Blocks(m, blocks).written == m.written + [Sleep] && Blocks(m, blocks).current == Sleep
    ensures |Payloads(blocks)| != 344 ==> Blocks(m, blocks).written == m.written && Blocks(m, blocks).current == m.current
    decreases |blocks|
  {
    if blocks != [] {
      var init := blocks[..|blocks| - 1];
      forall k | 0 <= k < |init|
        ensures |Payloads(init[..k])| < 344
      {
        assert init[..k] == blocks[..k];
      }
      BlocksFill(m, init);
      assert |Payloads(init)| < 344 by {
        assert blocks[..|blocks| - 1] == init;
      }
    }
  }

  /** `BluCon`, with the fields `read` and `write(request:)` update, the
      sensor it feeds and the packets it writes. */
  class BluCon {
    var currentRequest: Request
    var buffer: seq<byte>
    var battery: int
    var firmware: seq<byte>
    var written: seq<Request>
    var sensor: Sensor?

    constructor ()
      ensures currentRequest == NoRequest && buffer == [] && battery == -1 && firmware == []
      ensures written == [] && sensor == null
    {
      currentRequest := NoRequest;
      buffer := [];
      battery := -1;
      firmware := [];
      written := [];
      sensor := null;
    }

    function State(): Machine
      reads this
    {
      Machine(currentRequest, buffer, written)
    }

    /** `write(request:)`: the packet goes out and the request becomes the
        current one. */
    method WriteRequest(r: Request)
      modifies this`currentRequest, this`written
      ensures State() == Write(old(State()), r)
    {
      written := written + [r];
      currentRequest := r;
    }

    /** A sensor info reply: the uid is bytes 3-10 and byte 17 the state
        when it names one; an active sensor is acknowledged, any other put
        to sleep. */
    method ReadSensorInfo(data: seq<byte>)
      requires sensor != null && |data| >= 18
      modifies this`currentRequest, this`written, sensor
      ensures sensor.uid == data[3..11]
      ensures sensor.state == match StateOf(data[17]) case Some(s) => s case None => old(sensor.state)
      ensures State() == Write(old(State()), if sensor.state == Active then Ack else Sleep)
    {
      sensor.SetUid(data[3..11]);
      var sensorState := StateOf(data[17]);
      if sensorState.Some? {
        sensor.state := sensorState.value;
      }
      if sensor.state == Active {
        WriteRequest(Ack);
      } else {
        WriteRequest(Sleep);
      }
    }

    /** A patch uid/info reply: the patch info from byte 3 after a patch
        info request, the uid from byte 4 after a patch uid request; the
        FRAM is requested either way. */
    method ReadPatchUidInfo(data: seq<byte>)
      requires sensor != null && |data| >= 2
      requires currentRequest == PatchInfo ==> |data| >= 3 && (|data| > 3 && data[3] == 0x76 ==> |data| >= 7)
      requires currentRequest == PatchUid ==> |data| >= 4
      modifies this`currentRequest, this`written, sensor
      ensures old(currentRequest) == PatchInfo ==> sensor.patchInfo == data[3..]
      ensures old(currentRequest) == PatchUid ==> sensor.uid == data[4..]
      ensures old(currentRequest) != PatchInfo && old(currentRequest) != PatchUid ==> unchanged(sensor)
      ensures State() == Write(old(State()), FramRequest)
    {
      if currentRequest == PatchInfo {
        sensor.SetPatchInfo(data[3..]);
      } else if currentRequest == PatchUid {
        sensor.SetUid(data[4..]);
      }
      WriteRequest(FramRequest);
    }

    /** A block reply: its payload is buffered, and at exactly 344 bytes
        `sleep` is written and the buffer becomes the sensor's FRAM (and is
        parsed). */
    method ReadBlocks(data: seq<byte>)
      requires sensor != null && |data| >= 4
      requires |buffer + data[4..]| == 344 ==>
        (sensor.isPro ==> ProParseSafe(buffer + data[4..])) &&
        (!sensor.isPro ==> FramAssignable(sensor.sensorType, sensor.uid, sensor.patchInfo, buffer + data[4..]))
      modifies this`buffer, this`currentRequest, this`written, sensor
      ensures buffer == old(buffer) + data[4..]
      ensures |buffer| != 344 ==> State() == old(State()).(buffer := buffer) && unchanged(sensor)
      ensures |buffer| == 344 ==>
        State() == Write(old(State()).(buffer := buffer), Sleep)
      ensures |buffer| == 344 && sensor.isPro ==> sensor.fram == buffer
      ensures |buffer| == 344 && !sensor.isPro ==>
        sensor.Snapshot() == FramParseAsWritten(old(sensor.sensorType), old(sensor.uid), old(sensor.patchInfo), buffer, old(sensor.Results()))
    {
      buffer := buffer + data[4..];
      if |buffer| == 344 {
        WriteRequest(Sleep);
        sensor.SetFram(buffer);
      }
    }

    /** What the sensor needs to parse the FRAM a block reply completes. */
    predicate AcceptsFram(data: seq<byte>)
      reads this, sensor
      requires |data| >= 4
    {
      |buffer + data[4..]| == 344 ==>
        (if sensor == null then FramAssignable(Unknown, [], [], buffer + data[4..])
         else ((sensor.isPro ==> ProParseSafe(buffer + data[4..])) &&
               (!sensor.isPro ==> FramAssignable(sensor.sensorType, sensor.uid, sensor.patchInfo, buffer + data[4..]))))
    }

    /** `read(_:for:)`: an empty packet is ignored; timeout, no sensor and
        wake-up are answered without a sensor, every other reply makes
        one when there is none. The transmitter's side follows `Step`,
        with the sensor's state after the reply deciding the answer to a
        sensor info. */
    method Read(data: seq<byte>)
      requires Readable(data, currentRequest)
      requires ResponseOf(data) == PatchUidInfoReply && currentRequest == PatchInfo && |data| > 3 && data[3] == 0x76 ==> |data| >= 7
      requires ResponseOf(data) == MultipleBlocksReply ==> AcceptsFram(data)
      modifies this, sensor
      ensures State() == Step(old(State()), data, sensor != null && sensor.state == Active)
      ensures var r := ResponseOf(data);
        (|data| == 0 || r == Timeout || r == NoSensor || r == Wakeup ==>
          sensor == old(sensor) && (sensor != null ==> unchanged(sensor))) &&
        (|data| > 0 && r != Timeout && r != NoSensor && r != Wakeup ==>
          sensor != null && (old(sensor) != null ==> sensor == old(sensor))) &&
        (r == SensorInfoReply ==>
          sensor.uid == data[3..11] && (StateOf(data[17]).Some? ==> sensor.state == StateOf(data[17]).value)) &&
        (r == PatchUidInfoReply && old(currentRequest) == PatchInfo ==> sensor.patchInfo == data[3..]) &&
        (r == PatchUidInfoReply && old(currentRequest) == PatchUid ==> sensor.uid == data[4..])
    {
      if |data| == 0 {
        return;
      }
      var response := ResponseOf(data);
      if response == Timeout {
        WriteRequest(Sleep);
      } else if response == NoSensor {
      } else if response == Wakeup {
        WriteRequest(SensorInfo);
      } else {
        if sensor == null {
          sensor := new Sensor(false);
        }
        ReadSensorReply(data, response);
      }
    }

    /** The replies `read` handles once there is a sensor. */
    method ReadSensorReply(data: seq<byte>, response: Response)
      requires sensor != null && |data| > 0 && Readable(data, currentRequest) && response == ResponseOf(data)
      requires response != Timeout && response != NoSensor && response != Wakeup
      requires response == PatchUidInfoReply && currentRequest == PatchInfo && |data| > 3 && data[3] == 0x76 ==> |data| >= 7
      requires response == MultipleBlocksReply ==> AcceptsFram(data)
      modifies this`buffer, this`currentRequest, this`written, this`firmware, this`battery, sensor
      ensures State() == Step(old(State()), data, sensor.state == Active)
      ensures response == SensorInfoReply ==>
        sensor.uid == data[3..11] && (StateOf(data[17]).Some? ==> sensor.state == StateOf(data[17]).value)
      ensures response == PatchUidInfoReply && old(currentRequest) == PatchInfo ==> sensor.patchInfo == data[3..]
      ensures response == PatchUidInfoReply && old(currentRequest) == PatchUid ==> sensor.uid == data[4..]
    {
      if response == SensorInfoReply {
        ReadSensorInfo(data);
      } else if response == AckReply {
        if currentRequest == Ack {
          WriteRequest(Firmware);
        } else {
          currentRequest := NoRequest;
        }
      } else if response == FirmwareReply {
        firmware := data[2..];
        WriteRequest(Battery);
      } else if response == BatteryReply {
        if data[2] == 0xaa {
        } else if data[2] == 0x02 {
          battery := 5;
        }
        WriteRequest(PatchInfo);
      } else if response == PatchUidInfoReply {
        ReadPatchUidInfo(data);
      } else if response == MultipleBlocksReply {
        ReadBlocks(data);
      }
    }
  }
}
