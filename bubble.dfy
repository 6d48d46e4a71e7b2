// The Bubble transmitter of Devices/Bubble.swift: its read command, the
// advertisement, and the response dispatch of `read` that fills the
// sensor's uid, patch info and FRAM.

module BubbleDevice {
  import opened Bytes
  import opened SensorTypes
  import opened SensorModel

  /** `readCommand(interval:)`: `UInt8(interval)` traps outside a byte. */
  function ReadCommand(interval: int): (r: seq<byte>)
    requires 0 <= interval < 256
    ensures |r| == 3 && r[0] == 0 && r[1] == 0 && r[2] as int == interval
  {
    ByteOfNat(interval);
    [0x00, 0x00, interval as byte]
  }

  // ----- firmware versions -----

  /** A version string "major.minor" printed from two bytes. */
  datatype Version = Version(major: byte, minor: byte)

  function Digits(n: nat): (d: nat)
    ensures d >= 1
  {
    if n < 10 then 1 else 1 + Digits(n / 10)
  }

  /** The value `Double` reads from "major.minor", times 10^Digits(minor):
      the minor bytes are printed in decimal after the point, so "2.10"
      reads as 2.1. */
  function Scaled(v: Version): nat
  {
    v.major as nat * Pow(10, Digits(v.minor as nat)) + v.minor as nat
  }

  /** `Double(firmware)! >= 2.6`. */
  predicate AtLeast26(v: Version)
  {
    10 * Scaled(v) >= 26 * Pow(10, Digits(v.minor as nat))
  }

  /** `Double(firmware)! < 1.35`. */
  predicate Below135(v: Version)
  {
    100 * Scaled(v) < 135 * Pow(10, Digits(v.minor as nat))
  }

  /** Versions compare as decimal numbers, not as pairs: 2.10 is below 2.6
      and 1.4 is not below 1.35. */
  lemma VersionComparisons()
    ensures AtLeast26(Version(2, 6)) && AtLeast26(Version(3, 0)) && !AtLeast26(Version(2, 5))
    ensures !AtLeast26(Version(2, 10)) && AtLeast26(Version(2, 60))
    ensures Below135(Version(1, 3)) && !Below135(Version(1, 35)) && !Below135(Version(1, 4))
    ensures Below135(Version(0, 99))
  {
    assert Digits(10) == 2 && Digits(60) == 2 && Digits(35) == 2 && Digits(99) == 2;
  }

  // ----- responses -----

  /** `Bubble.ResponseType`, from the first byte. */
  datatype Response = DataInfo | DataPacket | DecryptedDataPacket | SecurityChallenge | NoSensor
                    | SerialNumber | PatchInfo | UnknownResponse

  function ResponseOf(b: byte): Response
  {
    if b == 0x80 then DataInfo
    else if b == 0x82 then DataPacket
    else if b == 0x88 then DecryptedDataPacket
    else if b == 0x8A then SecurityChallenge
    else if b == 0xBF then NoSensor
    else if b == 0xC0 then SerialNumber
    else if b == 0xC1 then PatchInfo
    else UnknownResponse
  }

  const Libre2StartCommand: seq<byte> := [0x08, 0x01, 0x00, 0x00, 0x00, 0x2B]
  const StartCommand: seq<byte> := [0x02, 0x01, 0x00, 0x00, 0x00, 0x2B]

  /** The type of the stored patch info, unknown when there is none. */
  function StoredType(storedPatchInfo: seq<byte>): SensorType
    requires |storedPatchInfo| > 0 && storedPatchInfo[0] == 0x76 ==> |storedPatchInfo| >= 4
  {
    if |storedPatchInfo| > 0 then TypeOf(storedPatchInfo) else Unknown
  }

  /** The command written after a data info: the Libre 2 start command
      from firmware 2.6 on for a Libre 2 or a Libre US 14-day, otherwise
      the plain one. */
  function StartCommandFor(firmware: Version, t: SensorType): (c: seq<byte>)
    ensures c == Libre2StartCommand <==> AtLeast26(firmware) && (t == Libre2 || t == LibreUS14day)
    ensures c == StartCommand <==> !(AtLeast26(firmware) && (t == Libre2 || t == LibreUS14day))
  {
    if AtLeast26(firmware) && (t == Libre2 || t == LibreUS14day) then Libre2StartCommand else StartCommand
  }

  /** The 6 patch-info bytes of a patch-info response. */
  function PatchInfoBytes(firmware: Version, data: seq<byte>): (r: seq<byte>)
    requires |data| >= (if Below135(firmware) then 9 else 11)
    ensures |r| == 6 && r == if Below135(firmware) then data[3..9] else data[5..11]
  {
    if Below135(firmware) then data[3..9] else data[5..11]
  }

  /** The security-challenge buffer: an empty one takes the packet after
      byte 5, one of 15 bytes the packet after byte 4, any other is kept;
      28 bytes complete the challenge, and the buffer is emptied. */
  function ChallengeBuffer(buffer: seq<byte>, data: seq<byte>): (r: seq<byte>)
    requires |buffer| == 0 ==> |data| >= 5
    requires |buffer| == 15 ==> |data| >= 4
  {
    var b := if |buffer| == 0 then data[5..] else if |buffer| == 15 then buffer + data[4..] else buffer;
    if |b| == 28 then [] else b
  }

  /** The two packets of a challenge, of 20 and 17 bytes, leave 15 bytes
      and then complete the 28 bytes, which empties the buffer. */
  lemma ChallengeReassembly(p: seq<byte>, q: seq<byte>)
    requires |p| == 20 && |q| == 17
    ensures ChallengeBuffer([], p) == p[5..] && |ChallengeBuffer([], p)| == 15
    ensures ChallengeBuffer(ChallengeBuffer([], p), q) == []
    ensures |p[5..] + q[4..]| == 28
  {
  }

  /** A buffer that is neither empty nor 15 bytes long is not touched by a
      security challenge unless it is exactly 28 bytes, which cannot be
      reached without it. */
  lemma ChallengeKeepsOthers(buffer: seq<byte>, data: seq<byte>)
    requires |buffer| != 0 && |buffer| != 15 && |buffer| != 28
    ensures ChallengeBuffer(buffer, data) == buffer
  {
  }

  /** The buffer after data packets, one at a time. */
  function Buffered(buffer: seq<byte>, packets: seq<seq<byte>>): seq<byte>
    requires forall k :: 0 <= k < |packets| ==> |packets[k]| >= 4
    decreases |packets|
  {
    if packets == [] then buffer else Buffered(buffer + packets[0][4..], packets[1..])
  }

  /** Starting from a buffer, the data packets leave it followed by their
      payloads. */
  lemma {:induction false} BufferedPayloads(buffer: seq<byte>, packets: seq<seq<byte>>)
    requires forall k :: 0 <= k < |packets| ==> |packets[k]| >= 4
    ensures Buffered(buffer, packets) == buffer + Payloads(packets)
    decreases |packets|
  {
    if packets != [] {
      var rest := packets[1..];
      BufferedPayloads(buffer + packets[0][4..], rest);
      PayloadsCons(packets);
    }
  }

  /** Once the buffer holds 344 bytes, further packets do not change the
      FRAM image taken from it. */
  lemma FramImageStable(buffer: seq<byte>, data: seq<byte>)
    requires |buffer| >= 344 && |data| >= 4
    ensures (buffer + data[4..])[..344] == buffer[..344]
  {
  }

  /** What the sensor needs to parse a FRAM image: the decryption's inputs
      and every byte the parse reads, in the layout of the sensor. */
  predicate Accepts(s: Sensor?, image: seq<byte>)
    reads s
  {
    if s == null then FramAssignable(Unknown, [], [], image)
    else (s.isPro ==> ProParseSafe(image)) && (!s.isPro ==> FramAssignable(s.sensorType, s.uid, s.patchInfo, image))
  }

  /** `Bubble`, with the fields its `read` and `parseManufacturerData`
      update, the sensor it feeds and the packets it writes. */
  class Bubble {
    var battery: int
    var firmware: Option<Version>
    var hardware: Option<Version>
    var macAddress: seq<byte>
    var buffer: seq<byte>
    var writes: seq<seq<byte>>
    var sensor: Sensor?

    constructor ()
      ensures battery == -1 && firmware == None && hardware == None && macAddress == []
      ensures buffer == [] && writes == [] && sensor == null
    {
      battery := -1;
      firmware := None;
      hardware := None;
      macAddress := [];
      buffer := [];
      writes := [];
      sensor := null;
    }

    /** `parseManufacturerData`: bytes 8-11 must be there. */
    method ParseManufacturerData(data: seq<byte>)
      requires |data| >= 12
      modifies this`firmware, this`hardware, this`macAddress, this`battery
      ensures firmware == Some(Version(data[8], data[9])) && hardware == Some(Version(data[10], data[11]))
      ensures |macAddress| == 6 && forall k :: 0 <= k < 6 ==> macAddress[k] == data[7 - k]
      ensures battery == if |data| > 12 then data[12] as int else old(battery)
    {
      var transmitterData := data[8..12];
      firmware := Some(Version(transmitterData[0], transmitterData[1]));
      hardware := Some(Version(transmitterData[2], transmitterData[3]));
      var mac := [];
      var k := 7;
      while k >= 2
        invariant 1 <= k <= 7
        invariant |mac| == 7 - k
        invariant forall j :: 0 <= j < |mac| ==> mac[j] == data[7 - j]
      {
        mac := mac + [data[k]];
        k := k - 1;
      }
      macAddress := mac;
      if |data| > 12 {
        battery := data[12] as int;
      }
    }

    /** Everything a response reads is there: the bytes each branch
        indexes, a firmware to compare for the patch info, and what the
        sensor needs once a FRAM image is complete. */
    predicate Readable(data: seq<byte>, storedPatchInfo: seq<byte>)
      reads this, sensor
    {
      |data| >= 1 &&
      match ResponseOf(data[0])
      case DataInfo =>
        |data| >= 5 && (|storedPatchInfo| > 0 && storedPatchInfo[0] == 0x76 ==> |storedPatchInfo| >= 4)
      case SerialNumber => |data| >= 10
      case PatchInfo => firmware.Some? && |data| >= (if Below135(firmware.value) then 9 else 11)
      case SecurityChallenge => (|buffer| == 0 ==> |data| >= 5) && (|buffer| == 15 ==> |data| >= 4)
      case DataPacket => |data| >= 4 && (|buffer + data[4..]| >= 344 ==> Accepts(sensor, (buffer + data[4..])[..344]))
      case DecryptedDataPacket => |data| >= 4 && (|buffer + data[4..]| >= 344 ==> Accepts(sensor, (buffer + data[4..])[..344]))
      case _ => true
    }

    /** A data-info response: battery, firmware and hardware are read, and
        the start command for the stored patch info's type is written. */
    method ReadDataInfo(data: seq<byte>, storedPatchInfo: seq<byte>)
      requires |data| >= 5
      requires |storedPatchInfo| > 0 && storedPatchInfo[0] == 0x76 ==> |storedPatchInfo| >= 4
      modifies this`battery, this`firmware, this`hardware, this`writes
      ensures battery == data[4] as int
      ensures firmware == Some(Version(data[2], data[3])) && hardware == Some(Version(data[|data| - 2], data[|data| - 1]))
      ensures writes == old(writes) + [StartCommandFor(Version(data[2], data[3]), StoredType(storedPatchInfo))]
    {
      battery := data[4] as int;
      var version := Version(data[2], data[3]);
      firmware := Some(version);
      hardware := Some(Version(data[|data| - 2], data[|data| - 1]));
      var libreType := if |storedPatchInfo| > 0 then TypeOf(storedPatchInfo) else Unknown;
      if AtLeast26(version) && (libreType == Libre2 || libreType == LibreUS14day) {
        writes := writes + [Libre2StartCommand];
      } else {
        writes := writes + [StartCommand];
      }
    }

    /** A data packet: its payload is buffered, and from 344 bytes on the
        sensor's FRAM is set to the first 344 (and parsed). */
    method ReadDataPacket(data: seq<byte>)
      requires sensor != null && |data| >= 4
      requires |buffer + data[4..]| >= 344 ==> Accepts(sensor, (buffer + data[4..])[..344])
      modifies this`buffer, sensor
      ensures buffer == old(buffer) + data[4..]
      ensures |buffer| < 344 ==> unchanged(sensor)
      ensures |buffer| >= 344 && sensor.isPro ==> sensor.fram == buffer[..344]
      ensures |buffer| >= 344 && !sensor.isPro ==>
        sensor.Snapshot() == FramParseAsWritten(old(sensor.sensorType), old(sensor.uid), old(sensor.patchInfo), buffer[..344], old(sensor.Results()))
    {
      buffer := buffer + data[4..];
      if |buffer| >= 344 {
        var fram := buffer[..344];
        sensor.SetFram(fram);
      }
    }

    /** A response meant for the sensor, once there is one: the uid of a
        serial-number packet, the patch info (placed by the firmware
        version), the security challenge and the data packets. */
    method ReadSensorResponse(data: seq<byte>)
      requires sensor != null && Readable(data, [])
      requires ResponseOf(data[0]) != DataInfo && ResponseOf(data[0]) != NoSensor
      modifies this`buffer, sensor
      ensures var r := ResponseOf(data[0]);
        (r == SerialNumber ==> sensor.uid == data[2..10] && buffer == old(buffer)) &&
        (r == PatchInfo ==> sensor.patchInfo == PatchInfoBytes(firmware.value, data) && buffer == old(buffer)) &&
        (r == SecurityChallenge ==> buffer == ChallengeBuffer(old(buffer), data) && unchanged(sensor)) &&
        ((r == DataPacket || r == DecryptedDataPacket) ==> buffer == old(buffer) + data[4..]) &&
        (r == UnknownResponse ==> buffer == old(buffer) && unchanged(sensor))
    {
      var response := ResponseOf(data[0]);
      if response == SerialNumber {
        sensor.SetUid(data[2..10]);
      } else if response == PatchInfo {
        var info := PatchInfoBytes(firmware.value, data);
        sensor.SetPatchInfo(info);
      } else if response == SecurityChallenge {
        if |buffer| == 0 {
          buffer := buffer + data[5..];
        } else if |buffer| == 15 {
          buffer := buffer + data[4..];
        }
        if |buffer| == 28 {
          buffer := [];
        }
      } else if response == DataPacket || response == DecryptedDataPacket {
        ReadDataPacket(data);
      }
    }

    /** `read(_:for:)`. Every response but data info and no sensor makes a
        sensor when there is none. */
    method Read(data: seq<byte>, storedPatchInfo: seq<byte>)
      requires Readable(data, storedPatchInfo)
      modifies this, sensor
      ensures var r := ResponseOf(data[0]);
        (r == NoSensor ==> unchanged(this) && (sensor != null ==> unchanged(sensor))) &&
        (r != DataInfo && r != NoSensor ==>
          sensor != null && (old(sensor) != null ==> sensor == old(sensor)) &&
          writes == old(writes) && battery == old(battery) && firmware == old(firmware)) &&
        (r == DataInfo ==>
          battery == data[4] as int && firmware == Some(Version(data[2], data[3])) &&
          writes == old(writes) + [StartCommandFor(Version(data[2], data[3]), StoredType(storedPatchInfo))] &&
          buffer == old(buffer) && sensor == old(sensor)) &&
        (r == SerialNumber ==> sensor.uid == data[2..10] && buffer == old(buffer)) &&
        (r == PatchInfo ==> sensor.patchInfo == PatchInfoBytes(old(firmware).value, data) && buffer == old(buffer)) &&
        (r == SecurityChallenge ==> buffer == ChallengeBuffer(old(buffer), data)) &&
        ((r == DataPacket || r == DecryptedDataPacket) ==> buffer == old(buffer) + data[4..]) &&
        (r == UnknownResponse ==> buffer == old(buffer))
    {
      var response := ResponseOf(data[0]);
      if response == NoSensor {
      } else if response == DataInfo {
        ReadDataInfo(data, storedPatchInfo);
      } else {
        if sensor == null {
          sensor := new Sensor(false);
        }
        ReadSensorResponse(data);
      }
    }
  }
}
