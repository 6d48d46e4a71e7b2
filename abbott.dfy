// The Abbott transmitter of Devices/Abbott.swift: the UID in the
// advertisement, the Libre 2 login steps on the login characteristic, the
// 20 + 18 + 8 reassembly of the 46-byte composite packet, and the first
// Libre 3 packet.

module AbbottDevice {
  import opened Bytes
  import opened SensorTypes
  import opened Libre2
  import opened SensorModel
  import opened Libre2Ble

  /** `Abbott.AuthenticationState`. */
  datatype AuthState =
    | NotAuthenticated | EnableNotification | ChallengeResponse | GetSessionInfo | Authenticated | BleLoginState

  function AuthRaw(s: AuthState): int
  {
    match s
    case NotAuthenticated => 0
    case EnableNotification => 1
    case ChallengeResponse => 2
    case GetSessionInfo => 3
    case Authenticated => 4
    case BleLoginState => 5
  }

  /** The characteristics `read` tells apart; every other UUID is ignored. */
  datatype Characteristic = BleLogin | CompositeRawData | Libre3Unknown22CE | OtherCharacteristic

  function CharacteristicOf(uuid: string): Characteristic
  {
    if uuid == "F001" then BleLogin
    else if uuid == "F002" then CompositeRawData
    else if uuid == "089822CE-EF89-11E9-81B4-2A2AE2DBCCE4" then Libre3Unknown22CE
    else OtherCharacteristic
  }

  /** The uid after `parseManufacturerData`: bytes 2-7 of the
      advertisement followed by 07 E0, taken only when byte 7 is A4. */
  function AdvertisedUid(data: seq<byte>, uid: seq<byte>): (r: seq<byte>)
    ensures |data| > 7 && data[7] == 0xA4 ==> |r| == 8 && r[..6] == data[2..8] && r[6..] == [0x07, 0xE0]
    ensures !(|data| > 7 && data[7] == 0xA4) ==> r == uid
  {
    if |data| > 7 && data[7] == 0xA4 then data[2..8] + [0x07, 0xE0] else uid
  }

  // ----- the login characteristic -----

  datatype Login = Login(state: AuthState, sessionInfo: seq<byte>)

  /** One packet on the login characteristic: the 14-byte challenge
      response moves to the session-info step, where a 7-byte packet starts
      the session info and an 18-byte one completes it; every other packet
      and state is ignored. */
  function LoginStep(l: Login, data: seq<byte>): Login
  {
    if l.state == ChallengeResponse then
      (if |data| == 14 then l.(state := GetSessionInfo) else l)
    else if l.state == GetSessionInfo then
      (if |data| == 7 then l.(sessionInfo := data)
       else if |data| == 18 then
         var info := l.sessionInfo + data;
         if |info| == 25 then Login(Authenticated, info) else l.(sessionInfo := info)
       else l)
    else l
  }

  /** The login only moves forward, one state at a time from the challenge
      response to the session info to authenticated, and in any other
      state a packet changes nothing; authentication happens exactly when
      an 18-byte packet brings the session info to 25 bytes. */
  lemma LoginMovesForward(l: Login, data: seq<byte>)
    ensures var n := LoginStep(l, data);
      AuthRaw(n.state) >= AuthRaw(l.state) &&
      (n.state != l.state ==>
        (l.state == ChallengeResponse && n.state == GetSessionInfo && n.sessionInfo == l.sessionInfo) ||
        (l.state == GetSessionInfo && n.state == Authenticated)) &&
      (l.state != ChallengeResponse && l.state != GetSessionInfo ==> n == l) &&
      (n.state == Authenticated && l.state != Authenticated <==>
        l.state == GetSessionInfo && |data| == 18 && |l.sessionInfo| + 18 == 25) &&
      (n.state == Authenticated && l.state != Authenticated ==> n.sessionInfo == l.sessionInfo + data)
  {
  }

  /** The Libre 2 handshake: a challenge response, a 7-byte and then an
      18-byte session info packet authenticate with the two packets as the
      session info, whatever it held before. */
  lemma LoginHandshake(info: seq<byte>, challenge: seq<byte>, first: seq<byte>, second: seq<byte>)
    requires |challenge| == 14 && |first| == 7 && |second| == 18
    ensures LoginStep(LoginStep(LoginStep(Login(ChallengeResponse, info), challenge), first), second)
      == Login(Authenticated, first + second)
  {
  }

  // ----- the composite packet -----

  /** The buffer after appending one packet: a 20-byte packet starts a new
      packet. */
  function Assembled(buffer: seq<byte>, data: seq<byte>): (r: seq<byte>)
    ensures |data| == 20 ==> r == data
    ensures |data| != 20 ==> r == buffer + data
  {
    (if |data| == 20 then [] else buffer) + data
  }

  /** Decryption is tried only on exactly 46 bytes. */
  predicate Decrypts(buffer: seq<byte>, data: seq<byte>)
  {
    |Assembled(buffer, data)| == 46
  }

  /** The buffer after a composite packet: a decryption that fails the CRC
      empties it, otherwise it keeps what was assembled. */
  function CompositeBuffer(buffer: seq<byte>, data: seq<byte>, id: seq<byte>): (r: seq<byte>)
    requires Decrypts(buffer, data) ==> |id| >= 6
    ensures !Decrypts(buffer, data) ==> r == Assembled(buffer, data)
    ensures Decrypts(buffer, data) ==>
      (r == [] <==> !BleCrcOk(BlePlain(id, Assembled(buffer, data)))) &&
      (r != [] ==> r == Assembled(buffer, data))
  {
    var a := Assembled(buffer, data);
    if |a| == 46 && !BleCrcOk(BlePlain(id, a)) then [] else a
  }

  /** The Libre 2's three packets of 20, 18 and 8 bytes: the first two are
      only buffered, and the third completes the 46 bytes that are then
      decrypted, whatever the buffer held before. */
  lemma CompositeReassembly(buffer: seq<byte>, id: seq<byte>, p: seq<byte>, q: seq<byte>, r: seq<byte>)
    requires |p| == 20 && |q| == 18 && |r| == 8 && |id| >= 6
    ensures var b1 := CompositeBuffer(buffer, p, id);
      var b2 := CompositeBuffer(b1, q, id);
      b1 == p && !Decrypts(buffer, p) && b2 == p + q && !Decrypts(b1, q) &&
      Decrypts(b2, r) && Assembled(b2, r) == p + q + r
  {
  }

  // ----- the first Libre 3 packet -----

  /** The 0x22CE buffer: an empty one takes the packet, a 20-byte one
      appends it and is emptied on reaching 25 bytes, any other is kept. */
  function Libre3Buffer(buffer: seq<byte>, data: seq<byte>): (r: seq<byte>)
    ensures |buffer| == 0 ==> r == data
    ensures |buffer| == 20 ==> r == (if |data| == 5 then [] else buffer + data)
    ensures |buffer| != 0 && |buffer| != 20 ==> r == buffer
  {
    if |buffer| == 0 then data
    else if |buffer| == 20 then (if |buffer + data| == 25 then [] else buffer + data)
    else buffer
  }

  /** `Abbott`, with the fields `read` and `parseManufacturerData` update
      and the sensor it feeds. */
  class Abbott {
    var authenticationState: AuthState
    var sessionInfo: seq<byte>
    var uid: seq<byte>
    var buffer: seq<byte>
    var sensor: Sensor?

    constructor (sensor: Sensor?)
      ensures authenticationState == NotAuthenticated && sessionInfo == [] && uid == [] && buffer == []
      ensures this.sensor == sensor
    {
      authenticationState := NotAuthenticated;
      sessionInfo := [];
      uid := [];
      buffer := [];
      this.sensor := sensor;
    }

    /** `parseManufacturerData`. */
    method ParseManufacturerData(data: seq<byte>)
      modifies this`uid
      ensures uid == AdvertisedUid(data, old(uid))
    {
      if |data| > 7 {
        var sensorUid := data[2..8] + [0x07, 0xE0];
        if data[7] == 0xA4 {
          uid := sensorUid;
        }
      }
    }

    /** A packet on the login characteristic. */
    method ReadLogin(data: seq<byte>)
      modifies this`authenticationState, this`sessionInfo
      ensures Login(authenticationState, sessionInfo) == LoginStep(Login(old(authenticationState), old(sessionInfo)), data)
    {
      if authenticationState == ChallengeResponse {
        if |data| == 14 {
          authenticationState := GetSessionInfo;
        }
      } else if authenticationState == GetSessionInfo {
        if |data| == 7 {
          sessionInfo := data;
        } else if |data| == 18 {
          sessionInfo := sessionInfo + data;
          if |sessionInfo| == 25 {
            authenticationState := Authenticated;
          }
        }
      }
    }

    /** A packet on the composite characteristic. The sensor is
        force-unwrapped on a 20-byte packet and on decryption, whose key
        needs six bytes of its uid. A decrypted packet is parsed into the
        sensor. */
    method ReadComposite(data: seq<byte>)
      requires |data| == 20 || Decrypts(buffer, data) ==> sensor != null
      requires Decrypts(buffer, data) ==> |sensor.uid| >= 6
      modifies this`buffer, sensor
      ensures sensor == old(sensor)
      ensures Decrypts(old(buffer), data) ==> buffer == CompositeBuffer(old(buffer), data, old(sensor.uid))
      ensures !Decrypts(old(buffer), data) ==> buffer == Assembled(old(buffer), data)
      ensures !Decrypts(old(buffer), data) && sensor != null ==> unchanged(sensor)
      ensures Decrypts(old(buffer), data) && buffer == [] ==> unchanged(sensor)
      ensures Decrypts(old(buffer), data) && buffer != [] ==>
        var plain := BlePlain(old(sensor.uid), old(buffer) + data);
        sensor.age == Wear(plain) &&
        sensor.state == (if old(sensor.state) == StateUnknown then Active else old(sensor.state)) &&
        sensor.history == MergedHistory(old(sensor.history) + BleReadings(plain)[7..], BleReadings(plain)[7].id)
    {
      if |data| == 20 {
        buffer := [];
      }
      buffer := buffer + data;
      if |buffer| == 46 {
        var bleData := DecryptBle(sensor.uid, buffer);
        if bleData.Ok? {
          var _ := ParseBleData(sensor, bleData.value);
        } else {
          buffer := [];
        }
      }
    }

    /** A packet on the Libre 3 0x22CE characteristic. */
    method ReadLibre3(data: seq<byte>)
      modifies this`buffer
      ensures buffer == Libre3Buffer(old(buffer), data)
    {
      if |buffer| == 0 {
        buffer := data;
      } else if |buffer| == 20 {
        buffer := buffer + data;
        if |buffer| == 25 {
          buffer := [];
        }
      }
    }

    /** `read(_:for:)`, dispatched on the characteristic. */
    method Read(data: seq<byte>, uuid: string)
      requires CharacteristicOf(uuid) == CompositeRawData ==>
        (|data| == 20 || Decrypts(buffer, data) ==> sensor != null) &&
        (Decrypts(buffer, data) ==> |sensor.uid| >= 6)
      modifies this, sensor
      ensures sensor == old(sensor) && uid == old(uid)
      ensures CharacteristicOf(uuid) == BleLogin ==>
        Login(authenticationState, sessionInfo) == LoginStep(Login(old(authenticationState), old(sessionInfo)), data) &&
        buffer == old(buffer)
      ensures CharacteristicOf(uuid) == CompositeRawData ==>
        Login(authenticationState, sessionInfo) == Login(old(authenticationState), old(sessionInfo)) &&
        (Decrypts(old(buffer), data) ==> buffer == CompositeBuffer(old(buffer), data, old(sensor.uid))) &&
        (!Decrypts(old(buffer), data) ==> buffer == Assembled(old(buffer), data))
      ensures CharacteristicOf(uuid) == Libre3Unknown22CE ==>
        Login(authenticationState, sessionInfo) == Login(old(authenticationState), old(sessionInfo)) &&
        buffer == Libre3Buffer(old(buffer), data)
      ensures CharacteristicOf(uuid) == OtherCharacteristic ==>
        Login(authenticationState, sessionInfo) == Login(old(authenticationState), old(sessionInfo)) &&
        buffer == old(buffer)
      ensures CharacteristicOf(uuid) != CompositeRawData && sensor != null ==> unchanged(sensor)
    {
      match CharacteristicOf(uuid)
      case BleLogin => ReadLogin(data);
      case CompositeRawData => ReadComposite(data);
      case Libre3Unknown22CE => ReadLibre3(data);
      case OtherCharacteristic =>
    }
  }
}
