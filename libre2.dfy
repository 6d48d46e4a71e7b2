// The Libre 2 stream cipher: the key schedule built from the sensor uid,
// the 16-bit mixing function, the FRAM and BLE decryptions and the
// streaming unlock payload.
module Libre2 {
  import opened Bytes
  import opened Crc
  import opened SensorTypes

  /** The four 16-bit words every step of the cipher works on; `w0` is the
      Swift array's element 0. */
  datatype Words = Words(w0: u16, w1: u16, w2: u16, w3: u16)

  /** The four words of `key`. */
  const Key0: u16 := 0xA0C5
  const Key1: u16 := 0x6860
  const Key2: u16 := 0x0000
  const Key3: u16 := 0x14C6
  const Secret: u16 := 0x1b6a

  /** The subcommand codes the cipher is keyed with. */
  const Activate: u16 := 0x1b
  const EnableStreaming: u16 := 0x1e

  /** `prepareVariables(id:x:y:)`. Each sum is taken in a 64-bit `UInt` and
      truncated to 16 bits, which is 16-bit wrap-around addition. */
  function PrepareVariables(id: seq<byte>, x: u16, y: u16): (r: Words)
    requires |id| >= 6
  {
    Words(U16(id[5], id[4]) + x + y, U16(id[3], id[2]) + Key2, U16(id[1], id[0]) + x * 2, 0x241a ^ Key3)
  }

  /** `op`: drop the two low bits, folding each back in as a key word. */
  function Op(v: u16): u16
  {
    var r := v >> 2;
    var r' := if v & 1 != 0 then r ^ Key1 else r;
    if v & 2 != 0 then r' ^ Key0 else r'
  }

  /** The two top bits of `op`'s result say which key words were folded
      in, so `op` can be undone. */
  function OpInverse(r: u16): u16
  {
    var low: u16 := (if r & 0x8000 != 0 then 2 else 0) | (if r & 0x4000 != 0 then 1 else 0);
    var r' := if r & 0x8000 != 0 then r ^ Key0 else r;
    var high := if r & 0x4000 != 0 then r' ^ Key1 else r';
    (high << 2) | low
  }

  /** `op` is a bijection on 16-bit words. */
  lemma OpIsInvertible(v: u16)
    ensures OpInverse(Op(v)) == v
  {
  }

  lemma OpIsOnto(r: u16)
    ensures Op(OpInverse(r)) == r
  {
    var b15 := r & 0x8000 != 0;
    var b14 := r & 0x4000 != 0;
    var r' := if b15 then r ^ Key0 else r;
    var high := if b14 then r' ^ Key1 else r';
    var low: u16 := (if b15 then 2 else 0) | (if b14 then 1 else 0);
    assert high & 0xC000 == 0;
    Pack(high, low);
  }

  /** Shifting a 14-bit word up by two and filling the two low bits keeps
      both parts recoverable. */
  lemma Pack(h: u16, low: u16)
    requires h & 0xC000 == 0 && low & 0xFFFC == 0
    ensures ((h << 2) | low) >> 2 == h
    ensures ((h << 2) | low) & 3 == low
  {
  }

  /** `processCrypto(input:)`: eight rounds of `op`, returned high word first. */
  function ProcessCrypto(input: Words): (r: Words)
  {
    var r0 := Op(input.w0) ^ input.w3;
    var r1 := Op(r0) ^ input.w2;
    var r2 := Op(r1) ^ input.w1;
    var r3 := Op(r2) ^ input.w0;
    var r4 := Op(r3);
    var r5 := Op(r4 ^ r0);
    var r6 := Op(r5 ^ r1);
    var r7 := Op(r6 ^ r2);
    Words(r3 ^ r7, r2 ^ r6, r1 ^ r5, r0 ^ r4)
  }

  /** The eight little-endian bytes of four words, as the decryptions
      append them. */
  function WordBytes(k: Words): (r: seq<byte>)
    ensures |r| == 8
  {
    LeWords(k.w0, k.w1) + LeWords(k.w2, k.w3)
  }

  /** `usefulFunction(id:x:y:)`: the two low words of the block key, each
      xored with its constant, as four little-endian bytes. */
  function UsefulFunction(id: seq<byte>, x: u16, y: u16): (r: seq<byte>)
    requires |id| >= 6
    ensures |r| == 4
  {
    var blockKey := ProcessCrypto(PrepareVariables(id, x, y));
    var r1 := blockKey.w0 ^ 0x4163;
    var r2 := blockKey.w1 ^ 0x4344;
    LeWords(r1, r2)
  }

  /** Read back as two little-endian words, the result is the two low
      block-key words xored with their constants. */
  lemma UsefulFunctionWords(id: seq<byte>, x: u16, y: u16)
    requires |id| >= 6
    ensures var r := UsefulFunction(id, x, y); var k := ProcessCrypto(PrepareVariables(id, x, y));
      LE16(r, 0) == k.w0 ^ 0x4163 && LE16(r, 2) == k.w1 ^ 0x4344
  {
    var k := ProcessCrypto(PrepareVariables(id, x, y));
    LeWordsRoundTrip(k.w0 ^ 0x4163, k.w1 ^ 0x4344);
  }

  /** Read back as little-endian words, the eight bytes are the four words. */
  lemma WordBytesWords(k: Words)
    ensures var r := WordBytes(k);
      LE16(r, 0) == k.w0 && LE16(r, 2) == k.w1 && LE16(r, 4) == k.w2 && LE16(r, 6) == k.w3
  {
    LeWordsRoundTrip(k.w0, k.w1);
    LeWordsRoundTrip(k.w2, k.w3);
    LE16Append(LeWords(k.w0, k.w1), LeWords(k.w2, k.w3), 0);
    LE16Append(LeWords(k.w0, k.w1), LeWords(k.w2, k.w3), 2);
    LE16Prefix(LeWords(k.w0, k.w1), LeWords(k.w2, k.w3), 0);
    LE16Prefix(LeWords(k.w0, k.w1), LeWords(k.w2, k.w3), 2);
  }

  // ---- FRAM ----

  /** `getArg(block:)`: the second key argument of each of the 43 blocks. */
  function BlockArg(t: SensorType, info: seq<byte>, block: nat): u16
    requires IsEncryptedType(t) && |info| >= 6
  {
    if t == LibreUS14day then
      if block < 3 || block >= 40 then 0xcadc else U16(info[5], info[4])
    else
      U16(info[5], info[4]) ^ 0x44
  }

  /** The key of FRAM block `block`. */
  function BlockKey(t: SensorType, id: seq<byte>, info: seq<byte>, block: nat): Words
    requires IsEncryptedType(t) && |id| >= 6 && |info| >= 6 && block < 43
  {
    ProcessCrypto(PrepareVariables(id, block as u16, BlockArg(t, info, block)))
  }

  /** The keys of the 43 FRAM blocks. */
  function BlockKeys(t: SensorType, id: seq<byte>, info: seq<byte>): (r: seq<Words>)
    requires IsEncryptedType(t) && |id| >= 6 && |info| >= 6
    ensures |r| == 43
  {
    seq(43, i requires 0 <= i < 43 => BlockKey(t, id, info, i))
  }

  /** The bytes of the first `n` keys, eight per key. */
  function KeyBytes(keys: seq<Words>, n: nat): (r: seq<byte>)
    requires n <= |keys|
    ensures |r| == 8 * n
  {
    if n == 0 then [] else KeyBytes(keys, n - 1) + WordBytes(keys[n - 1])
  }

  /** Bytes `8i ..< 8i + 8` of the key bytes are the bytes of key `i`. */
  lemma {:induction false} KeyBytesBlock(keys: seq<Words>, n: nat, i: nat)
    requires i < n <= |keys|
    ensures KeyBytes(keys, n)[8 * i..8 * i + 8] == WordBytes(keys[i])
  {
    var prefix := KeyBytes(keys, n - 1);
    var last := WordBytes(keys[n - 1]);
    if i == n - 1 {
      SliceOfSuffix(prefix, last);
    } else {
      KeyBytesBlock(keys, n - 1, i);
      SliceOfPrefix(prefix, last, 8 * i, 8 * i + 8);
    }
  }

  /** The 344 decrypted FRAM bytes. */
  function DecryptedFram(t: SensorType, id: seq<byte>, info: seq<byte>, data: seq<byte>): (r: seq<byte>)
    requires IsEncryptedType(t) && |id| >= 6 && |info| >= 6 && |data| >= 344
    ensures |r| == 344
  {
    Xor(data[..344], KeyBytes(BlockKeys(t, id, info), 43))
  }

  /** `decryptFRAM(type:id:info:data:)`: any type but Libre 2 and Libre US
      14-day throws; the others decrypt 43 blocks of 8 bytes. */
  method DecryptFram(t: SensorType, id: seq<byte>, info: seq<byte>, data: seq<byte>) returns (r: Result<seq<byte>>)
    requires IsEncryptedType(t) ==> |id| >= 6 && |info| >= 6 && |data| >= 344
    ensures r.Err? <==> !IsEncryptedType(t)
    ensures r.Ok? ==> r.value == DecryptedFram(t, id, info, data)
  {
    if !IsEncryptedType(t) {
      return Err;
    }
    ghost var keys := BlockKeys(t, id, info);
    var result: seq<byte> := [];
    for i := 0 to 43
      invariant result == Xor(data[..8 * i], KeyBytes(keys, i))
    {
      var blockKey := BlockKey(t, id, info, i);
      assert blockKey == keys[i];
      var bytes := WordBytes(blockKey);
      DecryptStep(data, keys, i, result);
      result := result + Xor(data[8 * i..8 * i + 8], bytes);
    }
    return Ok(result);
  }

  lemma DecryptStep(data: seq<byte>, keys: seq<Words>, i: nat, result: seq<byte>)
    requires i < |keys| && 8 * (i + 1) <= |data|
    requires result == Xor(data[..8 * i], KeyBytes(keys, i))
    ensures result + Xor(data[8 * i..8 * i + 8], WordBytes(keys[i])) == Xor(data[..8 * (i + 1)], KeyBytes(keys, i + 1))
  {
    XorAppend(data[..8 * i], data[8 * i..8 * i + 8], KeyBytes(keys, i), WordBytes(keys[i]));
    TakeSplit(data, 8 * i, 8 * i + 8);
  }

  /** Block `i` of the FRAM keystream is the eight bytes of block `i`'s key,
      so keystream byte `k` depends only on the type, uid, info and `k / 8`. */
  lemma FramKeyBlock(t: SensorType, id: seq<byte>, info: seq<byte>, i: nat)
    requires IsEncryptedType(t) && |id| >= 6 && |info| >= 6 && i < 43
    ensures KeyBytes(BlockKeys(t, id, info), 43)[8 * i..8 * i + 8] == WordBytes(BlockKey(t, id, info, i))
  {
    KeyBytesBlock(BlockKeys(t, id, info), 43, i);
  }

  /** Decrypting is xoring with a keystream, so decrypting twice gives back
      the first 344 bytes. */
  lemma DecryptFramTwice(t: SensorType, id: seq<byte>, info: seq<byte>, data: seq<byte>)
    requires IsEncryptedType(t) && |id| >= 6 && |info| >= 6 && |data| >= 344
    ensures DecryptedFram(t, id, info, DecryptedFram(t, id, info, data)) == data[..344]
  {
    var once := DecryptedFram(t, id, info, data);
    assert once[..344] == once;
    XorTwice(data[..344], KeyBytes(BlockKeys(t, id, info), 43));
  }

  /** Decrypted byte `k` depends on encrypted byte `k` alone. */
  lemma DecryptFramIsBytewise(t: SensorType, id: seq<byte>, info: seq<byte>, a: seq<byte>, b: seq<byte>, k: nat)
    requires IsEncryptedType(t) && |id| >= 6 && |info| >= 6 && |a| >= 344 && |b| >= 344
    requires k < 344 && a[k] == b[k]
    ensures DecryptedFram(t, id, info, a)[k] == DecryptedFram(t, id, info, b)[k]
  {
    assert a[..344][k] == b[..344][k];
  }

  /** The key arguments of the two encrypted types: Libre US 14-day keys its
      header and footer with a fixed word. */
  lemma BlockArgs(info: seq<byte>, block: nat)
    requires |info| >= 6 && block < 43
    ensures (block < 3 || block >= 40) ==> BlockArg(LibreUS14day, info, block) == 0xcadc
    ensures 3 <= block < 40 ==> BlockArg(LibreUS14day, info, block) == LE16(info, 4)
    ensures BlockArg(Libre2, info, block) == LE16(info, 4) ^ 0x44
  {
  }

  // ---- streaming unlock ----

  /** `prepareVariables2(id:i1:i2:i3:i4:)`, again with 16-bit wrap-around. */
  function PrepareVariables2(id: seq<byte>, i1: u16, i2: u16, i3: u16, i4: u16): Words
    requires |id| >= 6
  {
    Words(U16(id[5], id[4]) + i1, U16(id[3], id[2]) + i2, U16(id[1], id[0]) + i3 + Key2, i4 + Key3)
  }

  /** `streamingUnlockPayload(id:info:enableTime:unlockCount:)`. The `UInt32`
      sum of the time and the count traps on overflow. */
  function StreamingUnlockPayload(id: seq<byte>, info: seq<byte>, enableTime: nat, unlockCount: nat): (r: seq<byte>)
    requires |id| >= 6 && |info| >= 6
    requires unlockCount < 0x1_0000 && enableTime + unlockCount < 0x1_0000_0000
    ensures |r| == 12
    ensures r[..4] == LeBytes32(enableTime + unlockCount)
  {
    var b := LeBytes32(enableTime + unlockCount);
    var ad := UsefulFunction(id, Activate, Secret);
    var ed := UsefulFunction(id, EnableStreaming, ((enableTime % 0x1_0000) as u16) ^ U16(info[5], info[4]));
    var t11 := U16(ed[1], ed[0]) ^ U16(b[3], b[2]);
    var t12 := U16(ad[1], ad[0]);
    var t13 := U16(ed[3], ed[2]) ^ U16(b[1], b[0]);
    var t14 := U16(ad[3], ad[2]);
    var t2 := ProcessCrypto(PrepareVariables2(id, t11, t12, t13, t14));
    var t31 := Crc16([0xc1, 0xc4, 0xc3, 0xc0, 0xd4, 0xe1, 0xe7, 0xba, Lo(t2.w0), Hi(t2.w0)]);
    var t32 := Crc16([Lo(t2.w1), Hi(t2.w1), Lo(t2.w2), Hi(t2.w2), Lo(t2.w3), Hi(t2.w3)]);
    var t33 := Crc16([ad[0], ad[1], ad[2], ad[3], ed[0], ed[1]]);
    var t34 := Crc16([ed[2], ed[3], b[0], b[1], b[2], b[3]]);
    var t4 := ProcessCrypto(PrepareVariables2(id, t31, t32, t33, t34));
    b + WordBytes(t4)
  }

  /** The first four payload bytes are the little-endian 32-bit sum of the
      enable time and the unlock count. */
  lemma UnlockPayloadTime(id: seq<byte>, info: seq<byte>, enableTime: nat, unlockCount: nat)
    requires |id| >= 6 && |info| >= 6
    requires unlockCount < 0x1_0000 && enableTime + unlockCount < 0x1_0000_0000
    ensures var r := StreamingUnlockPayload(id, info, enableTime, unlockCount);
      r[0] as nat + 256 * (r[1] as nat + 256 * (r[2] as nat + 256 * r[3] as nat)) == enableTime + unlockCount
  {
    var r := StreamingUnlockPayload(id, info, enableTime, unlockCount);
    LeBytes32Value(enableTime + unlockCount);
    assert r[..4] == LeBytes32(enableTime + unlockCount);
    assert r[0] == r[..4][0] && r[1] == r[..4][1] && r[2] == r[..4][2] && r[3] == r[..4][3];
  }

  // ---- BLE ----

  /** `processCrypto` applied `n` times. */
  function Iterate(k: Words, n: nat): Words
  {
    if n == 0 then k else ProcessCrypto(Iterate(k, n - 1))
  }

  /** The key bytes the loop of `decryptBLE` has appended after `n` rounds. */
  function KeyStream(k: Words, n: nat): (r: seq<byte>)
    ensures |r| == 8 * n
  {
    if n == 0 then [] else KeyStream(k, n - 1) + WordBytes(Iterate(k, n - 1))
  }

  /** The 64-byte BLE key, keyed by the uid and the first two packet bytes.
      Swift gives `^` and `|` the same precedence, left to right, hence the
      xor before the or. */
  function BleKey(id: seq<byte>, d0: byte, d1: byte): (r: seq<byte>)
    requires |id| >= 6
    ensures |r| == 64
  {
    var d := UsefulFunction(id, Activate, Secret);
    var x := (U16(d[1], d[0]) ^ U16(d[3], d[2])) | 0x63;
    var y := U16(d1, d0) ^ 0x63;
    KeyStream(ProcessCrypto(PrepareVariables(id, x, y)), 8)
  }

  /** The packet after its two header bytes, xored with the key. */
  function BlePlain(id: seq<byte>, data: seq<byte>): (r: seq<byte>)
    requires |id| >= 6 && 2 <= |data| <= 66
    ensures |r| == |data| - 2
  {
    Xor(data[2..], BleKey(id, data[0], data[1]))
  }

  /** The CRC test `decryptBLE` applies to the decrypted bytes. */
  predicate BleCrcOk(plain: seq<byte>)
    requires |plain| >= 44
  {
    Crc16(plain[..42]) == LE16(plain, 42)
  }

  /** `decryptBLE(id:data:)`. The key has 64 bytes and the CRC sits at bytes
      42-43 of the result, so the packet must have 46 to 66 bytes. */
  method DecryptBle(id: seq<byte>, data: seq<byte>) returns (r: Result<seq<byte>>)
    requires |id| >= 6 && 46 <= |data| <= 66
    ensures r.Ok? <==> BleCrcOk(BlePlain(id, data))
    ensures r.Ok? ==> r.value == BlePlain(id, data)
  {
    var d := UsefulFunction(id, Activate, Secret);
    var x := (U16(d[1], d[0]) ^ U16(d[3], d[2])) | 0x63;
    var y := U16(data[1], data[0]) ^ 0x63;
    var key: seq<byte> := [];
    var k0 := ProcessCrypto(PrepareVariables(id, x, y));
    var initialKey := k0;
    for n := 0 to 8
      invariant initialKey == Iterate(k0, n)
      invariant key == KeyStream(k0, n)
    {
      key := key + WordBytes(initialKey);
      initialKey := ProcessCrypto(initialKey);
    }
    assert key == BleKey(id, data[0], data[1]);
    var result := Xor(data[2..], key);
    if Crc16(result[..42]) != LE16(result, 42) {
      return Err;
    }
    return Ok(result);
  }

  /** Encrypting a plain packet under a header and decrypting it gives the
      plain packet back. */
  lemma BleRoundTrip(id: seq<byte>, d0: byte, d1: byte, plain: seq<byte>)
    requires |id| >= 6 && |plain| <= 64
    ensures BlePlain(id, [d0, d1] + Xor(plain, BleKey(id, d0, d1))) == plain
  {
    var key := BleKey(id, d0, d1);
    var data := [d0, d1] + Xor(plain, key);
    assert data[2..] == Xor(plain, key);
    XorTwice(plain, key);
  }
}
