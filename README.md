# DiaBLE sensor data layer in Dafny

DiaBLE is an iOS/watchOS app that reads FreeStyle Libre glucose sensors.
It talks to them over NFC directly, or over Bluetooth LE through a sensor's
own radio (Libre 2, Libre 3) or through a clip-on transmitter (Bubble,
BluCon). This project models the app's sensor data layer and proves
properties of it:

- the byte codecs: the table-driven CRC16 with its final bit reversal, the
  LSB-first bit reader and writer, the base-32 serial number, and the
  10-character status code;
- the sensor type, family and security generation that patch info
  selects;
- the 344-byte FRAM image: the per-section CRC report, the CRC fixer, and
  `parseFRAM`, which rebuilds the 16-entry trend ring and the 32-entry
  history ring from packed 6-byte records;
- the Libre Pro layout, with its 176-byte header/footer/body and the
  block arithmetic of its history read;
- the Libre 2 stream cipher over FRAM and BLE packets, the streaming
  unlock payload, and the BLE reading merge, which fills gaps with -1
  sentinels;
- the NFC tag protocol:
  - the custom-command builders;
  - the chunked block reads with their retry counter;
  - the raw A3 reads and writes;
  - the maintenance operations (dump, reset, prolong, unlock, activate) and
    the gates on sensor type and generation;
- the notification state machines of the Abbott (Libre 2 and Libre 3),
  Bubble and BluCon transmitters;
- the Gen2 error codes and authentication-byte splicing;
- the OOP (out-of-process calibration server) response enums, endpoint and
  query selection, and history padding.

## Layout and modelling conventions

Each core Swift file becomes one module, in one `.dfy` file:

| file | module | models |
|---|---|---|
| bytes.dfy | `Bytes` | `byte`/`u16`, little-endian words, XOR, Swift's truncating `/` and `%` |
| crc.dfy | `Crc` | `crc16` |
| bits.dfy | `Bits` | `readBits`, `writeBits` |
| sensor_types.dfy | `SensorTypes` | `SensorType`, `SensorFamily`, `SensorState`, `serialNumber`, status codes |
| fram.dfy | `Fram` | records, rings, calibration, CRC report, `checksummedFRAM` |
| sensor.dfy | `SensorModel` | class `Sensor`: the observers, `parseFRAM`, `updateCRCReport` |
| libre2.dfy | `Libre2` | the cipher, `decryptFRAM`, `streamingUnlockPayload`, `decryptBLE` |
| libre2_ble.dfy | `Libre2Ble` | `parseBLEData` |
| librepro.dfy | `LibrePro` | Libre Pro report, trend, history and history read |
| nfc.dfy | `Nfc` | command builders and the `read`/`readBlocks`/`readRaw`/`write`/`writeRaw` loops |
| nfc_tools.dfy | `NfcTools` | the maintenance tasks of `execute` |
| abbott.dfy | `AbbottDevice` | class `Abbott` |
| bubble.dfy | `BubbleDevice` | class `Bubble` |
| blucon.dfy | `BluConDevice` | class `BluCon` |
| gen2.dfy | `Gen2` | `Gen2Error` and the auth functions |
| oop.dfy | `Oop` | enums, class `HistoryResponse`, `postToOOP` query, padding |

Conventions:

- Fixed-width Swift integers are `bv8`/`bv16` where the code does bit work,
  with `truncatingIfNeeded` written out as mod 2^16. The cipher is the main
  case.
- Swift's `Int` `/` and `%` truncate toward zero. They are modelled by
  `Bytes.TruncDiv` and `Bytes.TruncMod`, which differ from Dafny's
  Euclidean operators for negative operands.
- A Swift trap the caller can avoid becomes a `requires`. The traps
  covered are an index out of range, a force unwrap and a `UInt32`
  overflow. A trap that depends on what the NFC tag answers becomes the
  outcome `Trapped`.
- The NFC tag is an oracle: a function from the requests sent so far to a
  reply, which is an answer or a failure. BLE writes are appended to a log
  of requests.
- Loops in the source are `while` loops in methods, each proved equal to a
  recursive specification function. The properties are lemmas about that
  function.
- Objects whose fields the source updates are classes with `modifies`
  frames: `Sensor`, `Abbott`, `Bubble`, `BluCon` and `HistoryResponse`.

## Model

| member | source | states |
|---|---|---|
| Bytes.LeBytesRoundTrip | DiaBLE/Sensor.swift:477-479 | the two little-endian bytes of a 16-bit word read back as that word, and `UInt16(hi, lo)` of its high and low bytes rebuilds it |
| Bytes.LE16OfBytes | DiaBLE/Libre2.swift:258-261 | `UInt16(b, a)` written little-endian is `[a, b]` |
| Bytes.LeWordsRoundTrip | DiaBLE/Libre2.swift:111-116 | two words written little-endian read back as the same two words |
| Bytes.XorTwice | DiaBLE/Libre2.swift:155-162 | XOR with the same key is an involution |
| Bytes.XorAppend | DiaBLE/Libre2.swift:149-163 | XOR over a concatenation is the concatenation of the XORs, block by block |
| Bytes.LeBytes32Value | DiaBLE/Libre2.swift:246-252 | the four bytes `time & 0xFF … (time >> 24) & 0xFF` spell `time` in base 256 |
| Bytes.TruncMod | DiaBLE/Sensor.swift:323-324 | Swift's `%` result: `a == (a / d) * d + r` with truncating `/`, `0 <= r < d` for `a >= 0` and `-d < r <= 0` for `a < 0` |
| Bytes.TruncMatchesEuclid | DiaBLE/Sensor.swift:323-324 | for non-negative operands Swift's `/` and `%` agree with Dafny's |
| Bytes.PayloadsSnoc | DiaBLE/Devices/Bubble.swift:124-127 | the buffered payload of packets plus one more is the old payload followed by the new packet's payload |
| Bytes.PayloadsCons | DiaBLE/Devices/BluCon.swift:187-190 | the payload of a packet sequence starts with its first packet's payload |
| Crc.ComputeCrc16 | DiaBLE/Sensor.swift:129-138 | the `reduce` over the table and the 16-step reversal loop compute `Crc16(data)`, which is 0xFFFF for empty data |
| Crc.Crc16Empty | DiaBLE/Sensor.swift:131-137 | the register seeded with 0xFFFF and reversed in 16 steps gives 0xFFFF for empty input |
| Crc.Reverse16Involution | DiaBLE/Sensor.swift:132-136 | the 16-step bit reversal undoes itself |
| Crc.Reverse16Ends | DiaBLE/Sensor.swift:132-136 | the reversal swaps bit 0 and bit 15 |
| Bits.ReadBits | DiaBLE/Sensor.swift:143-157 | `readBits` is 0 for `bitCount` 0, otherwise the LSB-first value of bits `byteOffset*8+bitOffset+i`, always below 2^bitCount |
| Bits.BitsValueBound | DiaBLE/Sensor.swift:147-155 | a value assembled from n bits lies in 0 ..< 2^n |
| Bits.WriteBits | DiaBLE/Sensor.swift:159-169 | `writeBits` sets bit `start+i` to bit i of `value` for every i below `bitCount`, and returns the buffer unchanged for 0 bits |
| Bits.ReadAfterWrite | DiaBLE/Sensor.swift:143-169 | reading back a window written with `writeBits` gives `value mod 2^bitCount`; the length and every bit outside the window are unchanged |
| Bits.WrittenInside | DiaBLE/Sensor.swift:161-166 | inside the window, bit p of the written buffer is bit `p - start` of the value |
| Bits.WrittenOutside | DiaBLE/Sensor.swift:161-166 | outside the window, every bit keeps its old value |
| Bits.SetBitBit | DiaBLE/Sensor.swift:166 | clearing the bit with `& ~(1 << bit)` and or-ing in `b << bit` changes only that one bit, to b |
| Bits.WindowValue | DiaBLE/Sensor.swift:149-152 | bits read at a byte offset are the bits of the 6-byte record window starting there |
| SensorTypes.TypeOf | DiaBLE/Sensor.swift:23-38 | the type for each code, both ways: DF/A2 Libre 1, E5 Libre US 14 day, 70 Libre Pro/H, 9D Libre 2; 76 gives Libre 2 US, Libre 2 CA or Libre Sense by info[3] and info[2]; an unknown code gives Libre 3 exactly when patch info has more than 6 bytes |
| SensorTypes.FamilyOf | DiaBLE/Sensor.swift:44-58 | `SensorFamily(rawValue:)` is defined exactly for 0, 1, 3 and 7 and returns the family with that raw value |
| SensorTypes.FamilyRoundTrip | DiaBLE/Sensor.swift:44-58 | every family survives rawValue and back |
| SensorTypes.StateOf | DiaBLE/Sensor.swift:80-101 | `SensorState(rawValue:)` is defined exactly for bytes 0 … 6 and returns the state with that raw value |
| SensorTypes.StateRoundTrip | DiaBLE/Sensor.swift:80-101 | every state survives rawValue and back |
| SensorTypes.SymbolIndex | DiaBLE/Sensor.swift:459-466 | `alphabet.firstIndex(of:)`: when found, an index below 32 holding the character |
| SensorTypes.AlphabetIndex | DiaBLE/Sensor.swift:450-464 | the index of the i-th symbol of the 32-symbol alphabet is i |
| SensorTypes.SymbolIndexFound | DiaBLE/Sensor.swift:464 | the force-unwrapped index exists exactly for characters of the alphabet |
| SensorTypes.FiveBits | DiaBLE/Sensor.swift:110-120 | the six serial bytes give ten `UInt8` values, the shift expressions of `fiveBitsArray` in order |
| SensorTypes.SerialBytes | DiaBLE/Sensor.swift:109 | `uid.reversed().suffix(6)` is the first six uid bytes, last first: byte i is uid[5 - i] |
| SensorTypes.FiveBitsInjective | DiaBLE/Sensor.swift:110-123 | the ten masked 5-bit symbols determine the six bytes: every bit of them lands in exactly one symbol |
| SensorTypes.SerialSymbolIndex | DiaBLE/Sensor.swift:121-123 | serial character k + 1 is the table symbol whose index is `0x1F & fiveBitsArray[k]` |
| SensorTypes.SerialNumberInjective | DiaBLE/Sensor.swift:106-124 | equal serials of one family come from uids that agree on their first six bytes |
| SensorTypes.SerialNumber | DiaBLE/Sensor.swift:106-124 | "" unless the uid has exactly 8 bytes, otherwise 11 characters starting with the family digit |
| SensorTypes.SerialSymbols | DiaBLE/Sensor.swift:121-123 | the ten characters after the family digit come from the 32-symbol table |
| SensorTypes.SerialIgnoresLastBytes | DiaBLE/Sensor.swift:109 | uid[6] and uid[7] never affect the serial number |
| SensorTypes.StatusCode | DiaBLE/Sensor.swift:449-456 | the status code has exactly 10 characters |
| SensorTypes.EncodeStatusCode | DiaBLE/Sensor.swift:449-456 | the loop appends `alphabet[(status >> 5i) & 0x1F]` for i in 0 … 9 |
| SensorTypes.DecodeStatusCode | DiaBLE/Sensor.swift:459-467 | the loop sums `index(chars[i]) << 5i` over the first ten characters, a value below 2^50 |
| SensorTypes.CodeValueBound | DiaBLE/Sensor.swift:463-465 | n decoded symbols give a value below 32^n |
| SensorTypes.DecodeEncode | DiaBLE/Sensor.swift:449-467 | decoding an encoded status gives the status mod 32^10, its low 50 bits |
| SensorTypes.EncodeDecode | DiaBLE/Sensor.swift:449-467 | encoding a decoded code gives back its first ten characters |
| Fram.Missing | DiaBLE/Libre2.swift:396 | the sentinel reading `Glucose(-1, id:)` has value -1 and the given id |
| Fram.ReadField | DiaBLE/Sensor.swift:336-342 | one `readBits` call at a record offset reads the bits of that 6-byte record |
| Fram.ReadRecord | DiaBLE/Sensor.swift:304-317 | the six `readBits` calls decode the 6-byte record at the offset: raw value, quality, flags, error bit, temperature and signed adjustment |
| Fram.SlotRange | DiaBLE/Sensor.swift:302-303 | `j = index - 1 - i`, plus n when negative, lies in 0 … max slot |
| Fram.SlotIsMod | DiaBLE/Sensor.swift:302-303 | for index ≤ n the slot is `(index - 1 - i) mod n` |
| Fram.SlotsDistinct | DiaBLE/Sensor.swift:302-303 | distinct readings come from distinct slots |
| Fram.RingsFit | DiaBLE/Sensor.swift:300-335 | with trendIndex ≤ 16 and historyIndex ≤ 32, every trend record at 28+6j and history record at 124+6j lies inside a 320-byte image |
| Fram.TrendOf | DiaBLE/Sensor.swift:298-318 | the rebuilt trend has exactly 16 entries |
| Fram.HistoryOf | DiaBLE/Sensor.swift:332-347 | the rebuilt history has exactly 32 entries |
| Fram.DelayRange | DiaBLE/Sensor.swift:324 | with truncating `%`, `delay = (age-3) % 15 + 3` lies in 3 … 17 for age ≥ 3 and equals age below 3, where Euclidean `%` would give age + 15 |
| Fram.TrendIds | DiaBLE/Sensor.swift:298-318 | trend entry i has id age - i, one less than the one before |
| Fram.HistoryIds | DiaBLE/Sensor.swift:344 | history entry i has id age - delay - 15i, 15 less than the one before |
| Fram.TrendStep | DiaBLE/Sensor.swift:301-317 | the record read for trend entry i sits at 28 + 6·slot(trendIndex, i) |
| Fram.HistoryStep | DiaBLE/Sensor.swift:333-346 | the record read for history entry i sits at 124 + 6·slot(historyIndex, i) |
| Fram.TrendPrefixIsTrend | DiaBLE/Sensor.swift:301-318 | the trend appended in loop order after 16 rounds is the whole trend |
| Fram.HistoryPrefixIsHistory | DiaBLE/Sensor.swift:332-347 | the history appended in loop order after 32 rounds is the whole history |
| Fram.ReadTrendEntry | DiaBLE/Sensor.swift:301-317 | one trend round: slot, offset and decoded record with id age - i |
| Fram.BuildTrend | DiaBLE/Sensor.swift:298-318 | the trend loop rebuilds the trend from empty to `TrendOf(fram, age)` |
| Fram.ReadHistoryEntry | DiaBLE/Sensor.swift:333-346 | one history round: slot, offset and decoded record with id age - delay - 15i |
| Fram.BuildHistory | DiaBLE/Sensor.swift:332-347 | the history loop rebuilds the history from empty to `HistoryOf(fram, age)` |
| Fram.CalibrationBounds | DiaBLE/Sensor.swift:358-366 | each calibration field lies in the range of its bit width: i1 < 8, i2 < 1024, -256 < i3 < 256, and i4, i5, i6 < 2^14 |
| Fram.ReadCalibration | DiaBLE/Sensor.swift:358-366 | the seven `readBits` calls at bytes 2 and 0x150 give the calibration, i3 negated when its sign bit is set |
| Fram.FramReport | DiaBLE/Sensor.swift:414-438 | the report says "did not complete" exactly below 344 bytes; otherwise 3 lines, or 4 at 1904 bytes or more |
| Fram.FramReportFails | DiaBLE/Sensor.swift:419-434 | the report contains FAILED exactly when the header, body, footer or (from 1904 bytes) commands CRC differs from `crc16` of its section |
| Fram.ShortReportNeverFails | DiaBLE/Sensor.swift:415-416 | an image below 344 bytes never reports FAILED |
| Fram.Patch16Reads | DiaBLE/Sensor.swift:477-483 | writing a CRC into two bytes reads back as that CRC and changes no other byte |
| Fram.ChecksummedFram | DiaBLE/Sensor.swift:470-486 | `checksummedFRAM` keeps the length, changes only bytes 0-1, 24-25, 320-321 (and 344-345 above 344 bytes), and the CRC report of the result never fails |
| SensorModel.DecodedImage | DiaBLE/Sensor.swift:271-279 | a Libre 2 image with a failing header CRC and at least 344 bytes is replaced by its 344-byte decryption; any other image is kept |
| SensorModel.DecodeIdempotent | DiaBLE/Sensor.swift:244-279 | once the decrypted image passes the CRC report, decoding it again changes nothing, so the re-entered parse returns |
| SensorModel.ReentryCycles | DiaBLE/Sensor.swift:244-279 | when the header fails both before and after decryption, decoding twice returns the original image, so the `didSet` re-entry never ends |
| SensorModel.GenerationOf | DiaBLE/Sensor.swift:219-225 | Libre 2 gets generation 1 below nibble 9 and 2 from 9 on; Libre Sense uses threshold 4; other families keep the old value |
| SensorModel.ParseOutcome | DiaBLE/Sensor.swift:280-371 | the report computed by the parse is the CRC report of the image |
| SensorModel.ParseOutcomeMeets | DiaBLE/Sensor.swift:280-371 | the parse meets `Parsed`. A failing report leaves everything but state, which becomes unknown. A short encrypted image changes nothing. Otherwise state comes from byte 4. From 320 bytes on, age, initializations, trend and history are set. From 344 bytes on, region, maxLife and calibration are set |
| SensorModel.ParseOutcomeIdempotent | DiaBLE/Sensor.swift:280-371 | parsing an unchanged image again yields the same results |
| SensorModel.ComputeFramReport | DiaBLE/Sensor.swift:414-438 | `updateCRCReport`'s computation gives `FramReport(image)` |
| SensorModel.ReadBody | DiaBLE/Sensor.swift:292-347 | the body read sets age (LE at 316), initializations (byte 318), trend and history, and keeps state and footer fields |
| SensorModel.ReadFooter | DiaBLE/Sensor.swift:349-366 | the footer read sets region (byte 323), maxLife (LE at 326) and calibration, and keeps state and readings |
| SensorModel.ParseImage | DiaBLE/Sensor.swift:280-371 | the parse of a decoded image computes `ParseOutcome` |
| SensorModel.DecodeImage | DiaBLE/Sensor.swift:271-279 | the decoded image, and `encryptedFram` set to the image exactly when its header is encrypted |
| SensorModel.FramParseFacts | DiaBLE/Sensor.swift:244-371 | the corrected parse keeps the encrypted image, parses the decoded one, and meets `Parsed` |
| SensorModel.ParseOutcomeComplete | DiaBLE/Sensor.swift:286 | for a complete image the parse does not depend on `encryptedFram` |
| SensorModel.AsWrittenLosesEncrypted | DiaBLE/Sensor.swift:244-279 | as written, the parse re-entered from `fram = decryptedFRAM` clears `encryptedFram`, so a complete encrypted image ends with it empty, differing from the corrected parse only there |
| SensorModel.EncryptedKeptAsWritten | DiaBLE/Sensor.swift:250-279 | the parse as written keeps an encrypted image exactly for an incomplete image whose header fails, whatever the sensor held before |
| SensorModel.ParseFramImage | DiaBLE/Sensor.swift:270-371 | decode then parse computes `FramParse` |
| SensorModel.ComputeProReport | DiaBLE/LibrePro.swift:234-258 | the Libre Pro report computation gives `ProReport(image)` |
| SensorModel.ProParseOutcome | DiaBLE/LibrePro.swift:80-191 | the Libre Pro parse computes the Libre Pro CRC report |
| SensorModel.ProParseOutcomeMeets | DiaBLE/LibrePro.swift:80-191 | a failing report only sets state to unknown. Otherwise: state from byte 4 (below 176 bytes nothing else); age LE at 74; the trend and history; region at 43; maxLife LE at 46; calibration at 26 and 56 |
| SensorModel.ReadProBody | DiaBLE/LibrePro.swift:93-187 | the Libre Pro body read sets age, trend, history, region, maxLife and calibration, and keeps state and initializations |
| SensorModel.ParseProImage | DiaBLE/LibrePro.swift:80-191 | the Libre Pro parse computes `ProParseOutcome` |
| SensorModel.Sensor.constructor | DiaBLE/Sensor.swift:186-267 | every field starts at its declared default (unknown type and state, empty buffers, unlock code 42, ten zero authentication bytes) |
| SensorModel.Sensor.SetPatchInfo | DiaBLE/Sensor.swift:204-228 | the `patchInfo` observer: type from the table, region = info[3] from 4 bytes on; from 6 bytes on the family from info[2] >> 4 (default Libre 1), the generation rule, and a serial whose first digit becomes the new family's |
| SensorModel.Sensor.SetUid | DiaBLE/Sensor.swift:230-234 | the `uid` observer sets the serial number of the new uid and the current family |
| SensorModel.Sensor.Store | DiaBLE/Sensor.swift:282-366 | stores parse results into the sensor's fields |
| SensorModel.Sensor.UpdateCrcReport | DiaBLE/Sensor.swift:414-438 | `crcReport` becomes the report of the current FRAM |
| SensorModel.Sensor.ParseFram | DiaBLE/Sensor.swift:270-371 | the sensor's FRAM, encrypted FRAM, CRC report and parsed fields become `FramParse` of the old state |
| SensorModel.Sensor.ParseFramAsWritten | DiaBLE/Sensor.swift:244-279 | the same with the re-entrant `didSet`, ending in `FramParseAsWritten` |
| SensorModel.Sensor.ParseProFram | DiaBLE/LibrePro.swift:80-191 | the Libre Pro override sets the report and fields to `ProParseOutcome` |
| SensorModel.Sensor.SetFram | DiaBLE/Sensor.swift:244-279 | assigning `fram` runs the type's parse: the Libre Pro parse, or the re-entrant `parseFRAM` as written, ending in `FramParseAsWritten` of the old state; when the report fails, only state changes, to unknown |
| Libre2.OpIsInvertible | DiaBLE/Libre2.swift:69-82 | the `op` of `processCrypto` has a left inverse |
| Libre2.OpIsOnto | DiaBLE/Libre2.swift:69-82 | every 16-bit word is some `op` result, so `op` is a bijection |
| Libre2.WordBytes | DiaBLE/Libre2.swift:155-162 | the key block spells four words in 8 bytes |
| Libre2.UsefulFunction | DiaBLE/Libre2.swift:102-117 | `usefulFunction` returns exactly 4 bytes |
| Libre2.UsefulFunctionWords | DiaBLE/Libre2.swift:102-117 | those bytes are LE(k[0] ^ 0x4163) followed by LE(k[1] ^ 0x4344), with k = `processCrypto(prepareVariables(id, x, y))` |
| Libre2.WordBytesWords | DiaBLE/Libre2.swift:155-162 | the 8 key bytes read back as k[0] … k[3] |
| Libre2.BlockKeys | DiaBLE/Libre2.swift:151-153 | the loop derives 43 block keys |
| Libre2.KeyBytesBlock | DiaBLE/Libre2.swift:155-162 | bytes 8i … 8i+7 of the keystream are block key i |
| Libre2.DecryptedFram | DiaBLE/Libre2.swift:149-165 | the decrypted FRAM has exactly 43·8 = 344 bytes |
| Libre2.DecryptFram | DiaBLE/Libre2.swift:127-165 | `decryptFRAM` throws exactly for types other than Libre 2 and Libre US 14 day, and otherwise returns the first 344 bytes XOR the keystream |
| Libre2.DecryptStep | DiaBLE/Libre2.swift:151-163 | one round of the loop extends the decrypted prefix by one XORed block |
| Libre2.FramKeyBlock | DiaBLE/Libre2.swift:151-163 | the keystream of block i depends only on type, id, info and i |
| Libre2.DecryptFramTwice | DiaBLE/Libre2.swift:149-163 | decrypting twice returns the first 344 input bytes |
| Libre2.DecryptFramIsBytewise | DiaBLE/Libre2.swift:155-162 | output byte k depends on input byte k only |
| Libre2.BlockArgs | DiaBLE/Libre2.swift:135-147 | Libre US 14 day uses 0xcadc for blocks 0-2 and 40-42 and `UInt16(info[5], info[4])` otherwise; Libre 2 uses that word ^ 0x44 for every block |
| Libre2.StreamingUnlockPayload | DiaBLE/Libre2.swift:243-287 | the payload has 12 bytes, and the first 4 are `enableTime + unlockCount` little-endian; the sum must not overflow `UInt32` |
| Libre2.UnlockPayloadTime | DiaBLE/Libre2.swift:246-252 | those four bytes spell `enableTime + unlockCount` in base 256 |
| Libre2.KeyStream | DiaBLE/Libre2.swift:303-313 | n rounds of the key loop give 8n bytes |
| Libre2.BleKey | DiaBLE/Libre2.swift:296-313 | the BLE key derived from the uid and data[0], data[1] has 64 bytes |
| Libre2.BlePlain | DiaBLE/Libre2.swift:315-317 | `data[2...]` XOR the key has `count - 2` bytes |
| Libre2.DecryptBle | DiaBLE/Libre2.swift:295-327 | `decryptBLE` succeeds exactly when `crc16(result[0..<42])` equals LE(result[42..43]), and then returns the XORed bytes |
| Libre2.BleRoundTrip | DiaBLE/Libre2.swift:295-317 | decrypting a packet made of two seed bytes and a plaintext XORed with their key gives back the plaintext |
| Libre2Ble.BleReadings | DiaBLE/Libre2.swift:345-385 | the packet yields exactly 10 readings |
| Libre2Ble.BleReadingsShape | DiaBLE/Libre2.swift:345-385 | readings 0-6 have ids wear - {0,2,4,6,7,12,15}; readings 7-9 have ids ((wear-2)/15)·15 - 15k with truncating `/`; `hasError` holds exactly at raw value 0; raw values are below 2^14 |
| Libre2Ble.BleHistoryIds | DiaBLE/Libre2.swift:362 | for wear ≥ 2 the newest history id is a multiple of 15 between wear-16 and wear-2 |
| Libre2Ble.BlePrefixEntries | DiaBLE/Libre2.swift:345-385 | the readings appended by the loop are the readings in order |
| Libre2Ble.ReadBleEntry | DiaBLE/Libre2.swift:346-378 | one round decodes the 4-byte reading i and its id |
| Libre2Ble.ReadBleReadings | DiaBLE/Libre2.swift:345-385 | the loop splits the readings into 7 trend and 3 history readings |
| Libre2Ble.SentinelKeys | DiaBLE/Libre2.swift:393-397 | the sentinel map holds exactly the ids top - step·j for j < n, each mapped to a -1 reading |
| Libre2Ble.MinuteKeys | DiaBLE/Libre2.swift:393-397 | the trend sentinels cover exactly the ids wear-15 … wear |
| Libre2Ble.QuarterKeys | DiaBLE/Libre2.swift:410-414 | the history sentinels cover exactly the ids in (last - 480, last] on the 15-minute grid |
| Libre2Ble.SentinelCount | DiaBLE/Libre2.swift:393-414 | n sentinels with a positive step have n distinct ids |
| Libre2Ble.OverlayAt | DiaBLE/Libre2.swift:398-402 | after the overlay an id is present iff it was, or some reading above the bound has it, and the last such reading wins |
| Libre2Ble.LastWithIdFound | DiaBLE/Libre2.swift:398-402 | every reading's id is found among the readings |
| Libre2Ble.LastWithIdIn | DiaBLE/Libre2.swift:398-402 | a found reading is one of the readings, with that id |
| Libre2Ble.SortedDescFacts | DiaBLE/Libre2.swift:403 | `values.sorted(by: >)` lists each key's value once, with strictly decreasing ids |
| Libre2Ble.Prefix | DiaBLE/Libre2.swift:403 | `prefix(n)` keeps the first min(n, count) entries |
| Libre2Ble.TrimMissing | DiaBLE/Libre2.swift:420-423 | dropping sentinels from the oldest end keeps a prefix of the newest-first list whose oldest entry is not a sentinel |
| Libre2Ble.TrendMergeShape | DiaBLE/Libre2.swift:391-403 | the merged trend has exactly 16 entries with strictly decreasing ids |
| Libre2Ble.TrendMergeMinutes | DiaBLE/Libre2.swift:391-403 | when no reading has an id above wear, entry i has id wear - i and is the last reading with that id, or a -1 sentinel |
| Libre2Ble.HistoryMergeShape | DiaBLE/Libre2.swift:406-424 | the merged history has at most 32 entries, strictly decreasing ids, and an oldest entry that is not a sentinel when the trimmed list fits |
| Libre2Ble.HistoryMergeOnGrid | DiaBLE/Libre2.swift:406-424 | when all readings lie on the 15-minute grid at or below the newest history id, the oldest merged entry is never a sentinel |
| Libre2Ble.MergeTrend | DiaBLE/Libre2.swift:391-403 | the dictionary loops compute the merged trend |
| Libre2Ble.MergeHistory | DiaBLE/Libre2.swift:406-424 | the dictionary loops compute the merged history |
| Libre2Ble.ParseBleData | DiaBLE/Libre2.swift:334-427 | `parseBLEData` returns the 10 readings, sets age to wear, turns an unknown state active, and merges trend and history |
| LibrePro.ProReport | DiaBLE/LibrePro.swift:234-258 | "did not complete" exactly below 176 bytes, otherwise three lines in the order header, footer, body |
| LibrePro.ProReportFails | DiaBLE/LibrePro.swift:234-258 | FAILED exactly when a CRC differs: header 2 ..< 40 vs 0-1, footer 42 ..< 72 vs 40-41, body 74 ..< 176 vs 72-73 |
| LibrePro.Masked | DiaBLE/LibrePro.swift:114 | the masked trend reading keeps its id and has raw value and value `rawValue mod 8192` |
| LibrePro.ProTrendOf | DiaBLE/LibrePro.swift:109-125 | the Libre Pro trend has exactly 16 entries |
| LibrePro.ProTrendIds | DiaBLE/LibrePro.swift:109-125 | trend entry i has id age - i and a raw value below 8192 |
| LibrePro.ProTrendStep | DiaBLE/LibrePro.swift:109-125 | trend entry i is the masked record at 80 + 6·slot(trendIndex, i) |
| LibrePro.ReadProTrendEntry | DiaBLE/LibrePro.swift:110-124 | one trend round reads that masked record |
| LibrePro.BuildProTrend | DiaBLE/LibrePro.swift:107-125 | the trend loop rebuilds the trend from empty to `ProTrendOf` |
| LibrePro.ProHistorySlotFits | DiaBLE/LibrePro.swift:139-151 | a history record that is read lies inside the image |
| LibrePro.ProHistorySkip | DiaBLE/LibrePro.swift:141-151 | a history slot is skipped exactly when its offset is past the image and the fallback offset from the scanned prefix is too |
| LibrePro.ProHistoryPrefixNext | DiaBLE/LibrePro.swift:139-165 | each round appends its record or, when skipped, nothing |
| LibrePro.ProHistoryIds | DiaBLE/LibrePro.swift:139-165 | after n rounds at most n entries, ids above age - delay - 15n, strictly decreasing |
| LibrePro.ProHistoryShape | DiaBLE/LibrePro.swift:139-165 | the Libre Pro history has at most 32 entries with strictly decreasing ids |
| LibrePro.ProHistoryFull | DiaBLE/LibrePro.swift:139-165 | when no slot is skipped, n rounds give exactly n entries |
| LibrePro.ReadProHistoryEntry | DiaBLE/LibrePro.swift:140-164 | one history round reads a record or skips |
| LibrePro.BuildProHistory | DiaBLE/LibrePro.swift:137-165 | the history loop computes `ProHistoryOf` |
| LibrePro.ProHistoryReadBounds | DiaBLE/LibrePro.swift:51-54 | for every 16-bit history index startIndex ≥ 0, offset ∈ {0,2,4,6} and 0 ≤ blockCount ≤ 25 |
| LibrePro.FlooredReadIsNegative | DiaBLE/LibrePro.swift:52-54 | under floored division index 0 would give -1 blocks; the model uses Swift's truncation, giving 0 |
| LibrePro.SliceOverrunsAtIndex6 | DiaBLE/LibrePro.swift:65-66 | as written, index 6 reads 3 blocks (24 bytes) and slices 2 ..< 26 |
| LibrePro.SliceOverrunsAtIndex0 | DiaBLE/LibrePro.swift:65-66 | as written, index 0 reads no block and slices 6 ..< 6 |
| LibrePro.HistorySliceFits | DiaBLE/LibrePro.swift:51-66 | the corrected slice lies inside the bytes read and holds whole 6-byte measurements; what is left after it is shorter than one measurement plus the offset |
| Nfc.Backdoor | DiaBLE/NFC.swift:32-38 | the backdoor always has 4 bytes |
| Nfc.BackdoorCommands | DiaBLE/NFC.swift:32-59 | c2ad7521 for Libre 1, c2ad0090 for Libre Pro/H, deadbeef otherwise; the lock (A2), raw-read (A3) and unlock (A4) commands all carry it |
| Nfc.EffectiveSecret | DiaBLE/NFC.swift:109-119 | the secret used is never 0, and is the given one whenever that is non-zero |
| Nfc.NfcCommandFor | DiaBLE/NFC.swift:109-119 | code 0xA1 with parameters [sub] ++ params, and for sub < 0x20 the 4 bytes `usefulFunction(uid, sub, secret)` appended |
| Nfc.NfcCommandSecrets | DiaBLE/NFC.swift:109-119 | secret 0 acts as 0x1b6a; for sub ≥ 0x20 neither uid nor secret matters |
| Nfc.ActivationCommand | DiaBLE/NFC.swift:40-51 | A0 with the backdoor for Libre 1, A0 with backdoor and key (20 bytes) for Libre Pro/H, A1 1B with `usefulFunction(uid, 0x1b, 0x1b6a)` for Libre 2, and an empty command otherwise |
| Nfc.RepliesSnoc | DiaBLE/NFC.swift:514-559 | the replies to one more request are the old replies followed by the tag's reply to the whole history so far |
| Nfc.FailuresSnoc | DiaBLE/NFC.swift:543-554 | one more failed reply adds one failure |
| Nfc.Shrink | DiaBLE/NFC.swift:533-537 | `requested` stays as it is while `remaining` covers it, and otherwise lies in 1 … requested |
| Nfc.Read | DiaBLE/NFC.swift:514-559 | the `read` loop computes `ReadSpec` |
| Nfc.ReadLoopFailures | DiaBLE/NFC.swift:522-556 | the loop never traps, throws only `NFCError.read`, and throws exactly at the (retries+1)-th failure overall |
| Nfc.ReadRetries | DiaBLE/NFC.swift:514-559 | `read` throws exactly when the tag has failed retries+1 times in total, since the counter is never reset |
| Nfc.ReadLoopExact | DiaBLE/NFC.swift:522-556 | with 8-byte block replies, a loop that starts consistent ends with 8·blocks bytes |
| Nfc.ReadExact | DiaBLE/NFC.swift:514-559 | with 8-byte block replies and blocks ≥ requesting, the result has exactly 8·blocks bytes |
| Nfc.ReadOverReads | DiaBLE/NFC.swift:527-537 | with blocks < requesting, one request for `requesting` blocks returns more than 8·blocks bytes |
| Nfc.WordBytes | DiaBLE/NFC.swift:580-588 | the low and high bytes of a block number rebuild it |
| Nfc.CountBytes | DiaBLE/NFC.swift:580-588 | the count byte n-1 encodes 1 … 256 blocks |
| Nfc.ReadBlocksCommand | DiaBLE/NFC.swift:578-589 | a command exists exactly for block ≤ 0xFFFF and 1 … 256 blocks |
| Nfc.ReadBlocksIsNfcCommand | DiaBLE/NFC.swift:585-589 | for generation > 1 and block ≤ 255 the read is `nfcCommand(.readBlocks, [blk, n-1])` |
| Nfc.ReadBlocksCommandDecodes | DiaBLE/NFC.swift:578-589 | every read command names its block and count; A1 exactly for generation > 1 and block ≤ 255, B0 exactly for one block otherwise |
| Nfc.FramBlocksDecode | DiaBLE/NFC.swift:585-589 | `A1 21 [blk, n-1]` reads n blocks from blk |
| Nfc.SingleBlockDecodes | DiaBLE/NFC.swift:579-581 | `B0 [lo, hi]` reads one block |
| Nfc.MultipleBlocksDecode | DiaBLE/NFC.swift:578 | `B3 [lo, hi, n-1]` reads n blocks |
| Nfc.ReadBlocks | DiaBLE/NFC.swift:562-623 | the `readBlocks` loop computes `ReadBlocksSpec` |
| Nfc.ReadBlocksStep | DiaBLE/NFC.swift:590-607 | an answered round appends the payload and lowers `remaining` by `requested` |
| Nfc.ReadBlocksFailedStep | DiaBLE/NFC.swift:609-619 | a failed round throws `readBlocks` |
| Nfc.AnswerSize | DiaBLE/NFC.swift:597-602 | a tag that answers n blocks sends 8n bytes after its lead |
| Nfc.ReadBlocksLoopNoRetry | DiaBLE/NFC.swift:576-621 | only the last request can have failed, and exactly then the loop throws `readBlocks` |
| Nfc.ReadBlocksNoRetry | DiaBLE/NFC.swift:562-623 | `commandNotSupported` with nothing sent exactly when generation < 1 and the type is not Libre Pro/H; otherwise any failure throws at once with no retry |
| Nfc.ReadBlocksLoopExact | DiaBLE/NFC.swift:576-621 | the loop throws or returns exactly 8·blocks bytes |
| Nfc.ReadBlocksExact | DiaBLE/NFC.swift:562-623 | with answering tags `readBlocks` throws `readBlocks` or returns exactly 8·blocks bytes, the 8 leading reply bytes stripped for generation > 1 |
| Nfc.RawWords | DiaBLE/NFC.swift:640-645 | each round asks for 1 … 12 words |
| Nfc.RawCommand | DiaBLE/NFC.swift:647 | A3 with the backdoor and three more bytes |
| Nfc.RawCommandDecodes | DiaBLE/NFC.swift:647 | those bytes are the address little-endian and the word count |
| Nfc.RawTrim | DiaBLE/NFC.swift:655-656 | trimming an odd address's first byte and the excess keeps at least one byte of a reply of two or more |
| Nfc.RawRoundOf | DiaBLE/NFC.swift:649-664 | a round stops with `customCommandError` or a trap, or appends at most the reply's bytes |
| Nfc.RawWanted | DiaBLE/NFC.swift:640-645 | a round wants 1 … min(remaining, 24) bytes |
| Nfc.ReadRaw | DiaBLE/NFC.swift:628-669 | the `readRaw` loop computes `RawReadSpec` |
| Nfc.RawReadRound | DiaBLE/NFC.swift:636-666 | one round either ends the loop or lowers `remainingBytes` |
| Nfc.RawExactRound | DiaBLE/NFC.swift:640-656 | a reply of 2·words bytes yields 1 … wanted bytes, all of them unless the address is odd and 24 or more remain |
| Nfc.RawStep | DiaBLE/NFC.swift:636-666 | the loop is one round followed by the rest |
| Nfc.RawExactAppends | DiaBLE/NFC.swift:649-656 | an exact answer appends between 1 and `remaining` bytes |
| Nfc.RawLoopLength | DiaBLE/NFC.swift:636-666 | the loop throws only `customCommandError` and returns at least `bytes` bytes |
| Nfc.RawLoopExact | DiaBLE/NFC.swift:636-666 | with exact answers it returns exactly `bytes` bytes |
| Nfc.RawReadLength | DiaBLE/NFC.swift:628-669 | `commandNotSupported` with nothing sent exactly when the type is not Libre 1; otherwise `customCommandError` or at least (with exact answers exactly) `bytes` bytes |
| Nfc.BlockAt | DiaBLE/NFC.swift:754-757 | block i of the data is its 8 bytes at 8i |
| Nfc.BlocksFrom | DiaBLE/NFC.swift:754-757 | n consecutive blocks, in order |
| Nfc.WriteRequest | DiaBLE/NFC.swift:750-758 | a write request starts at `startIndex` and carries 2 blocks, or 1 at the last block |
| Nfc.Write | DiaBLE/NFC.swift:744-764 | the `write(fromBlock:)` loop computes `WriteLoop` |
| Nfc.FlattenBlocks | DiaBLE/NFC.swift:754-757 | the bytes of blocks from..from+n are data[8·from ..< 8·(from+n)] |
| Nfc.WritePlanPartitions | DiaBLE/NFC.swift:744-764 | request k starts at startIndex + 2k with 1 or 2 blocks (2 except the last), and together they carry data[8·(startIndex-startBlock) ..< 8·(count/8)] in order |
| Nfc.WritePlanStep | DiaBLE/NFC.swift:750-762 | the plan is one request followed by the plan after it |
| Nfc.WritePlanShape | DiaBLE/NFC.swift:750-762 | the requests' starts and sizes partition the blocks |
| Nfc.WritePlanWritten | DiaBLE/NFC.swift:754-757 | the requests carry the data's whole blocks in order |
| Nfc.WriteFollowsPlan | DiaBLE/NFC.swift:744-764 | `write` sends a prefix of the plan; all of it when done; at the first failed reply it throws `NFCError.write`; it never traps |
| Nfc.RawWindowCovers | DiaBLE/NFC.swift:685-688 | the window is 8-aligned, starts at most 7 bytes before the address and covers [address, address+count) with no block to spare |
| Nfc.PatchOnlyChanges | DiaBLE/NFC.swift:693 | `replaceSubrange` puts the data at the offset and changes no other byte |
| Nfc.RawWritePlanAsWritten | DiaBLE/NFC.swift:700-730 | `writeRaw`, as written, sends ⌈blocks/2⌉ write requests |
| Nfc.AsWrittenPlanShape | DiaBLE/NFC.swift:713-724 | as written, request k goes to block startBlock - 0xF860/8 + 2k but carries the window's first one or two blocks; it is the corrected request exactly when those bytes equal the bytes of its own blocks |
| Nfc.AsWrittenRequestShape | DiaBLE/NFC.swift:713-724 | the same for one request |
| Nfc.BlocksAgree | DiaBLE/NFC.swift:708-710 | two runs of 8-byte blocks are equal exactly when their bytes are |
| Nfc.RawWriteRequest | DiaBLE/NFC.swift:700-730 | corrected: request i starts at block startBlock - 0xF860/8 + 2i with the planned count |
| Nfc.RawWritePlan | DiaBLE/NFC.swift:700-730 | corrected: ⌈blocks/2⌉ write requests |
| Nfc.AsWrittenRepeatsFirstBlock | DiaBLE/NFC.swift:720 | as written, with 24 bytes at 0xF860 the second request carries block 0 instead of block 2 |
| Nfc.AsWrittenAgreesUpToTwoBlocks | DiaBLE/NFC.swift:720 | as written and corrected agree below three blocks |
| Nfc.RawWritePlanFrom | DiaBLE/NFC.swift:700-730 | corrected: the requests from i on carry the bytes from request i's first block on |
| Nfc.RawWritePlanStep | DiaBLE/NFC.swift:700-730 | corrected: each request carries the next bytes in order |
| Nfc.RawWriteRequestBytes | DiaBLE/NFC.swift:715-724 | corrected: request i carries bytes RawWriteFrom(i) ..< RawWriteFrom(i+1) |
| Nfc.RawWritePlanCovers | DiaBLE/NFC.swift:700-730 | the corrected requests carry the window's whole blocks in order, request k at the first block + 2k |
| Nfc.SendAllStep | DiaBLE/NFC.swift:700-730 | sending stops at the first failed reply |
| Nfc.SendAllPrefix | DiaBLE/NFC.swift:700-730 | the requests sent are a prefix of the plan, all answered but a failing last one |
| Nfc.WriteRaw | DiaBLE/NFC.swift:674-741 | the `writeRaw` steps compute `WriteRawSpec`: unlock, read the window, patch, send the block writes as written, lock |
| Nfc.WriteBack | DiaBLE/NFC.swift:700-732 | the write loop, which takes `blocksToWrite[j - startIndex]`, and the lock that follows it compute the tail of `WriteRawSpec` with the plan as written |
| Nfc.RawWriteBlocksSliceAsWritten | DiaBLE/NFC.swift:719-720 | as written, request i carries blocks 0 ..< count of the window |
| Nfc.RawWriteBlocksSlice | DiaBLE/NFC.swift:715-724 | corrected: request i carries blocks 2i ..< 2i + count of the window |
| Nfc.RawLoopCompletes | DiaBLE/NFC.swift:636-666 | the raw read loop never traps on exact answers and completes when every request is answered |
| Nfc.WriteRawThrows | DiaBLE/NFC.swift:674-741 | `writeRaw` throws exactly when the type is not Libre 1, only `commandNotSupported` and before any I/O; it starts with unlock |
| Nfc.WriteRawNoTrap | DiaBLE/NFC.swift:674-741 | on exact answers `writeRaw` never traps |
| Nfc.WriteRawWritesWindow | DiaBLE/NFC.swift:674-741 | when every request is answered, the window is read whole and patched with the data at its offset, ⌈blocks/2⌉ writes follow as written, write k at the first block + 2k carrying the window's first bytes, and lock comes last; below three blocks the writes carry the whole patched window |
| NfcTools.Forget | DiaBLE/NFCTools.swift:27-298 | a step's result keeps completion, the thrown error, and a trap |
| NfcTools.RunOps | DiaBLE/NFCTools.swift:27-298 | running operations in sequence only adds requests; the FRAM changes only by a read, and then to an image the sensor's parse accepts, else the run traps |
| NfcTools.AfterFram | DiaBLE/NFCTools.swift:50 | after `sensor.fram = Data(data)` only the encrypted image can change: outside the Libre Pro layout one is kept exactly for an incomplete image whose header fails |
| NfcTools.Caught | DiaBLE/NFCTools.swift:134-138 | the `catch` that logs keeps FRAM, requests and trap and never throws |
| NfcTools.ProlongPatch | DiaBLE/NFCTools.swift:206-213 | the prolong patch keeps the footer's length |
| NfcTools.ProlongPatchFacts | DiaBLE/NFCTools.swift:206-213 | footer bytes 6-7 become FF FF (maxLife 65535), bytes 0-1 become `crc16(bytes 2 ..< 24)`, and no byte from 2 on changes otherwise |
| NfcTools.PatchFooter | DiaBLE/NFCTools.swift:206-213 | the in-place patch computes `ProlongPatch` |
| NfcTools.ProlongOps | DiaBLE/NFCTools.swift:215-221 | prolong runs 3 operations |
| NfcTools.ResetPatch | DiaBLE/NFCTools.swift:116-122 | the reset patch keeps the section's length |
| NfcTools.ResetPatchFacts | DiaBLE/NFCTools.swift:109-122 | both the E0 and A1 offsets lie inside the 1560-byte commands section; the A1 slot gets the E0 address; bytes 0-1 become the CRC over 2 ..< 1560; nothing else changes |
| NfcTools.PatchCommands | DiaBLE/NFCTools.swift:116-122 | the in-place patch computes `ResetPatch` |
| NfcTools.ResetOps | DiaBLE/NFCTools.swift:126-135 | the Libre 1 reset runs 6 operations |
| NfcTools.ResetRestores | DiaBLE/NFCTools.swift:126-135 | write the A1 slot, write the CRC, trigger with A1, then write back the original A1 address and the CRC, which is the original when that was valid |
| NfcTools.ProResetOps | DiaBLE/NFCTools.swift:143-188 | the Libre Pro reset runs 27 operations |
| NfcTools.ProResetBlocks | DiaBLE/NFCTools.swift:143-188 | unlock first, lock last, and 22 writes of 8 bytes at blocks 0 … 21 between |
| NfcTools.DumpCount | DiaBLE/NFCTools.swift:60-61 | dump reads 43 blocks for generation > 1, otherwise 89 with encrypted FRAM held and 1252 without |
| NfcTools.DumpRun | DiaBLE/NFCTools.swift:27-92 | dump never throws; its `readBlocks` count is `DumpCount` of the facts the FRAM assignment leaves |
| NfcTools.DumpCountAfterRead | DiaBLE/NFCTools.swift:49-61 | after the FRAM read, at generation 1 or below, the dump asks for 89 blocks exactly when the image read was incomplete with a failing header, and 1252 otherwise |
| NfcTools.ResetGate | DiaBLE/NFCTools.swift:95-194 | reset throws `commandNotSupported` with nothing sent exactly when the type is not Libre 1 or Libre Pro/H, and otherwise only `customCommandError` |
| NfcTools.ProlongGate | DiaBLE/NFCTools.swift:197-226 | prolong is refused exactly for types other than Libre 1, and otherwise throws only `customCommandError` |
| NfcTools.ReadBackThrows | DiaBLE/NFCTools.swift:297-298 | the final read-back throws only `NFCError.read` |
| NfcTools.UnlockGate | DiaBLE/NFCTools.swift:229-251 | unlock is refused exactly for generation < 1 |
| NfcTools.ActivateGate | DiaBLE/NFCTools.swift:254-298 | activate is refused exactly for generation > 1 |
| NfcTools.ExecuteGates | DiaBLE/NFCTools.swift:27-298 | for every task the gate holds, and past it dump never throws, reset and prolong throw only `customCommandError`, and unlock and activate only `NFCError.read` |
| NfcTools.ScanBytes | DiaBLE/NFCTools.swift:77 | the scanned length lies within the data |
| NfcTools.ScanSections | DiaBLE/NFCTools.swift:77-87 | every section found starts where the previous ended and begins with the CRC16 of the bytes after it |
| NfcTools.DumpScan | DiaBLE/NFCTools.swift:77-87 | the scan loop computes `ScanLoop`, so it terminates |
| NfcTools.RunStep | DiaBLE/NFCTools.swift:27-298 | a step computes `RunOp` |
| NfcTools.RunSteps | DiaBLE/NFCTools.swift:27-298 | a sequence of steps computes `RunOps` |
| NfcTools.ExecuteTask | DiaBLE/NFCTools.swift:27-298 | `execute` computes `Execute` |
| Gen2.FirstWithValueFinds | DiaBLE/Gen2.swift:41-49 | the scan over `allCases` finds a case exactly when one has that raw value, and returns it |
| Gen2.ErrorOfValueInverts | DiaBLE/Gen2.swift:26-49 | `Gen2Error(value: e.rawValue) == e`, and any other value gives `GEN2_ERROR_MISSING_NATIVE` |
| Gen2.OrdinalBijective | DiaBLE/Gen2.swift:51-67 | `ordinal` maps the 13 cases one-to-one onto 1 … 13 |
| Gen2.ErrorReturn | DiaBLE/Gen2.swift:103 | the returned error is the error's raw value or -99, always negative |
| Gen2.GetAuthenticatedCommandBle | DiaBLE/Gen2.swift:94-107 | a negative auth context is returned unchanged without `p2`; no data calls `endSession` and returns the error; otherwise output becomes the data and the context is returned |
| Gen2.GetAuthenticatedCommandNfc | DiaBLE/Gen2.swift:109-123 | the same three cases; the splice traps exactly for data below 4 bytes; otherwise output[0…3] = [2, 0xA1, 7, command] and the rest is the data |
| Gen2.VerifyCommandResponse | DiaBLE/Gen2.swift:178-187 | on no data `endSession` and the error; otherwise output becomes the data and its length is returned |
| Gen2.VerifyEnableStreamingResponse | DiaBLE/Gen2.swift:190-208 | the error paths; traps exactly on short buffers; otherwise authenticationData = pvalues ++ verified[6…8] ++ its rest, output[0..<6] = verified.prefix(6), and 0 returned |
| Oop.ArrowDescriptionsDistinct | DiaBLE/OOP.swift:82-92 | the named trend arrows have distinct descriptions |
| Oop.ArrowOfString | DiaBLE/OOP.swift:94-102 | `TrendArrow(string:)` returns the case whose description matches, and `unknown` when none does |
| Oop.AlarmDescriptionsDistinct | DiaBLE/OOP.swift:125-135 | the named alarms have distinct descriptions |
| Oop.AlarmOfString | DiaBLE/OOP.swift:137-145 | `Alarm(string:)` returns the case whose description matches, and `unknown` when none does |
| Oop.Reversed | DiaBLE/OOP.swift:231-233 | `reversed()` puts element k at count-1-k |
| Oop.OrientedNewestFirst | DiaBLE/OOP.swift:230-233 | the oriented history is a permutation of the response whose first id is ≥ its last, unchanged when already so |
| Oop.ReversedSameElements | DiaBLE/OOP.swift:232 | reversal keeps the multiset of entries |
| Oop.Entry | DiaBLE/OOP.swift:235 | each entry keeps value, id and data quality |
| Oop.HistoryResponse.constructor | DiaBLE/OOP.swift:160-163 | a response starts with `currentGlucose` 0 and no history values |
| Oop.HistoryResponse.GlucoseData | DiaBLE/OOP.swift:225-239 | `currentGlucose` becomes the real-time value and `historyValues`, returned, holds one entry per oriented historic value |
| Oop.EndpointFor | DiaBLE/OOP.swift:333 | no patch info gives calibration; empty bytes activation; 1-46 bytes BLE history; more than 46 bytes history when the session is "", else history and calibration |
| Oop.PostUrl | DiaBLE/OOP.swift:333 | the URL is the site URL, "/", and the selected endpoint |
| Oop.QueryShape | DiaBLE/OOP.swift:335-358 | `content` only for non-empty bytes. With patch info: 6 items from `accesstoken` to `session`, plus 2 at exactly 46 bytes. Without: token and timestamp. A patch info with no uid traps on its force unwrap |
| Oop.DropStaleFirst | DiaBLE/OOP.swift:551-556 | the OOP history is kept or loses a leading 0-value entry |
| Oop.Filler | DiaBLE/OOP.swift:559 | `repeating:count:` gives max(n, 0) copies of the filler |
| Oop.AsWrittenShowsThirtyOne | DiaBLE/OOP.swift:550-560 | as written, a 20-entry history whose first entry is dropped ends with 31 entries |
| Oop.ShownHistoryPads | DiaBLE/OOP.swift:550-560 | the corrected padding brings a non-empty history below 32 entries to exactly 32 with -1 sentinels after the kept entries |
| AbbottDevice.AdvertisedUid | DiaBLE/Devices/Abbott.swift:122-131 | uid = data[2…7] ++ [07, e0] when count > 7 and data[7] = 0xa4, otherwise unchanged |
| AbbottDevice.LoginMovesForward | DiaBLE/Devices/Abbott.swift:138-155 | the state moves only forward, challengeResponse → getSessionInfo → authenticated; other states change nothing; authenticated is reached exactly by an 18-byte packet completing 25 bytes of session info |
| AbbottDevice.LoginHandshake | DiaBLE/Devices/Abbott.swift:138-155 | 14, 7 and 18 bytes in turn reach authenticated with session info = the 7 ++ the 18 bytes |
| AbbottDevice.Assembled | DiaBLE/Devices/Abbott.swift:162-167 | a 20-byte fragment restarts the buffer, any other appends |
| AbbottDevice.CompositeBuffer | DiaBLE/Devices/Abbott.swift:162-242 | decryption only at exactly 46 bytes, and a failure (CRC mismatch) empties the buffer |
| AbbottDevice.CompositeReassembly | DiaBLE/Devices/Abbott.swift:160-171 | fragments of 20, 18 and 8 bytes assemble the 46-byte packet, decrypting only at the third |
| AbbottDevice.Libre3Buffer | DiaBLE/Devices/Abbott.swift:248-255 | an empty buffer takes the fragment; a 20-byte buffer is cleared by a 5-byte fragment and otherwise appends it; other buffers stay |
| AbbottDevice.Abbott.constructor | DiaBLE/Devices/Abbott.swift:115-120 | not authenticated, no session info, uid or buffer |
| AbbottDevice.Abbott.ParseManufacturerData | DiaBLE/Devices/Abbott.swift:122-131 | uid becomes `AdvertisedUid` |
| AbbottDevice.Abbott.ReadLogin | DiaBLE/Devices/Abbott.swift:138-155 | the `bleLogin` step |
| AbbottDevice.Abbott.ReadComposite | DiaBLE/Devices/Abbott.swift:158-243 | the buffer step; after a successful decryption the sensor's age is the wear time, an unknown state turns active and history is merged by `parseBLEData` |
| AbbottDevice.Abbott.ReadLibre3 | DiaBLE/Devices/Abbott.swift:248-268 | the Libre 3 buffer step |
| AbbottDevice.Abbott.Read | DiaBLE/Devices/Abbott.swift:133-273 | `read` dispatches on the characteristic; each branch changes only its own state |
| BubbleDevice.ReadCommand | DiaBLE/Devices/Bubble.swift:55-57 | exactly [0x00, 0x00, interval] |
| BubbleDevice.Digits | DiaBLE/Devices/Bubble.swift:84-108 | a version byte has at least one decimal digit |
| BubbleDevice.VersionComparisons | DiaBLE/Devices/Bubble.swift:84-108 | the firmware tests compare "a.b" as a decimal: 2.6, 2.60 and 3.0 are ≥ 2.6, 2.5 and 2.10 are not; 1.3 and 0.99 are below 1.35, 1.35 and 1.4 are not |
| BubbleDevice.StartCommandFor | DiaBLE/Devices/Bubble.swift:84-94 | 08 01 00 00 00 2B exactly when firmware ≥ 2.6 and the stored type is Libre 2 or Libre US 14 day, else 02 01 00 00 00 2B |
| BubbleDevice.PatchInfoBytes | DiaBLE/Devices/Bubble.swift:106-110 | 6 bytes, data[3…8] below firmware 1.35 and data[5…10] otherwise |
| BubbleDevice.ChallengeReassembly | DiaBLE/Devices/Bubble.swift:112-122 | a 20-byte packet into the empty buffer keeps 15 bytes after byte 5, and a 17-byte packet completes 28 and clears it |
| BubbleDevice.ChallengeKeepsOthers | DiaBLE/Devices/Bubble.swift:112-122 | a buffer of any size other than 0, 15 or 28 bytes is left alone |
| BubbleDevice.BufferedPayloads | DiaBLE/Devices/Bubble.swift:124-127 | data packets append all but their 4-byte headers |
| BubbleDevice.FramImageStable | DiaBLE/Devices/Bubble.swift:128-131 | once 344 bytes are buffered, more packets do not change the first 344 |
| BubbleDevice.Bubble.constructor | DiaBLE/Device.swift:58-69 | no battery reading, firmware, hardware, address, buffer, writes or sensor (`sensor` is nil, DiaBLE/Device.swift:150) |
| BubbleDevice.Bubble.ParseManufacturerData | DiaBLE/Devices/Bubble.swift:60-71 | macAddress = data[2…7] reversed, firmware d8.d9, hardware d10.d11, battery only when count > 12 |
| BubbleDevice.Bubble.ReadDataInfo | DiaBLE/Devices/Bubble.swift:84-94 | battery, firmware and hardware from the packet, and the start command written |
| BubbleDevice.Bubble.ReadDataPacket | DiaBLE/Devices/Bubble.swift:124-133 | appends the payload; once at 344 bytes or more, the sensor's FRAM is set to the first 344 and parsed |
| BubbleDevice.Bubble.ReadSensorResponse | DiaBLE/Devices/Bubble.swift:101-133 | serial: uid = data[2…9]; patch info: `PatchInfoBytes`; challenge: `ChallengeBuffer`; data packets: appended; others nothing |
| BubbleDevice.Bubble.Read | DiaBLE/Devices/Bubble.swift:74-136 | `read` dispatches on the response type: no sensor changes nothing, data info writes the start command, the rest reach the sensor |
| BluConDevice.RequestBytesDistinct | DiaBLE/Devices/BluCon.swift:71-95 | distinct requests have distinct bytes |
| BluConDevice.Write | DiaBLE/Devices/BluCon.swift:99-103 | `write(request:)` logs the request and leaves `currentRequest` equal to it |
| BluConDevice.StepWritesAtMostOne | DiaBLE/Devices/BluCon.swift:111-201 | each notification writes at most one request, which becomes `currentRequest` |
| BluConDevice.HappyPath | DiaBLE/Devices/BluCon.swift:118-198 | wake-up, sensor info, ack, firmware, battery, patch info and 344 bytes of blocks write sensorInfo, ack, firmware, battery, patchInfo, fram, sleep in that order |
| BluConDevice.BlocksFill | DiaBLE/Devices/BluCon.swift:187-198 | block replies append data after byte 4, and sleep is written exactly when the buffer reaches 344 bytes |
| BluConDevice.BluCon.constructor | DiaBLE/Device.swift:58-69 | no request (`currentRequest` is `.none`, Devices/BluCon.swift:97), buffer, battery reading, firmware, writes or sensor |
| BluConDevice.BluCon.WriteRequest | DiaBLE/Devices/BluCon.swift:99-103 | the state becomes `Write` of the old state |
| BluConDevice.BluCon.ReadSensorInfo | DiaBLE/Devices/BluCon.swift:137-149 | uid = data[3…10], state from data[17] (kept when unknown), then ack if active, else sleep |
| BluConDevice.BluCon.ReadPatchUidInfo | DiaBLE/Devices/BluCon.swift:173-185 | patchInfo = data[3…] or uid = data[4…] by `currentRequest`, then fram either way |
| BluConDevice.BluCon.ReadBlocks | DiaBLE/Devices/BluCon.swift:187-198 | appends data after byte 4; at exactly 344 bytes the sensor FRAM is set and parsed and sleep written |
| BluConDevice.BluCon.Read | DiaBLE/Devices/BluCon.swift:111-201 | `read` is the state-machine step: empty, timeout, no-sensor and wake-up notifications leave the sensor alone, the replies update it as above |
| BluConDevice.BluCon.ReadSensorReply | DiaBLE/Devices/BluCon.swift:137-198 | the reply branches taken once a sensor exists |

## Left out

- The NFC session itself (CoreNFC callbacks, async tasks, audio, `send`) is not modelled.
  The tag is an oracle from the requests sent so far to a reply, so only the order of requests is kept.
- Dates, `lastReadingDate`, `Task.sleep`, logging, hex dumps and `DispatchQueue.main.async` settings writes are left out.
  These are clocks and side effects. Ids are kept as integers.
- The glucose `value` conversion, `factoryGlucose`, temperature conversion and reading dates are left out, because those helpers are not shown.
  The model keeps `value == rawValue` and uses -1 for sentinels.
- Floating point is left out. Bubble's `Double(firmware)` tests are computed exactly on the two version bytes as a rational comparison.
  The `ceil(Double)` in `writeRaw` is ⌈blocks/2⌉ in integers, and the `floor(Float)`/`floor(Double)` in `readBits`/`writeBits` is integer division.
- Nfc.ReadRaw: requires that each A3 reply has at least two bytes (`RawAnswersWords`).
  With shorter replies `remainingBytes` does not shrink and the Swift loop does not end.
- Gen2: the native `p1`/`p2` are uninterpreted functions passed as a parameter, `testGen2NFCCommands` is not modelled, and `communicateWithPatch` is not modelled.
- SensorTypes.EncodeStatusCode: requires status < 2^63, where `Int(status >> …)` cannot trap.
- SensorTypes.DecodeStatusCode: requires a code whose first ten characters are in the alphabet, which the force unwrap demands.
- Fram.ChecksummedFram: requires 344 bytes, and 1904 or more when above 344, because the slices trap otherwise.
- Libre2.StreamingUnlockPayload: requires that `enableTime + unlockCount` does not overflow `UInt32`, where Swift traps.
- Libre2.DecryptBle: requires 46-66 bytes, which the key length and the CRC slice need.
- AbbottDevice.Abbott.ReadComposite: the UI status, the OOP sliding and the trend/history presentation after decryption (Devices/Abbott.swift:197-235) are left out, and only the merged history is stated.
- AbbottDevice.Abbott.ReadLibre3: the experimental test writes (Devices/Abbott.swift:257-259) are left out.
- BluConDevice.BluCon.ReadSensorReply: the firmware string is kept as its bytes, and the battery as the literal 5 the reply sets.
- NfcTools.ProResetBlocks: the Libre Pro reset and activation pokes are modelled as raw block writes, and their byte contents are not stated.
- Fram.FramReport: the CRC report text, with its stored and computed CRCs in hex (DiaBLE/Sensor.swift:414-434), is kept as one structured line per section. Only which sections fail, and so whether the text contains "FAILED", is stated.
- Settings.swift, Nightscout.swift, Events.swift, the Bluetooth plumbing and all views are not part of this model.
- The OOP network requests and the JSON decoding of responses are not modelled; only the query they would carry is.

## Findings

| source | as written | input that shows it | evidently intended | confidence | as-written member | corrected member |
|---|---|---|---|---|---|---|
| DiaBLE/LibrePro.swift:65-66 | `historyData[offset..<(offset + measurements * 6)]`, with `measurements = blockCount * 8 / 6` counted from byte 0 | historyIndex 6: 3 blocks (24 bytes) read, slice 2 ..< 26 | count the whole measurements after the offset, so the slice stays in the bytes read | not executed | LibrePro.SliceOverrunsAtIndex6 | LibrePro.HistorySliceFits |
| DiaBLE/Sensor.swift:244-279 | `fram = decryptedFRAM` inside `parseFRAM` re-enters it through `didSet`, and the nested parse starts with `encryptedFram = Data()` | a complete 344-byte Libre 2 image with an encrypted header | the decrypted image is parsed once and `encryptedFram` keeps the encrypted image | not executed | SensorModel.AsWrittenLosesEncrypted | SensorModel.FramParseFacts |
| DiaBLE/Sensor.swift:269-276 | when the header CRC of a complete Libre 2 image fails both before and after decryption, `fram = decryptedFRAM` re-enters `parseFRAM`, which decrypts the decrypted image back to the original and assigns it again, without end | a corrupted 344-byte Libre 2 read whose header CRC fails in both the stored and the decrypted image | decrypt once, report the failing header and set the state to unknown | not executed | SensorModel.ReentryCycles | SensorModel.FramParseFacts |
| DiaBLE/NFC.swift:720 | `blocksToWrite[j - startIndex]` restarts at block 0 in every request, because `startIndex` already counts the first block and the request offset | 24 bytes at 0xF860: the second request carries block 0 instead of block 2 | `blocksToWrite[j - (startBlock - 0xF860 / 8)]`, that is `blocksToWrite[j - startIndex + i * requestBlocks]`, each request carrying its own blocks | not executed | Nfc.AsWrittenRepeatsFirstBlock | Nfc.RawWritePlanCovers |
| DiaBLE/OOP.swift:550-560 | `oopHistoryCount` is taken before `removeFirst`, so padding adds 32 - count entries to a shortened list | 20 entries whose first is dropped: 31 entries shown | pad to exactly 32 entries | not executed | Oop.AsWrittenShowsThirtyOne | Oop.ShownHistoryPads |
