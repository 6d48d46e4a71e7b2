// The Sensor object: its identity (type, family, serial, security
// generation) derived from patch info and uid as they are assigned, and its
// readings rebuilt by `parseFRAM` whenever a FRAM image is assigned. A
// Libre Pro sensor has its own FRAM layout and CRC report.
module SensorModel {
  import opened Bytes
  import opened Crc
  import opened SensorTypes
  import opened Fram
  import opened Libre2
  import opened LibrePro

  /** The header check of `parseFRAM`: an encrypted type whose stored
      header CRC does not match is taken to hold an encrypted image. */
  predicate HeaderEncrypted(t: SensorType, fram: seq<byte>)
    requires IsEncryptedType(t) ==> |fram| >= 24
  {
    IsEncryptedType(t) && LE16(fram, 0) != Crc16(fram[2..24])
  }

  /** What the decryption step needs to read. */
  predicate CanDecode(t: SensorType, id: seq<byte>, info: seq<byte>, fram: seq<byte>)
  {
    (IsEncryptedType(t) ==> |fram| >= 24) &&
    (IsEncryptedType(t) && |fram| >= 344 ==> |id| >= 6 && |info| >= 6)
  }

  /** The image `parseFRAM` goes on to parse: the decrypted first 344 bytes
      of a complete encrypted image, else the image itself. */
  function DecodedImage(t: SensorType, id: seq<byte>, info: seq<byte>, fram: seq<byte>): (r: seq<byte>)
    requires CanDecode(t, id, info, fram)
    ensures HeaderEncrypted(t, fram) && |fram| >= 344 ==> |r| == 344
    ensures !(HeaderEncrypted(t, fram) && |fram| >= 344) ==> r == fram
  {
    if HeaderEncrypted(t, fram) && |fram| >= 344 then DecryptedFram(t, id, info, fram) else fram
  }

  /** An image that passes its CRC report is never decrypted again, so
      decoding is idempotent on every image that parses. */
  lemma DecodeIdempotent(t: SensorType, id: seq<byte>, info: seq<byte>, fram: seq<byte>)
    requires CanDecode(t, id, info, fram)
    requires !ReportFailed(FramReport(DecodedImage(t, id, info, fram)))
    requires |DecodedImage(t, id, info, fram)| >= 344
    ensures CanDecode(t, id, info, DecodedImage(t, id, info, fram))
    ensures DecodedImage(t, id, info, DecodedImage(t, id, info, fram)) == DecodedImage(t, id, info, fram)
  {
    var d := DecodedImage(t, id, info, fram);
    FramReportFails(d);
    assert !HeaderEncrypted(t, d);
  }

  /** Decrypting twice brings the encrypted image back: a parse that
      re-enters itself on an image whose header fails both before and
      after decryption cycles between the two images forever. */
  lemma ReentryCycles(t: SensorType, id: seq<byte>, info: seq<byte>, fram: seq<byte>)
    requires IsEncryptedType(t) && |id| >= 6 && |info| >= 6 && |fram| == 344
    requires HeaderEncrypted(t, fram) && HeaderEncrypted(t, DecodedImage(t, id, info, fram))
    ensures DecodedImage(t, id, info, DecodedImage(t, id, info, fram)) == fram
  {
    DecryptFramTwice(t, id, info, fram);
    assert fram[..344] == fram;
  }

  /** The parse goes past the CRC report and the incomplete-encrypted
      return. */
  predicate ParseReaches(fram: seq<byte>, encrypted: seq<byte>)
  {
    !ReportFailed(FramReport(fram)) && !(|fram| < 344 && encrypted != [])
  }

  /** Every byte `parseFRAM` reads from the image it parses is inside it:
      the state byte, and the two rings once the body is there. */
  predicate ParseSafe(fram: seq<byte>)
  {
    |fram| >= 5 && (|fram| >= 320 && !ReportFailed(FramReport(fram)) ==> TrendFits(fram) && HistoryFits(fram))
  }

  /** `ParseSafe` for the Libre Pro layout. */
  predicate ProParseSafe(fram: seq<byte>)
  {
    |fram| >= 5 && (|fram| >= 176 && !ReportFailed(ProReport(fram)) ==> ProTrendFits(fram))
  }

  /** `securityGeneration` after patch info: a Libre 2 below generation
      nibble 9, or a Libre Sense below 4, is generation 1, otherwise 2, and
      other families keep the previous value. */
  function GenerationOf(family: SensorFamily, nibble: int, previous: int): (g: int)
    ensures family == Libre2Family ==> (g == 1 <==> nibble < 9) && (g == 2 <==> nibble >= 9)
    ensures family == LibreSenseFamily ==> (g == 1 <==> nibble < 4) && (g == 2 <==> nibble >= 4)
    ensures family != Libre2Family && family != LibreSenseFamily ==> g == previous
  {
    if family == Libre2Family then (if nibble < 9 then 1 else 2)
    else if family == LibreSenseFamily then (if nibble < 4 then 1 else 2)
    else previous
  }

  /** The fields a parse of the FRAM sets, besides the CRC report. */
  datatype Kept = Kept(state: SensorState, age: int, initializations: int,
                       trend: seq<Glucose>, history: seq<Glucose>,
                       region: int, maxLife: int, calibrationInfo: CalibrationInfo)

  /** The readings and the data read with them agree. */
  predicate SameReadings(a: Kept, b: Kept)
  {
    a.age == b.age && a.initializations == b.initializations && a.trend == b.trend && a.history == b.history
  }

  /** Region, maximum life and calibration agree. */
  predicate SameFooter(a: Kept, b: Kept)
  {
    a.region == b.region && a.maxLife == b.maxLife && a.calibrationInfo == b.calibrationInfo
  }

  /** What `parseFRAM` leaves, from its CRC report on, over `image` with
      `encrypted` as the kept encrypted image: a failed report resets the
      state and keeps everything else; a short image that was encrypted is
      left alone; otherwise the state byte is taken when it names a state,
      the readings are rebuilt once the body is there, and region, maximum
      life and calibration are read once the footer is. */
  predicate Parsed(image: seq<byte>, encrypted: seq<byte>, before: Kept, report: CrcReport, after: Kept)
    requires ParseSafe(image)
  {
    report == FramReport(image) &&
    (ReportFailed(report) ==> after == before.(state := StateUnknown)) &&
    (!ParseReaches(image, encrypted) && !ReportFailed(report) ==> after == before) &&
    (ParseReaches(image, encrypted) ==>
      after.state == (match StateOf(image[4]) case Some(s) => s case None => before.state) &&
      (|image| < 320 ==> SameReadings(after, before)) &&
      (|image| >= 320 ==>
        after.age == LeInt(image, 316) && after.initializations == image[318] as int &&
        after.trend == TrendOf(image, after.age) && after.history == HistoryOf(image, after.age)) &&
      (|image| < 344 ==> SameFooter(after, before)) &&
      (|image| >= 344 ==>
        after.region == image[323] as int && after.maxLife == LeInt(image, 326) &&
        after.calibrationInfo == CalibrationAt(image, 2, 0x150)))
  }

  /** The CRC report and the fields `parseFRAM` leaves, step by step: the
      report, the two early returns, the state byte, then the body and the
      footer reads. */
  function ParseOutcome(image: seq<byte>, encrypted: seq<byte>, before: Kept): (r: (CrcReport, Kept))
    requires ParseSafe(image)
    ensures r.0 == FramReport(image)
  {
    var report := FramReport(image);
    if ReportFailed(report) then (report, before.(state := StateUnknown))
    else if |image| < 344 && |encrypted| > 0 then (report, before)
    else
      var stated := match StateOf(image[4]) case Some(s) => before.(state := s) case None => before;
      var age := if |image| < 320 then 0 else LeInt(image, 316);
      var bodied :=
        if |image| < 320 then stated
        else stated.(age := age, initializations := image[318] as int,
                     trend := TrendOf(image, age), history := HistoryOf(image, age));
      var footed :=
        if |image| < 344 then bodied
        else bodied.(region := image[323] as int, maxLife := LeInt(image, 326),
                     calibrationInfo := CalibrationAt(image, 2, 0x150));
      (report, footed)
  }

  /** The step-by-step parse meets its description. */
  lemma ParseOutcomeMeets(image: seq<byte>, encrypted: seq<byte>, before: Kept)
    requires ParseSafe(image)
    ensures Parsed(image, encrypted, before, ParseOutcome(image, encrypted, before).0,
                   ParseOutcome(image, encrypted, before).1)
  {
  }

  /** Parsing the same image again leaves what parsing it once did: the
      second parse reads the same fields again, and a failed report resets
      the state both times. */
  lemma ParseOutcomeIdempotent(image: seq<byte>, encrypted: seq<byte>, before: Kept)
    requires ParseSafe(image)
    ensures ParseOutcome(image, encrypted, ParseOutcome(image, encrypted, before).1) ==
      ParseOutcome(image, encrypted, before)
  {
    var once := ParseOutcome(image, encrypted, before);
    var twice := ParseOutcome(image, encrypted, once.1);
    assert twice.0 == once.0;
    if ParseReaches(image, encrypted) {
      assert twice.1.state == once.1.state;
    }
  }

  /** `updateCRCReport` over a Libre 1 or 2 image. */
  method ComputeFramReport(image: seq<byte>) returns (report: CrcReport)
    ensures report == FramReport(image)
  {
    if |image| < 344 {
      report := Incomplete;
    } else {
      var header := CheckLine(HeaderSection, image, 0, 2, 24);
      var body := CheckLine(BodySection, image, 24, 26, 320);
      var footer := CheckLine(FooterSection, image, 320, 322, 344);
      var lines := [header, body, footer];
      if |image| >= CommandsEnd {
        lines := lines + [CheckLine(CommandsSection, image, 344, 346, CommandsEnd)];
      }
      report := Lines(lines);
    }
  }

  /** The body reads of `parseFRAM`: age, initializations and the two rings
      rebuilt from empty. */
  method ReadBody(image: seq<byte>, before: Kept) returns (after: Kept)
    requires |image| >= 320 && TrendFits(image) && HistoryFits(image)
    ensures after.state == before.state && SameFooter(after, before)
    ensures after.age == LeInt(image, 316) && after.initializations == image[318] as int
    ensures after.trend == TrendOf(image, after.age) && after.history == HistoryOf(image, after.age)
  {
    var age := image[316] as int + (image[317] as int) * 256;
    var trend := BuildTrend(image, age);
    var history := BuildHistory(image, age);
    after := before.(age := age, initializations := image[318] as int, trend := trend, history := history);
  }

  /** The footer reads of `parseFRAM`. */
  method ReadFooter(image: seq<byte>, before: Kept) returns (after: Kept)
    requires |image| >= 344
    ensures after.state == before.state && SameReadings(after, before)
    ensures after.region == image[323] as int && after.maxLife == LeInt(image, 326)
    ensures after.calibrationInfo == CalibrationAt(image, 2, 0x150)
  {
    var calibration := ReadCalibration(image, 2, 0x150);
    after := before.(region := image[323] as int, maxLife := image[326] as int + (image[327] as int) * 256,
                     calibrationInfo := calibration);
  }

  /** `parseFRAM` from `updateCRCReport` on. */
  method ParseImage(image: seq<byte>, encrypted: seq<byte>, before: Kept) returns (report: CrcReport, after: Kept)
    requires ParseSafe(image)
    ensures (report, after) == ParseOutcome(image, encrypted, before)
  {
    report := ComputeFramReport(image);
    after := before;
    if ReportFailed(report) {
      after := after.(state := StateUnknown);
      return;
    }
    if |image| < 344 && |encrypted| > 0 {
      return;
    }
    var s := StateOf(image[4]);
    if s.Some? {
      after := after.(state := s.value);
    }
    if |image| < 320 {
      return;
    }
    after := ReadBody(image, after);
    if |image| < 344 {
      return;
    }
    after := ReadFooter(image, after);
  }

  /** The decryption step of `parseFRAM`: an image of an encrypted type
      whose header fails is kept as the encrypted image and, when complete,
      replaced by its decryption. */
  method DecodeImage(t: SensorType, id: seq<byte>, info: seq<byte>, image: seq<byte>)
    returns (decoded: seq<byte>, encrypted: seq<byte>)
    requires CanDecode(t, id, info, image)
    ensures decoded == DecodedImage(t, id, info, image)
    ensures encrypted == if HeaderEncrypted(t, image) then image else []
  {
    decoded := image;
    encrypted := [];
    if HeaderEncrypted(t, image) {
      encrypted := image;
      if |image| >= 344 {
        var r := DecryptFram(t, id, info, image);
        if r.Ok? {
          decoded := r.value;
        }
      }
    }
  }

  /** What the sensor holds after a parse: the image, the kept encrypted
      image, the CRC report and the parsed fields. */
  datatype Parse = Parse(fram: seq<byte>, encryptedFram: seq<byte>, crcReport: CrcReport, results: Kept)

  /** Everything `parseFRAM` reads is there: the decryption's inputs, and
      the bytes of the image it goes on to parse. */
  predicate FramParseSafe(t: SensorType, id: seq<byte>, info: seq<byte>, image: seq<byte>)
  {
    CanDecode(t, id, info, image) && ParseSafe(DecodedImage(t, id, info, image))
  }

  /** `parseFRAM` in a single pass: the decoded image is parsed with the
      encrypted image kept beside it. */
  function FramParse(t: SensorType, id: seq<byte>, info: seq<byte>, image: seq<byte>, before: Kept): Parse
    requires FramParseSafe(t, id, info, image)
  {
    var decoded := DecodedImage(t, id, info, image);
    var encrypted := if HeaderEncrypted(t, image) then image else [];
    var outcome := ParseOutcome(decoded, encrypted, before);
    Parse(decoded, encrypted, outcome.0, outcome.1)
  }

  /** The single-pass parse keeps the encrypted image of an encrypted type
      whose header fails, parses the decryption of a complete one, and
      leaves what its description says. */
  lemma FramParseFacts(t: SensorType, id: seq<byte>, info: seq<byte>, image: seq<byte>, before: Kept)
    requires FramParseSafe(t, id, info, image)
    ensures var p := FramParse(t, id, info, image, before);
      p.fram == DecodedImage(t, id, info, image) &&
      (HeaderEncrypted(t, image) ==> p.encryptedFram == image) &&
      (!HeaderEncrypted(t, image) ==> p.encryptedFram == []) &&
      ParseSafe(p.fram) && Parsed(p.fram, p.encryptedFram, before, p.crcReport, p.results)
  {
    ParseOutcomeMeets(DecodedImage(t, id, info, image),
                      if HeaderEncrypted(t, image) then image else [], before);
  }

  /** A complete image parses the same whatever encrypted image is kept. */
  lemma ParseOutcomeComplete(image: seq<byte>, e1: seq<byte>, e2: seq<byte>, before: Kept)
    requires ParseSafe(image) && |image| >= 344
    ensures ParseOutcome(image, e1, before) == ParseOutcome(image, e2, before)
  {
  }

  /** What `parseFRAM` as written leaves: the inner parse of the decrypted
      image empties the kept encrypted image of a complete image. */
  function FramParseAsWritten(t: SensorType, id: seq<byte>, info: seq<byte>, image: seq<byte>, before: Kept): Parse
    requires FramParseSafe(t, id, info, image)
  {
    var p := FramParse(t, id, info, image, before);
    if HeaderEncrypted(t, image) && |image| >= 344 then p.(encryptedFram := []) else p
  }

  /** Once the decryption is complete, the parse as written has lost the
      encrypted image that the single-pass parse keeps. */
  lemma AsWrittenLosesEncrypted(t: SensorType, id: seq<byte>, info: seq<byte>, image: seq<byte>, before: Kept)
    requires FramParseSafe(t, id, info, image) && HeaderEncrypted(t, image) && |image| >= 344
    ensures FramParse(t, id, info, image, before).encryptedFram == image
    ensures FramParseAsWritten(t, id, info, image, before).encryptedFram == []
    ensures FramParseAsWritten(t, id, info, image, before).results == FramParse(t, id, info, image, before).results
  {
  }

  /** What assigning `fram` needs: everything the parse reads is there,
      and the parse as written returns, which it does only when the
      decryption of a complete image whose header fails passes the header
      check. */
  predicate FramAssignable(t: SensorType, id: seq<byte>, info: seq<byte>, image: seq<byte>)
  {
    FramParseSafe(t, id, info, image) &&
    (HeaderEncrypted(t, image) && |image| >= 344 ==> !HeaderEncrypted(t, DecodedImage(t, id, info, image)))
  }

  /** The encrypted image the parse as written keeps: only that of an
      incomplete image whose header fails. */
  function EncryptedKept(t: SensorType, id: seq<byte>, info: seq<byte>, image: seq<byte>): (e: seq<byte>)
    requires FramParseSafe(t, id, info, image)
  {
    if HeaderEncrypted(t, image) && |image| < 344 then image else []
  }

  /** The parse as written keeps an encrypted image exactly when the
      header of an incomplete image of an encrypted type fails, whatever the
      sensor held before. */
  lemma EncryptedKeptAsWritten(t: SensorType, id: seq<byte>, info: seq<byte>, image: seq<byte>, before: Kept)
    requires FramParseSafe(t, id, info, image)
    ensures FramParseAsWritten(t, id, info, image, before).encryptedFram == EncryptedKept(t, id, info, image)
    ensures EncryptedKept(t, id, info, image) != [] <==> HeaderEncrypted(t, image) && |image| < 344
  {
  }

  /** The single-pass parse, computed. */
  method ParseFramImage(t: SensorType, id: seq<byte>, info: seq<byte>, image: seq<byte>, before: Kept)
    returns (p: Parse)
    requires FramParseSafe(t, id, info, image)
    ensures p == FramParse(t, id, info, image, before)
  {
    var decoded, encrypted := DecodeImage(t, id, info, image);
    var report, after := ParseImage(decoded, encrypted, before);
    p := Parse(decoded, encrypted, report, after);
  }

  /** The Libre Pro `updateCRCReport`. */
  method ComputeProReport(image: seq<byte>) returns (report: CrcReport)
    ensures report == ProReport(image)
  {
    if |image| < 176 {
      report := Incomplete;
    } else {
      report := Lines([CheckLine(HeaderSection, image, 0, 2, 40),
                       CheckLine(FooterSection, image, 40, 42, 72),
                       CheckLine(BodySection, image, 72, 74, 176)]);
    }
  }

  /** What the Libre Pro `parseFRAM` leaves: a failed report resets the
      state and keeps everything else; otherwise the state byte is taken
      when it names a state and, from 176 bytes on, age, the two rings,
      region, maximum life and calibration are read. */
  predicate ProParsed(image: seq<byte>, before: Kept, report: CrcReport, after: Kept)
    requires ProParseSafe(image)
  {
    report == ProReport(image) &&
    (ReportFailed(report) ==> after == before.(state := StateUnknown)) &&
    (!ReportFailed(report) ==>
      after.state == (match StateOf(image[4]) case Some(s) => s case None => before.state) &&
      (|image| < 176 ==> SameReadings(after, before) && SameFooter(after, before)) &&
      (|image| >= 176 ==>
        after.age == LeInt(image, 74) && after.initializations == before.initializations &&
        after.trend == ProTrendOf(image, after.age) && after.history == ProHistoryOf(image, after.age) &&
        after.region == image[43] as int && after.maxLife == LeInt(image, 46) &&
        after.calibrationInfo == CalibrationAt(image, 26, 56)))
  }

  /** The CRC report and the fields the Libre Pro `parseFRAM` leaves. */
  function ProParseOutcome(image: seq<byte>, before: Kept): (r: (CrcReport, Kept))
    requires ProParseSafe(image)
    ensures r.0 == ProReport(image)
  {
    var report := ProReport(image);
    if ReportFailed(report) then (report, before.(state := StateUnknown))
    else
      var stated := match StateOf(image[4]) case Some(s) => before.(state := s) case None => before;
      if |image| < 176 then (report, stated)
      else
        var age := LeInt(image, 74);
        (report, stated.(age := age, trend := ProTrendOf(image, age), history := ProHistoryOf(image, age),
                         region := image[43] as int, maxLife := LeInt(image, 46),
                         calibrationInfo := CalibrationAt(image, 26, 56)))
  }

  /** The step-by-step Libre Pro parse meets its description. */
  lemma ProParseOutcomeMeets(image: seq<byte>, before: Kept)
    requires ProParseSafe(image)
    ensures ProParsed(image, before, ProParseOutcome(image, before).0, ProParseOutcome(image, before).1)
  {
  }

  /** The Libre Pro reads from 176 bytes on. */
  method ReadProBody(image: seq<byte>, before: Kept) returns (after: Kept)
    requires ProTrendFits(image)
    ensures after.state == before.state && after.initializations == before.initializations
    ensures after.age == LeInt(image, 74)
    ensures after.trend == ProTrendOf(image, after.age) && after.history == ProHistoryOf(image, after.age)
    ensures after.region == image[43] as int && after.maxLife == LeInt(image, 46)
    ensures after.calibrationInfo == CalibrationAt(image, 26, 56)
  {
    var age := image[74] as int + (image[75] as int) * 256;
    var trend := BuildProTrend(image, age);
    var history := BuildProHistory(image, age);
    var calibration := ReadCalibration(image, 26, 56);
    after := before.(age := age, trend := trend, history := history, region := image[43] as int,
                     maxLife := image[46] as int + (image[47] as int) * 256, calibrationInfo := calibration);
  }

  /** The Libre Pro `parseFRAM`. */
  method ParseProImage(image: seq<byte>, before: Kept) returns (report: CrcReport, after: Kept)
    requires ProParseSafe(image)
    ensures (report, after) == ProParseOutcome(image, before)
  {
    report := ComputeProReport(image);
    after := before;
    if ReportFailed(report) {
      after := after.(state := StateUnknown);
      return;
    }
    var s := StateOf(image[4]);
    if s.Some? {
      after := after.(state := s.value);
    }
    if |image| < 176 {
      return;
    }
    after := ReadProBody(image, after);
  }

  class Sensor {
    /** A Libre Pro sensor: its FRAM is parsed by the Libre Pro layout. */
    const isPro: bool

    var sensorType: SensorType
    var family: SensorFamily
    var region: int
    var serial: string
    var state: SensorState
    var age: int
    var maxLife: int
    var initializations: int
    var crcReport: CrcReport
    var securityGeneration: int
    var patchInfo: seq<byte>
    var uid: seq<byte>
    var trend: seq<Glucose>
    var history: seq<Glucose>
    var calibrationInfo: CalibrationInfo
    var fram: seq<byte>
    var encryptedFram: seq<byte>
    var initialPatchInfo: seq<byte>
    var streamingUnlockCode: int
    var streamingUnlockCount: int
    var streamingAuthenticationData: seq<byte>

    constructor(isPro: bool)
      ensures this.isPro == isPro
      ensures sensorType == Unknown && family == Libre && region == 0 && serial == ""
      ensures state == StateUnknown && age == 0 && maxLife == 0 && initializations == 0
      ensures crcReport == NoReport && securityGeneration == 0
      ensures patchInfo == [] && uid == [] && trend == [] && history == []
      ensures calibrationInfo == CalibrationInfo(0, 0, 0, 0, 0, 0)
      ensures fram == [] && encryptedFram == [] && initialPatchInfo == []
      ensures streamingUnlockCode == 42 && streamingUnlockCount == 0
      ensures streamingAuthenticationData == seq(10, _ => 0)
    {
      this.isPro := isPro;
      sensorType := Unknown;
      family := Libre;
      region := 0;
      serial := "";
      state := StateUnknown;
      age := 0;
      maxLife := 0;
      initializations := 0;
      crcReport := NoReport;
      securityGeneration := 0;
      patchInfo := [];
      uid := [];
      trend := [];
      history := [];
      calibrationInfo := CalibrationInfo(0, 0, 0, 0, 0, 0);
      fram := [];
      encryptedFram := [];
      initialPatchInfo := [];
      streamingUnlockCode := 42;
      streamingUnlockCount := 0;
      streamingAuthenticationData := seq(10, _ => 0);
    }

    /** Assigning `patchInfo`, with its `willSet` observer: the type from
        the first byte, the region from byte 3, and from 6 bytes on the
        family from the high nibble of byte 2 (Libre when unknown), the
        family digit at the head of the serial, and the security
        generation from the low nibble. */
    method SetPatchInfo(info: seq<byte>)
      requires |info| > 0 && info[0] == 0x76 ==> |info| >= 4
      modifies this`patchInfo, this`sensorType, this`region, this`family, this`serial, this`securityGeneration
      ensures patchInfo == info
      ensures sensorType == if |info| > 0 then TypeOf(info) else Unknown
      ensures region == if |info| > 3 then info[3] as int else old(region)
      ensures |info| < 6 ==>
        family == old(family) && serial == old(serial) && securityGeneration == old(securityGeneration)
      ensures |info| >= 6 ==>
        family == (match FamilyOf((info[2] >> 4) as int) case Some(f) => f case None => Libre) &&
        securityGeneration == GenerationOf(family, (info[2] & 0x0F) as int, old(securityGeneration)) &&
        |serial| == |old(serial)| &&
        (old(serial) != [] ==> serial[0] == FamilyDigit(family) && serial[1..] == old(serial)[1..])
    {
      if |info| > 0 {
        sensorType := TypeOf(info);
      } else {
        sensorType := Unknown;
      }
      if |info| > 3 {
        region := info[3] as int;
      }
      if |info| >= 6 {
        var f := FamilyOf((info[2] >> 4) as int);
        family := if f.Some? then f.value else Libre;
        if serial != "" {
          serial := [FamilyDigit(family)] + serial[1..];
        }
        var generation := info[2] & 0x0F;
        if family == Libre2Family {
          securityGeneration := if generation < 9 then 1 else 2;
        }
        if family == LibreSenseFamily {
          securityGeneration := if generation < 4 then 1 else 2;
        }
      }
      patchInfo := info;
    }

    /** Assigning `uid`, with its `willSet` observer: the serial is the uid
        in the current family's encoding. */
    method SetUid(id: seq<byte>)
      modifies this`uid, this`serial
      ensures uid == id && serial == SerialNumber(id, family)
      ensures |id| == 8 ==> |serial| == 11 && serial[0] == FamilyDigit(family)
      ensures |id| != 8 ==> serial == ""
    {
      serial := SerialNumber(id, family);
      uid := id;
    }

    /** What a parse may change, besides the CRC report. */
    function Results(): Kept
      reads this`state, this`age, this`initializations, this`trend, this`history,
        this`region, this`maxLife, this`calibrationInfo
    {
      Kept(state, age, initializations, trend, history, region, maxLife, calibrationInfo)
    }

    /** Stores what a parse computed. */
    method Store(k: Kept)
      modifies this`state, this`age, this`initializations, this`trend, this`history,
        this`region, this`maxLife, this`calibrationInfo
      ensures Results() == k
    {
      state, age, initializations, trend, history := k.state, k.age, k.initializations, k.trend, k.history;
      region, maxLife, calibrationInfo := k.region, k.maxLife, k.calibrationInfo;
    }

    /** `updateCRCReport`. */
    method UpdateCrcReport()
      modifies this`crcReport
      ensures crcReport == FramReport(fram)
    {
      crcReport := ComputeFramReport(fram);
    }

    /** The parse state of the sensor. */
    function Snapshot(): Parse
      reads this
    {
      Parse(fram, encryptedFram, crcReport, Results())
    }

    /** `parseFRAM` with a single pass: an encrypted complete image is
        replaced by its decryption, which is then parsed, and the encrypted
        image stays in `encryptedFram`. */
    method ParseFram()
      requires FramParseSafe(sensorType, uid, patchInfo, fram)
      modifies this`fram, this`encryptedFram, this`crcReport, this`state, this`age, this`initializations,
        this`trend, this`history, this`region, this`maxLife, this`calibrationInfo
      ensures Snapshot() == FramParse(old(sensorType), old(uid), old(patchInfo), old(fram), old(Results()))
    {
      var p := ParseFramImage(sensorType, uid, patchInfo, fram, Results());
      fram, encryptedFram, crcReport := p.fram, p.encryptedFram, p.crcReport;
      Store(p.results);
    }

    /** `parseFRAM` as written: the decrypted image is assigned to the
        observed `fram` property, whose `didSet` parses it again before the
        outer parse goes on, and that inner parse empties `encryptedFram`.
        The inner parse returns only when the decrypted header passes. */
    method ParseFramAsWritten()
      requires FramParseSafe(sensorType, uid, patchInfo, fram)
      requires HeaderEncrypted(sensorType, fram) && |fram| >= 344 ==>
        !HeaderEncrypted(sensorType, DecodedImage(sensorType, uid, patchInfo, fram))
      modifies this`fram, this`encryptedFram, this`crcReport, this`state, this`age, this`initializations,
        this`trend, this`history, this`region, this`maxLife, this`calibrationInfo
      decreases if HeaderEncrypted(sensorType, fram) && |fram| >= 344 then 1 else 0
      ensures Snapshot() ==
        FramParseAsWritten(old(sensorType), old(uid), old(patchInfo), old(fram), old(Results()))
    {
      var reenters := IsEncryptedType(sensorType) && LE16(fram, 0) != Crc16(fram[2..24]) && |fram| >= 344;
      var decoded, encrypted := DecodeImage(sensorType, uid, patchInfo, fram);
      fram, encryptedFram := decoded, encrypted;
      if reenters {
        ParseFramAsWritten();
        ParseOutcomeIdempotent(fram, encryptedFram, old(Results()));
        ParseOutcomeComplete(fram, encryptedFram, old(fram), old(Results()));
      }
      var report, after := ParseImage(fram, encryptedFram, Results());
      crcReport := report;
      Store(after);
    }

    /** The Libre Pro `parseFRAM`. */
    method ParseProFram()
      requires ProParseSafe(fram)
      modifies this`crcReport, this`state, this`age, this`initializations, this`trend, this`history,
        this`region, this`maxLife, this`calibrationInfo
      ensures (crcReport, Results()) == ProParseOutcome(fram, old(Results()))
    {
      var report, after := ParseProImage(fram, Results());
      crcReport := report;
      Store(after);
    }

    /** Assigning `fram`: its `didSet` observer parses the new image with
        the parser of the sensor's layout, re-entering itself as written. */
    method SetFram(data: seq<byte>)
      requires isPro ==> ProParseSafe(data)
      requires !isPro ==> FramAssignable(sensorType, uid, patchInfo, data)
      modifies this`fram, this`encryptedFram, this`crcReport, this`state, this`age, this`initializations,
        this`trend, this`history, this`region, this`maxLife, this`calibrationInfo
      ensures isPro ==>
        fram == data && encryptedFram == old(encryptedFram) &&
        (crcReport, Results()) == ProParseOutcome(data, old(Results()))
      ensures !isPro ==>
        Snapshot() == FramParseAsWritten(old(sensorType), old(uid), old(patchInfo), data, old(Results()))
      ensures ReportFailed(crcReport) ==> Results() == old(Results()).(state := StateUnknown)
    {
      fram := data;
      if isPro {
        ParseProFram();
      } else {
        ParseFramAsWritten();
        FramParseFacts(sensorType, uid, patchInfo, data, old(Results()));
      }
    }
  }
}
