// The Libre 1 / Libre 2 FRAM image: 43 eight-byte blocks split into a
// header (bytes 0-23), a body (24-319) and a footer (320-343), each led by
// the CRC16 of the rest of its section, optionally followed by the
// commands section (344-1903). The body holds a 16-slot trend ring at byte
// 28 and a 32-slot history ring at byte 124 of packed 6-byte records.
module Fram {
  import opened Bytes
  import opened Crc
  import opened Bits

  /** A raw reading. `value` is the raw value for a decoded record and -1
      for a gap; the other fields default to 0 in a gap. */
  datatype Glucose = Glucose(
    value: int, rawValue: int, rawTemperature: int, temperatureAdjustment: int,
    id: int, hasError: bool, dataQuality: int, dataQualityFlags: int)

  /** `Glucose(-1, id: id)`: the sentinel that fills a missing minute. */
  function Missing(id: int): (g: Glucose)
    ensures g.value == -1 && g.id == id
  {
    Glucose(-1, 0, 0, 0, id, false, 0, 0)
  }

  // ----- the 6-byte record -----

  /** A reading from its packed fields: the quality word holds 9 bits of
      quality and 2 of flags (`UInt16(quality) & 0x1FF` and
      `(quality & 0x600) >> 9` on a value below 2^11), temperature and
      adjustment are scaled by 4, and the sign bit negates the adjustment. */
  function Reading(raw: int, quality: int, error: int, temperature: int, adjustment: int,
                   negative: int, id: int): Glucose
  {
    Glucose(raw, raw, temperature * 4, if negative != 0 then -(adjustment * 4) else adjustment * 4,
            id, error != 0, quality % 512, (quality / 512) % 4)
  }

  /** A 6-byte record: 14 bits of raw value, 11 of quality, an error bit,
      12 bits of temperature, 9 of adjustment and the adjustment's sign. */
  function Decode(rec: seq<byte>, id: int): Glucose
    requires |rec| == 6
  {
    Reading(BitsValue(rec, 0, 14), BitsValue(rec, 0xe, 0xb), BitsValue(rec, 0x19, 1),
            BitsValue(rec, 0x1a, 0xc), BitsValue(rec, 0x26, 9), BitsValue(rec, 0x2f, 1), id)
  }

  /** The record at byte `offset`; a negative offset reads zeros before
      the buffer, as `readBits` does. */
  function RecordAt(buf: seq<byte>, offset: int, id: int): Glucose
    requires offset + 6 <= |buf|
  {
    Decode(Window(buf, offset, 6), id)
  }

  /** `readBits(buf, offset, c, n)`, for a field inside the `len` bytes
      from `offset`: the value of that field of the window. */
  method ReadField(buf: seq<byte>, offset: int, len: nat, c: nat, n: nat) returns (v: int)
    requires offset + len <= |buf| && c + n <= 8 * len
    ensures v == BitsValue(Window(buf, offset, len), c, n)
  {
    v := ReadBits(buf, offset, c, n);
    WindowValue(buf, offset, len, offset * 8, c, n);
  }

  /** The `readBits` calls of one record (the quality word is read once
      for both its parts). */
  method ReadRecord(buf: seq<byte>, offset: int, id: int) returns (g: Glucose)
    requires offset + 6 <= |buf|
    ensures g == RecordAt(buf, offset, id)
  {
    var rawValue := ReadField(buf, offset, 6, 0, 0xe);
    var quality := ReadField(buf, offset, 6, 0xe, 0xb);
    var hasError := ReadField(buf, offset, 6, 0x19, 0x1);
    var rawTemperature := ReadField(buf, offset, 6, 0x1a, 0xc);
    var temperatureAdjustment := ReadField(buf, offset, 6, 0x26, 0x9);
    var negativeAdjustment := ReadField(buf, offset, 6, 0x2f, 0x1);
    g := Reading(rawValue, quality, hasError, rawTemperature, temperatureAdjustment, negativeAdjustment, id);
  }

  // ----- the rings -----

  /** Slot of the i-th most recent entry of an n-slot ring whose next
      write goes to `index`: `j = index - 1 - i`, plus n when negative. */
  function RingSlot(index: int, i: int, n: nat): int
  {
    var j := index - 1 - i;
    if j < 0 then j + n else j
  }

  /** The last slot the walk can reach: a stored index past the ring
      (a corrupt byte) walks beyond it. */
  function MaxSlot(index: int, n: nat): int
  {
    if index <= n then n - 1 else index - 1
  }

  lemma SlotRange(index: int, i: int, n: nat)
    requires 0 <= index && 0 <= i < n
    ensures 0 <= RingSlot(index, i, n) <= MaxSlot(index, n)
  {
  }

  /** Within the ring the walk is the index minus one minus i, modulo n. */
  lemma SlotIsMod(index: int, i: int, n: nat)
    requires 0 <= index <= n && 0 <= i < n
    ensures RingSlot(index, i, n) == (index - 1 - i) % n
  {
    var j := index - 1 - i;
    if j < 0 {
      ModOfNegative(j, n);
    } else {
      assert j < n;
    }
  }

  lemma ModOfNegative(j: int, n: nat)
    requires -(n as int) <= j < 0
    ensures j % n == j + n
  {
    var q := j / n;
    assert j == n * q + j % n;
    assert q >= 0 ==> n * q >= 0;
    assert q <= -2 ==> n * q <= -2 * n;
  }

  /** The walk visits each of the n slots once. */
  lemma SlotsDistinct(index: int, i: int, k: int, n: nat)
    requires 0 <= index <= n && 0 <= i < n && 0 <= k < n && i != k
    ensures RingSlot(index, i, n) != RingSlot(index, k, n)
  {
  }

  /** Every trend record the walk reaches lies inside the image. */
  predicate TrendFits(fram: seq<byte>)
  {
    |fram| > 27 && 34 + 6 * MaxSlot(fram[26] as int, 16) <= |fram|
  }

  /** Every history record the walk reaches lies inside the image. */
  predicate HistoryFits(fram: seq<byte>)
  {
    |fram| > 27 && 130 + 6 * MaxSlot(fram[27] as int, 32) <= |fram|
  }

  /** An image of at least 320 bytes whose ring indices are in range
      satisfies both. */
  lemma RingsFit(fram: seq<byte>)
    requires |fram| >= 320 && fram[26] <= 16 && fram[27] <= 32
    ensures TrendFits(fram) && HistoryFits(fram)
  {
  }

  /** The trend ring: 16 readings, the i-th most recent one with id age - i. */
  function TrendOf(fram: seq<byte>, age: int): (r: seq<Glucose>)
    requires TrendFits(fram)
    ensures |r| == 16
  {
    seq(16, i requires 0 <= i < 16 => TrendEntry(fram, age, i))
  }

  /** The i-th most recent trend reading, at byte 28 + 6 j of slot j. */
  function TrendEntry(fram: seq<byte>, age: int, i: int): Glucose
    requires TrendFits(fram) && 0 <= i < 16
  {
    SlotRange(fram[26] as int, i, 16);
    RecordAt(fram, 28 + 6 * RingSlot(fram[26] as int, i, 16), age - i)
  }

  /** The FRAM lags 3 minutes behind: `(age - 3) % 15 + 3` with Swift's
      truncating `%`. */
  function HistoryDelay(age: int): int
  {
    TruncMod(age - 3, 15) + 3
  }

  /** From 3 minutes on the delay is between 3 and 17; below that it is
      the age itself (a floored `%` would have given age + 15). */
  lemma DelayRange(age: nat)
    ensures age >= 3 ==> 3 <= HistoryDelay(age) <= 17 && HistoryDelay(age) == (age - 3) % 15 + 3
    ensures age < 3 ==> HistoryDelay(age) == age && (age - 3) % 15 + 3 == age + 15
  {
  }

  /** The history ring: 32 readings every 15 minutes, the i-th with id
      age - delay - 15 i. */
  function HistoryOf(fram: seq<byte>, age: int): (r: seq<Glucose>)
    requires HistoryFits(fram)
    ensures |r| == 32
  {
    seq(32, i requires 0 <= i < 32 => HistoryEntry(fram, age, i))
  }

  /** The i-th most recent history reading, at byte 124 + 6 j of slot j. */
  function HistoryEntry(fram: seq<byte>, age: int, i: int): Glucose
    requires HistoryFits(fram) && 0 <= i < 32
  {
    SlotRange(fram[27] as int, i, 32);
    RecordAt(fram, 124 + 6 * RingSlot(fram[27] as int, i, 32), age - HistoryDelay(age) - 15 * i)
  }

  /** The trend ids count down one minute at a time from the age. */
  lemma TrendIds(fram: seq<byte>, age: int, i: nat)
    requires TrendFits(fram) && i < 16
    ensures TrendOf(fram, age)[i].id == age - i
    ensures i > 0 ==> TrendOf(fram, age)[i - 1].id == TrendOf(fram, age)[i].id + 1
  {
  }

  /** The history ids count down 15 minutes at a time from age - delay. */
  lemma HistoryIds(fram: seq<byte>, age: int, i: nat)
    requires HistoryFits(fram) && i < 32
    ensures HistoryOf(fram, age)[i].id == age - HistoryDelay(age) - 15 * i
    ensures i > 0 ==> HistoryOf(fram, age)[i - 1].id == HistoryOf(fram, age)[i].id + 15
  {
  }

  lemma TrendStep(fram: seq<byte>, age: int, i: int, offset: int)
    requires TrendFits(fram) && 0 <= i < 16 && offset == 28 + 6 * RingSlot(fram[26] as int, i, 16)
    requires offset + 6 <= |fram|
    ensures RecordAt(fram, offset, age - i) == TrendEntry(fram, age, i)
  {
  }

  lemma HistoryStep(fram: seq<byte>, age: int, i: int, offset: int)
    requires HistoryFits(fram) && 0 <= i < 32 && offset == 124 + 6 * RingSlot(fram[27] as int, i, 32)
    requires offset + 6 <= |fram|
    ensures RecordAt(fram, offset, age - HistoryDelay(age) - 15 * i) == HistoryEntry(fram, age, i)
  {
  }

  /** The first n trend readings, in the order the loop appends them. */
  function TrendPrefix(fram: seq<byte>, age: int, n: nat): (r: seq<Glucose>)
    requires TrendFits(fram) && n <= 16
    ensures |r| == n
  {
    if n == 0 then [] else TrendPrefix(fram, age, n - 1) + [TrendEntry(fram, age, n - 1)]
  }

  lemma {:induction false} TrendPrefixEntries(fram: seq<byte>, age: int, n: nat)
    requires TrendFits(fram) && n <= 16
    ensures forall k :: 0 <= k < n ==> TrendPrefix(fram, age, n)[k] == TrendEntry(fram, age, k)
  {
    if n > 0 {
      TrendPrefixEntries(fram, age, n - 1);
    }
  }

  lemma TrendPrefixIsTrend(fram: seq<byte>, age: int)
    requires TrendFits(fram)
    ensures TrendPrefix(fram, age, 16) == TrendOf(fram, age)
  {
    TrendPrefixEntries(fram, age, 16);
  }

  /** The first n history readings, in the order the loop appends them. */
  function HistoryPrefix(fram: seq<byte>, age: int, n: nat): (r: seq<Glucose>)
    requires HistoryFits(fram) && n <= 32
    ensures |r| == n
  {
    if n == 0 then [] else HistoryPrefix(fram, age, n - 1) + [HistoryEntry(fram, age, n - 1)]
  }

  lemma {:induction false} HistoryPrefixEntries(fram: seq<byte>, age: int, n: nat)
    requires HistoryFits(fram) && n <= 32
    ensures forall k :: 0 <= k < n ==> HistoryPrefix(fram, age, n)[k] == HistoryEntry(fram, age, k)
  {
    if n > 0 {
      HistoryPrefixEntries(fram, age, n - 1);
    }
  }

  lemma HistoryPrefixIsHistory(fram: seq<byte>, age: int)
    requires HistoryFits(fram)
    ensures HistoryPrefix(fram, age, 32) == HistoryOf(fram, age)
  {
    HistoryPrefixEntries(fram, age, 32);
  }

  /** One step of the trend loop: the i-th most recent reading. */
  method ReadTrendEntry(fram: seq<byte>, age: int, i: int) returns (g: Glucose)
    requires TrendFits(fram) && 0 <= i < 16
    ensures g == TrendEntry(fram, age, i)
  {
    var trendIndex := fram[26] as int;
    var j := trendIndex - 1 - i;
    if j < 0 { j := j + 16; }
    assert j == RingSlot(trendIndex, i, 16);
    SlotRange(trendIndex, i, 16);
    var offset := 28 + j * 6;
    TrendStep(fram, age, i, offset);
    g := ReadRecord(fram, offset, age - i);
  }

  /** The trend loop of `parseFRAM`, rebuilding from empty. */
  method BuildTrend(fram: seq<byte>, age: int) returns (trend: seq<Glucose>)
    requires TrendFits(fram)
    ensures trend == TrendOf(fram, age)
  {
    trend := [];
    for i := 0 to 16
      invariant trend == TrendPrefix(fram, age, i)
    {
      var g := ReadTrendEntry(fram, age, i);
      trend := trend + [g];
    }
    TrendPrefixIsTrend(fram, age);
  }

  /** One step of the history loop: the i-th most recent reading, with
      the delay computed once by the caller. */
  method ReadHistoryEntry(fram: seq<byte>, age: int, delay: int, i: int) returns (g: Glucose)
    requires HistoryFits(fram) && 0 <= i < 32 && delay == HistoryDelay(age)
    ensures g == HistoryEntry(fram, age, i)
  {
    var historyIndex := fram[27] as int;
    var j := historyIndex - 1 - i;
    if j < 0 { j := j + 32; }
    assert j == RingSlot(historyIndex, i, 32);
    SlotRange(historyIndex, i, 32);
    var offset := 124 + j * 6;
    HistoryStep(fram, age, i, offset);
    g := ReadRecord(fram, offset, age - delay - 15 * i);
  }

  /** The history loop of `parseFRAM`, rebuilding from empty. */
  method BuildHistory(fram: seq<byte>, age: int) returns (history: seq<Glucose>)
    requires HistoryFits(fram)
    ensures history == HistoryOf(fram, age)
  {
    history := [];
    var delay := TruncMod(age - 3, 15) + 3;
    for i := 0 to 32
      invariant history == HistoryPrefix(fram, age, i)
    {
      var g := ReadHistoryEntry(fram, age, delay, i);
      history := history + [g];
    }
    HistoryPrefixIsHistory(fram, age);
  }

  // ----- calibration -----

  datatype CalibrationInfo = CalibrationInfo(i1: int, i2: int, i3: int, i4: int, i5: int, i6: int)

  /** The factory calibration: i1 and i2 in the 3 + 10 bits of the 2-byte
      window `a`, the others in the 8-byte window `b` (i3 signed by bit 0x21,
      i5 and i6 scaled by 4). */
  function CalibrationOf(a: seq<byte>, b: seq<byte>): CalibrationInfo
    requires |a| == 2 && |b| == 8
  {
    var i3 := BitsValue(b, 0, 8);
    CalibrationInfo(
      BitsValue(a, 0, 3), BitsValue(a, 3, 0xa),
      if BitsValue(b, 0x21, 1) != 0 then -i3 else i3,
      BitsValue(b, 8, 0xe), BitsValue(b, 0x28, 0xc) * 4, BitsValue(b, 0x34, 0xc) * 4)
  }

  /** The calibration read from the bytes at `a` and `b` of an image. */
  function CalibrationAt(fram: seq<byte>, a: nat, b: nat): CalibrationInfo
    requires a + 2 <= |fram| && b + 8 <= |fram|
  {
    CalibrationOf(Window(fram, a, 2), Window(fram, b, 8))
  }

  /** The calibration fields are bounded by their widths. */
  lemma CalibrationBounds(a: seq<byte>, b: seq<byte>)
    requires |a| == 2 && |b| == 8
    ensures var c := CalibrationOf(a, b);
      0 <= c.i1 < 8 && 0 <= c.i2 < 1024 && -256 < c.i3 < 256 && 0 <= c.i4 < 0x4000 &&
      0 <= c.i5 < 0x4000 && 0 <= c.i6 < 0x4000
  {
    BitsValueBound(a, 0, 3);
    BitsValueBound(a, 3, 0xa);
    BitsValueBound(b, 0, 8);
    BitsValueBound(b, 8, 0xe);
    BitsValueBound(b, 0x28, 0xc);
    BitsValueBound(b, 0x34, 0xc);
    assert Pow2(3) == 8 && Pow2(8) == 256 && Pow2(10) == 1024 && Pow2(12) == 4096 && Pow2(14) == 0x4000;
  }

  /** The calibration reads of `parseFRAM`. */
  method ReadCalibration(fram: seq<byte>, a: nat, b: nat) returns (c: CalibrationInfo)
    requires a + 2 <= |fram| && b + 8 <= |fram|
    ensures c == CalibrationAt(fram, a, b)
  {
    var i1 := ReadField(fram, a, 2, 0, 3);
    var i2 := ReadField(fram, a, 2, 3, 0xa);
    var i3 := ReadField(fram, b, 8, 0, 8);
    var i4 := ReadField(fram, b, 8, 8, 0xe);
    var negativei3 := ReadField(fram, b, 8, 0x21, 1);
    var i5 := ReadField(fram, b, 8, 0x28, 0xc);
    var i6 := ReadField(fram, b, 8, 0x34, 0xc);
    c := CalibrationInfo(i1, i2, if negativei3 != 0 then -i3 else i3, i4, i5 * 4, i6 * 4);
  }

  // ----- the CRC report -----

  datatype Section = HeaderSection | BodySection | FooterSection | CommandsSection

  /** One line of the report: the stored and the computed CRC of a section. */
  datatype CrcLine = CrcLine(section: Section, stored: u16, computed: u16)

  /** The report text, structured: nothing yet, the "did not complete"
      notice, or one line per section. */
  datatype CrcReport = NoReport | Incomplete | Lines(lines: seq<CrcLine>)

  predicate LineOk(l: CrcLine)
  {
    l.stored == l.computed
  }

  /** The report text contains "FAILED": some line's CRCs differ. */
  predicate ReportFailed(r: CrcReport)
  {
    r.Lines? && exists i :: 0 <= i < |r.lines| && !LineOk(r.lines[i])
  }

  /** The line of a section whose CRC is stored at `at` and covers
      `from ..< to`. */
  function CheckLine(section: Section, fram: seq<byte>, at: nat, from: nat, to: nat): CrcLine
    requires at + 1 < |fram| && from <= to <= |fram|
  {
    CrcLine(section, LE16(fram, at), Crc16(fram[from..to]))
  }

  /** The commands section is checked once the image holds all of it. */
  const CommandsEnd: nat := 344 + 195 * 8

  /** `updateCRCReport`: incomplete below 344 bytes, else the header, body
      and footer lines, then the commands line for a full image. */
  function FramReport(fram: seq<byte>): (r: CrcReport)
    ensures r == Incomplete <==> |fram| < 344
    ensures r.Lines? ==> |r.lines| == if |fram| >= CommandsEnd then 4 else 3
  {
    if |fram| < 344 then Incomplete
    else Lines(
      [CheckLine(HeaderSection, fram, 0, 2, 24),
       CheckLine(BodySection, fram, 24, 26, 320),
       CheckLine(FooterSection, fram, 320, 322, 344)] +
      (if |fram| >= CommandsEnd then [CheckLine(CommandsSection, fram, 344, 346, CommandsEnd)] else []))
  }

  /** The report of a complete image fails exactly when one of its
      sections' stored CRC differs from the computed one. */
  lemma FramReportFails(fram: seq<byte>)
    requires |fram| >= 344
    ensures ReportFailed(FramReport(fram)) <==>
      LE16(fram, 0) != Crc16(fram[2..24]) || LE16(fram, 24) != Crc16(fram[26..320]) ||
      LE16(fram, 320) != Crc16(fram[322..344]) ||
      (|fram| >= CommandsEnd && LE16(fram, 344) != Crc16(fram[346..CommandsEnd]))
  {
    var r := FramReport(fram);
    if LE16(fram, 0) != Crc16(fram[2..24]) { assert !LineOk(r.lines[0]); }
    if LE16(fram, 24) != Crc16(fram[26..320]) { assert !LineOk(r.lines[1]); }
    if LE16(fram, 320) != Crc16(fram[322..344]) { assert !LineOk(r.lines[2]); }
    if |fram| >= CommandsEnd && LE16(fram, 344) != Crc16(fram[346..CommandsEnd]) {
      assert !LineOk(r.lines[3]);
    }
  }

  /** An incomplete image never reports a failure. */
  lemma ShortReportNeverFails(fram: seq<byte>)
    requires |fram| < 344
    ensures !ReportFailed(FramReport(fram))
  {
  }

  // ----- the CRC fixer -----

  /** `w.data` written at `i`. */
  function Patch16(s: seq<byte>, i: nat, w: u16): (r: seq<byte>)
    requires i + 1 < |s|
    ensures |r| == |s|
  {
    s[i := Lo(w)][i + 1 := Hi(w)]
  }

  lemma Patch16Reads(s: seq<byte>, i: nat, w: u16)
    requires i + 1 < |s|
    ensures LE16(Patch16(s, i, w), i) == w
    ensures forall k :: 0 <= k < |s| && k != i && k != i + 1 ==> Patch16(s, i, w)[k] == s[k]
  {
    LeBytesRoundTrip(w);
  }

  /** The bytes `checksummedFRAM` may rewrite: the four CRC slots, the
      commands one only for an image longer than 344 bytes. */
  predicate CrcSlot(k: int, n: nat)
  {
    k == 0 || k == 1 || k == 24 || k == 25 || k == 320 || k == 321 || (n > 344 && (k == 344 || k == 345))
  }

  /** `checksummedFRAM`: recomputes every section CRC into its slot. An
      image longer than 344 bytes must hold the whole commands section. */
  method ChecksummedFram(data: seq<byte>) returns (fram: seq<byte>)
    requires |data| >= 344 && (|data| > 344 ==> |data| >= CommandsEnd)
    ensures |fram| == |data|
    ensures forall k :: 0 <= k < |data| && !CrcSlot(k, |data|) ==> fram[k] == data[k]
    ensures !ReportFailed(FramReport(fram))
  {
    fram := data;
    var headerCrc := ComputeCrc16(fram[2..24]);
    var bodyCrc := ComputeCrc16(fram[26..320]);
    var footerCrc := ComputeCrc16(fram[322..344]);
    var f0 := fram;
    fram := Patch16(fram, 0, headerCrc);
    Patch16Reads(f0, 0, headerCrc);
    var f1 := fram;
    fram := Patch16(fram, 24, bodyCrc);
    Patch16Reads(f1, 24, bodyCrc);
    var f2 := fram;
    fram := Patch16(fram, 320, footerCrc);
    Patch16Reads(f2, 320, footerCrc);
    assert fram[2..24] == data[2..24];
    assert fram[26..320] == data[26..320];
    assert fram[322..344] == data[322..344];
    assert LE16(fram, 0) == headerCrc;
    assert LE16(fram, 24) == bodyCrc;
    if |fram| > 344 {
      var commandsCrc := ComputeCrc16(fram[346..CommandsEnd]);
      var f3 := fram;
      fram := Patch16(fram, 344, commandsCrc);
      Patch16Reads(f3, 344, commandsCrc);
      assert fram[346..CommandsEnd] == f3[346..CommandsEnd];
      assert fram[2..24] == f3[2..24];
      assert fram[26..320] == f3[26..320];
      assert fram[322..344] == f3[322..344];
      assert LE16(fram, 0) == LE16(f3, 0) && LE16(fram, 24) == LE16(f3, 24) && LE16(fram, 320) == LE16(f3, 320);
    }
    FramReportFails(fram);
  }
}
