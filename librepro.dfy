// The Libre Pro FRAM layout: a 176-byte image of header (bytes 0-39),
// footer (40-71) and body (72-175), each led by the CRC16 of the rest of
// its section, followed by the unchecksummed historic measurements. The
// body holds the 16-bit age, trend index and history index at bytes 74, 76
// and 78 and a 16-slot trend ring at byte 80.
module LibrePro {
  import opened Bytes
  import opened Crc
  import opened Bits
  import opened SensorTypes
  import opened Fram

  /** `updateCRCReport` of the Libre Pro: incomplete below 176 bytes, else
      the header, footer and body lines in that order. */
  function ProReport(fram: seq<byte>): (r: CrcReport)
    ensures r == Incomplete <==> |fram| < 176
    ensures r.Lines? ==>
      |r.lines| == 3 && r.lines[0].section == HeaderSection &&
      r.lines[1].section == FooterSection && r.lines[2].section == BodySection
  {
    if |fram| < 176 then Incomplete
    else Lines([CheckLine(HeaderSection, fram, 0, 2, 40),
                CheckLine(FooterSection, fram, 40, 42, 72),
                CheckLine(BodySection, fram, 72, 74, 176)])
  }

  /** The three lines are independent: the report fails exactly when one
      section's stored CRC differs from the computed one. */
  lemma ProReportFails(fram: seq<byte>)
    requires |fram| >= 176
    ensures ReportFailed(ProReport(fram)) <==>
      LE16(fram, 0) != Crc16(fram[2..40]) || LE16(fram, 40) != Crc16(fram[42..72]) ||
      LE16(fram, 72) != Crc16(fram[74..176])
  {
    var r := ProReport(fram);
    if LE16(fram, 0) != Crc16(fram[2..40]) { assert !LineOk(r.lines[0]); }
    if LE16(fram, 40) != Crc16(fram[42..72]) { assert !LineOk(r.lines[1]); }
    if LE16(fram, 72) != Crc16(fram[74..176]) { assert !LineOk(r.lines[2]); }
  }

  /** A Libre Pro raw value keeps its low 13 bits (`& 0x1FFF`). */
  function Masked(g: Glucose): (r: Glucose)
    ensures r.rawValue == g.rawValue % 8192 && r.value == r.rawValue && r.id == g.id
  {
    g.(value := g.rawValue % 8192, rawValue := g.rawValue % 8192)
  }

  // ----- the trend ring -----

  /** Every trend record the walk reaches lies inside the image. */
  predicate ProTrendFits(fram: seq<byte>)
  {
    |fram| >= 176 && 86 + 6 * MaxSlot(LeInt(fram, 76), 16) <= |fram|
  }

  /** The i-th most recent trend reading, at byte 80 + 6 j of slot j. */
  function ProTrendEntry(fram: seq<byte>, age: int, i: int): Glucose
    requires ProTrendFits(fram) && 0 <= i < 16
  {
    SlotRange(LeInt(fram, 76), i, 16);
    Masked(RecordAt(fram, 80 + 6 * RingSlot(LeInt(fram, 76), i, 16), age - i))
  }

  /** The trend: 16 readings, the i-th most recent one with id age - i. */
  function ProTrendOf(fram: seq<byte>, age: int): (r: seq<Glucose>)
    requires ProTrendFits(fram)
    ensures |r| == 16
  {
    seq(16, i requires 0 <= i < 16 => ProTrendEntry(fram, age, i))
  }

  /** Trend ids count down from the age and every raw value is below 2^13. */
  lemma ProTrendIds(fram: seq<byte>, age: int, i: nat)
    requires ProTrendFits(fram) && i < 16
    ensures ProTrendOf(fram, age)[i].id == age - i
    ensures 0 <= ProTrendOf(fram, age)[i].rawValue < 8192
  {
  }

  function ProTrendPrefix(fram: seq<byte>, age: int, n: nat): (r: seq<Glucose>)
    requires ProTrendFits(fram) && n <= 16
    ensures |r| == n
  {
    if n == 0 then [] else ProTrendPrefix(fram, age, n - 1) + [ProTrendEntry(fram, age, n - 1)]
  }

  lemma {:induction false} ProTrendPrefixEntries(fram: seq<byte>, age: int, n: nat)
    requires ProTrendFits(fram) && n <= 16
    ensures forall k :: 0 <= k < n ==> ProTrendPrefix(fram, age, n)[k] == ProTrendEntry(fram, age, k)
  {
    if n > 0 {
      ProTrendPrefixEntries(fram, age, n - 1);
    }
  }

  lemma ProTrendStep(fram: seq<byte>, age: int, i: int, offset: int)
    requires ProTrendFits(fram) && 0 <= i < 16 && offset == 80 + 6 * RingSlot(LeInt(fram, 76), i, 16)
    requires offset + 6 <= |fram|
    ensures Masked(RecordAt(fram, offset, age - i)) == ProTrendEntry(fram, age, i)
  {
  }

  /** One step of the trend loop. */
  method ReadProTrendEntry(fram: seq<byte>, age: int, i: int) returns (g: Glucose)
    requires ProTrendFits(fram) && 0 <= i < 16
    ensures g == ProTrendEntry(fram, age, i)
  {
    var trendIndex := fram[76] as int + (fram[77] as int) * 256;
    var j := trendIndex - 1 - i;
    if j < 0 { j := j + 16; }
    assert j == RingSlot(LeInt(fram, 76), i, 16);
    SlotRange(trendIndex, i, 16);
    var offset := 80 + j * 6;
    ProTrendStep(fram, age, i, offset);
    g := ReadRecord(fram, offset, age - i);
    g := Masked(g);
  }

  /** The trend loop of the Libre Pro `parseFRAM`. */
  method BuildProTrend(fram: seq<byte>, age: int) returns (trend: seq<Glucose>)
    requires ProTrendFits(fram)
    ensures trend == ProTrendOf(fram, age)
  {
    trend := [];
    for i := 0 to 16
      invariant trend == ProTrendPrefix(fram, age, i)
    {
      var g := ReadProTrendEntry(fram, age, i);
      trend := trend + [g];
    }
    ProTrendPrefixEntries(fram, age, 16);
  }

  // ----- the history, read without wrapping -----

  /** Where the i-th history reading is read from in an image of `len`
      bytes: byte 176 + 6 (index - 1 - i), the index not wrapped; when that
      record is beyond the image, the i-th most recent of the records
      scanned after byte 176, and none when there are not that many. */
  function ProHistorySlot(len: nat, index: int, i: int): Option<int>
    requires len >= 176
  {
    var offset := 176 + (index - 1 - i) * 6;
    if len < offset + 6 then
      var scanned := (len - 176) / 6;
      var fallback := 176 + (scanned - 1 - i) * 6;
      if fallback < 176 then None else Some(fallback)
    else Some(offset)
  }

  /** Every slot found lies inside the image. */
  lemma ProHistorySlotFits(len: nat, index: int, i: int)
    requires len >= 176 && i >= 0
    ensures ProHistorySlot(len, index, i).Some? ==> ProHistorySlot(len, index, i).value + 6 <= len
  {
    var scanned := (len - 176) / 6;
    assert scanned * 6 <= len - 176;
  }

  /** A reading is skipped exactly when its record is beyond the image and
      fewer than i + 1 records were scanned. */
  lemma ProHistorySkip(len: nat, index: int, i: int)
    requires len >= 176
    ensures ProHistorySlot(len, index, i).None? <==>
      len < 176 + (index - 1 - i) * 6 + 6 && (len - 176) / 6 < i + 1
  {
  }

  /** The reading the i-th history step appends, if any. */
  function ProHistoryEntry(fram: seq<byte>, age: int, i: int): Option<Glucose>
    requires |fram| >= 176 && i >= 0
  {
    match ProHistorySlot(|fram|, LeInt(fram, 78), i)
    case None => None
    case Some(offset) =>
      ProHistorySlotFits(|fram|, LeInt(fram, 78), i);
      Some(Masked(RecordAt(fram, offset, age - HistoryDelay(age) - 15 * i)))
  }

  /** The history after the first n steps of the loop. */
  function ProHistoryPrefix(fram: seq<byte>, age: int, n: nat): (r: seq<Glucose>)
    requires |fram| >= 176
  {
    if n == 0 then []
    else
      var prefix := ProHistoryPrefix(fram, age, n - 1);
      var e := ProHistoryEntry(fram, age, n - 1);
      if e.Some? then prefix + [e.value] else prefix
  }

  lemma ProHistoryPrefixNext(fram: seq<byte>, age: int, n: nat, e: Option<Glucose>)
    requires |fram| >= 176 && e == ProHistoryEntry(fram, age, n)
    ensures ProHistoryPrefix(fram, age, n + 1) ==
      if e.Some? then ProHistoryPrefix(fram, age, n) + [e.value] else ProHistoryPrefix(fram, age, n)
  {
  }

  function ProHistoryOf(fram: seq<byte>, age: int): seq<Glucose>
    requires |fram| >= 176
  {
    ProHistoryPrefix(fram, age, 32)
  }

  /** At most one reading per step, each with id age - delay - 15 i, so the
      ids decrease strictly and stay above age - delay - 15 n. */
  lemma {:induction false} ProHistoryIds(fram: seq<byte>, age: int, n: nat)
    requires |fram| >= 176
    ensures |ProHistoryPrefix(fram, age, n)| <= n
    ensures forall k :: 0 <= k < |ProHistoryPrefix(fram, age, n)| ==>
      ProHistoryPrefix(fram, age, n)[k].id > age - HistoryDelay(age) - 15 * n
    ensures forall k :: 0 < k < |ProHistoryPrefix(fram, age, n)| ==>
      ProHistoryPrefix(fram, age, n)[k - 1].id > ProHistoryPrefix(fram, age, n)[k].id
  {
    if n > 0 {
      ProHistoryIds(fram, age, n - 1);
    }
  }

  /** The history holds at most 32 readings with strictly decreasing ids. */
  lemma ProHistoryShape(fram: seq<byte>, age: int)
    requires |fram| >= 176
    ensures |ProHistoryOf(fram, age)| <= 32
    ensures forall k :: 0 < k < |ProHistoryOf(fram, age)| ==>
      ProHistoryOf(fram, age)[k - 1].id > ProHistoryOf(fram, age)[k].id
  {
    ProHistoryIds(fram, age, 32);
  }

  /** An image holding every record of the unwrapped walk fills all 32. */
  lemma {:induction false} ProHistoryFull(fram: seq<byte>, age: int, n: nat)
    requires |fram| >= 176 && n <= 32
    requires forall i :: 0 <= i < n ==> ProHistorySlot(|fram|, LeInt(fram, 78), i).Some?
    ensures |ProHistoryPrefix(fram, age, n)| == n
  {
    if n > 0 {
      ProHistoryFull(fram, age, n - 1);
    }
  }

  /** One step of the history loop; `continue` appends nothing. */
  method ReadProHistoryEntry(fram: seq<byte>, age: int, delay: int, i: int) returns (g: Option<Glucose>)
    requires |fram| >= 176 && 0 <= i && delay == HistoryDelay(age)
    ensures g == ProHistoryEntry(fram, age, i)
  {
    var historyIndex := fram[78] as int + (fram[79] as int) * 256;
    var j := historyIndex - 1 - i;
    var offset := 176 + j * 6;
    if |fram| < offset + 6 {
      var scanned := (|fram| - 176) / 6;
      offset := 176 + (scanned - 1 - i) * 6;
      if offset < 176 {
        return None;
      }
    }
    assert historyIndex == LeInt(fram, 78);
    assert ProHistorySlot(|fram|, LeInt(fram, 78), i) == Some(offset);
    ProHistorySlotFits(|fram|, LeInt(fram, 78), i);
    var r := ReadRecord(fram, offset, age - delay - 15 * i);
    g := Some(Masked(r));
  }

  /** The history loop of the Libre Pro `parseFRAM`. */
  method BuildProHistory(fram: seq<byte>, age: int) returns (history: seq<Glucose>)
    requires |fram| >= 176
    ensures history == ProHistoryOf(fram, age)
  {
    history := [];
    var delay := TruncMod(age - 3, 15) + 3;
    assert delay == HistoryDelay(age);
    for i := 0 to 32
      invariant history == ProHistoryPrefix(fram, age, i)
    {
      var g := ReadProHistoryEntry(fram, age, delay, i);
      ProHistoryPrefixNext(fram, age, i, g);
      if g.Some? {
        history := history + [g.value];
      }
    }
  }

  // ----- the history read of `execute(.readFRAM)` -----

  /** The block arithmetic for reading the historic measurements, with
      Swift's truncating `/` and `%`: the first block past the 22 readable
      ones, the byte offset of the first measurement in it, and the number
      of blocks to read. */
  datatype HistoryRead = HistoryRead(startIndex: int, offset: int, blockCount: int)

  function ProHistoryRead(historyIndex: int): HistoryRead
  {
    var bytes := (historyIndex - 1) * 6;
    var offset := TruncMod(8 - TruncMod(bytes, 8), 8);
    HistoryRead(
      Max(TruncDiv(bytes, 8) - 31, 0), offset,
      Min(TruncDiv(bytes, 8), if offset == 0 then 24 else 25))
  }

  function Max(a: int, b: int): int { if a >= b then a else b }
  function Min(a: int, b: int): int { if a <= b then a else b }

  /** For any 16-bit history index the read starts at a valid block, the
      offset is even and below 8, and at most 25 blocks are read. */
  lemma ProHistoryReadBounds(historyIndex: int)
    requires 0 <= historyIndex < 0x1_0000
    ensures var r := ProHistoryRead(historyIndex);
      r.startIndex >= 0 && r.offset in {0, 2, 4, 6} && 0 <= r.blockCount <= 25
  {
    if historyIndex == 0 {
      assert ProHistoryRead(0) == HistoryRead(0, 6, 0);
    } else {
      var bytes := (historyIndex - 1) * 6;
      EvenRemainder(historyIndex - 1);
      TruncMatchesEuclid(bytes, 8);
      var m := bytes % 8;
      TruncMatchesEuclid(8 - m, 8);
      assert ProHistoryRead(historyIndex).offset == (8 - m) % 8;
    }
  }

  lemma EvenRemainder(k: nat)
    ensures (k * 6) % 8 in {0, 2, 4, 6}
  {
    var q := (k * 6) / 8;
    var m := (k * 6) % 8;
    assert k * 6 == 8 * q + m;
    assert m == 2 * (3 * k - 4 * q);
  }

  /** Under floored division the index 0 would ask for -1 blocks. */
  lemma FlooredReadIsNegative()
    ensures ((0 - 1) * 6) / 8 == -1
  {
  }

  /** The byte range `lo ..< hi` taken out of the blockCount * 8 bytes read. */
  datatype Slice = Slice(lo: int, hi: int)

  predicate SliceFits(r: HistoryRead, s: Slice)
  {
    0 <= s.lo <= s.hi <= Max(r.blockCount, 0) * 8
  }

  /** The range the code slices: `offset ..< offset + measurements * 6`,
      where the measurements are the whole blocks read divided by 6,
      counted from byte 0 rather than from the offset. */
  function SliceAsWritten(r: HistoryRead): Slice
  {
    Slice(r.offset, r.offset + TruncDiv(Max(r.blockCount, 0) * 8, 6) * 6)
  }

  /** With history index 6 the code reads 3 blocks (24 bytes) and slices
      bytes 2 ..< 26 out of them. */
  lemma SliceOverrunsAtIndex6()
    ensures ProHistoryRead(6) == HistoryRead(0, 2, 3)
    ensures SliceAsWritten(ProHistoryRead(6)) == Slice(2, 26)
    ensures !SliceFits(ProHistoryRead(6), SliceAsWritten(ProHistoryRead(6)))
  {
  }

  /** With history index 0 the code reads no block and slices 6 ..< 6. */
  lemma SliceOverrunsAtIndex0()
    ensures ProHistoryRead(0) == HistoryRead(0, 6, 0)
    ensures SliceAsWritten(ProHistoryRead(0)) == Slice(6, 6)
    ensures !SliceFits(ProHistoryRead(0), SliceAsWritten(ProHistoryRead(0)))
  {
  }

  /** The measurements that fit after the offset, and none when the offset
      is past the bytes read. */
  function Measurements(r: HistoryRead): nat
  {
    var available := Max(r.blockCount, 0) * 8 - r.offset;
    if available <= 0 then 0 else available / 6
  }

  function HistorySlice(r: HistoryRead): Slice
  {
    if Measurements(r) == 0 then Slice(0, 0)
    else Slice(r.offset, r.offset + Measurements(r) * 6)
  }

  /** For every 16-bit history index the corrected slice lies inside the
      bytes read, holds whole measurements, and leaves less than one
      measurement after it. */
  lemma HistorySliceFits(historyIndex: int)
    requires 0 <= historyIndex < 0x1_0000
    ensures var r := ProHistoryRead(historyIndex);
      SliceFits(r, HistorySlice(r)) &&
      (HistorySlice(r).hi - HistorySlice(r).lo) % 6 == 0 &&
      Max(r.blockCount, 0) * 8 - HistorySlice(r).hi < 6 + r.offset
  {
    ProHistoryReadBounds(historyIndex);
    var r := ProHistoryRead(historyIndex);
    var available := Max(r.blockCount, 0) * 8 - r.offset;
    if available > 0 {
      assert available / 6 * 6 <= available < available / 6 * 6 + 6;
    }
  }
}
