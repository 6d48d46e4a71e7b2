// The decrypted Libre 2 BLE packet and how it is merged into the sensor:
// ten packed 4-byte readings (7 sparse trend readings, then the 3 latest
// historic ones) followed by the 16-bit wear time at byte 40. The merge
// keys prior and new readings by id over a grid of -1 sentinels and keeps
// the newest 16 trend and 32 history entries.
module Libre2Ble {
  import opened Bytes
  import opened Bits
  import opened SensorTypes
  import opened Fram
  import opened SensorModel

  // ----- the ten readings -----

  /** The minutes before the wear time of the 7 sparse trend readings. */
  const TrendAges: seq<int> := [0, 2, 4, 6, 7, 12, 15]

  /** The id of the i-th reading: the wear time less its trend age for the
      7 trend readings; for the 3 historic ones, the wear time less the
      2-minute history delay rounded down to a quarter hour (truncating
      `/`), less a quarter hour per step back. */
  function BleId(wear: int, i: int): int
    requires 0 <= i < 10
  {
    if i < 7 then wear - TrendAges[i] else TruncDiv(wear - 2, 15) * 15 - 15 * (i - 7)
  }

  /** A 4-byte reading: 14 bits of raw value, 12 of temperature, 5 of
      adjustment and the adjustment's sign. A zero raw value is an error
      whose temperature bits carry the quality (and its bits 9-10 the
      flags); a reading with a value keeps the temperature, scaled by 4. */
  function BleReading(rec: seq<byte>, id: int): Glucose
    requires |rec| == 4
  {
    var raw := BitsValue(rec, 0, 0xe);
    var temperature := BitsValue(rec, 0xe, 0xc);
    var adjustment := BitsValue(rec, 0x1a, 0x5) * 4;
    Glucose(raw, raw, if raw != 0 then temperature * 4 else 0,
            if BitsValue(rec, 0x1f, 0x1) != 0 then -adjustment else adjustment,
            id, raw == 0, if raw == 0 then temperature else 0,
            if raw == 0 then (temperature / 512) % 4 else 0)
  }

  /** The wear time in minutes, little-endian at byte 40. */
  function Wear(data: seq<byte>): nat
    requires |data| >= 42
  {
    LeInt(data, 40)
  }

  function BleEntry(data: seq<byte>, i: int): Glucose
    requires |data| >= 42 && 0 <= i < 10
  {
    BleReading(Window(data, 4 * i, 4), BleId(Wear(data), i))
  }

  /** The ten readings `parseBLEData` returns, trend first. */
  function BleReadings(data: seq<byte>): (r: seq<Glucose>)
    requires |data| >= 42
    ensures |r| == 10
  {
    seq(10, i requires 0 <= i < 10 => BleEntry(data, i))
  }

  /** Trend ids lie 0, 2, 4, 6, 7, 12 and 15 minutes before the wear time,
      historic ids are a quarter hour apart, and a reading is in error
      exactly when its raw value is zero. */
  lemma BleReadingsShape(data: seq<byte>, i: nat)
    requires |data| >= 42 && i < 10
    ensures var g := BleReadings(data)[i];
      (i < 7 ==> g.id == Wear(data) - [0, 2, 4, 6, 7, 12, 15][i]) &&
      (i >= 7 ==> g.id == TruncDiv(Wear(data) - 2, 15) * 15 - 15 * (i - 7)) &&
      (g.hasError <==> g.rawValue == 0) && g.value == g.rawValue && 0 <= g.rawValue < 0x4000
  {
    BitsValueBound(Window(data, 4 * i, 4), 0, 0xe);
    assert Pow2(14) == 0x4000;
  }

  /** Once the sensor has worn for 2 minutes, the newest historic id is a
      whole number of quarter hours, between 2 and 16 minutes before the
      wear time. */
  lemma BleHistoryIds(data: seq<byte>)
    requires |data| >= 42 && Wear(data) >= 2
    ensures BleReadings(data)[7].id % 15 == 0
    ensures Wear(data) - 16 <= BleReadings(data)[7].id <= Wear(data) - 2
  {
    var w := Wear(data);
    assert BleReadings(data)[7] == BleEntry(data, 7);
    assert BleEntry(data, 7).id == BleId(w, 7);
    TruncMatchesEuclid(w - 2, 15);
    assert BleId(w, 7) == (w - 2) / 15 * 15;
  }

  function BlePrefix(data: seq<byte>, n: nat): (r: seq<Glucose>)
    requires |data| >= 42 && n <= 10
    ensures |r| == n
  {
    if n == 0 then [] else BlePrefix(data, n - 1) + [BleEntry(data, n - 1)]
  }

  lemma {:induction false} BlePrefixEntries(data: seq<byte>, n: nat)
    requires |data| >= 42 && n <= 10
    ensures forall k :: 0 <= k < n ==> BlePrefix(data, n)[k] == BleEntry(data, k)
  {
    if n > 0 {
      BlePrefixEntries(data, n - 1);
    }
  }

  /** One step of the reading loop. */
  method ReadBleEntry(data: seq<byte>, wear: int, i: int) returns (g: Glucose)
    requires |data| >= 42 && 0 <= i < 10 && wear == Wear(data)
    ensures g == BleEntry(data, i)
  {
    var rawValue := ReadField(data, 4 * i, 4, 0, 0xe);
    var rawTemperature := ReadField(data, 4 * i, 4, 0xe, 0xc);
    var temperatureAdjustment := ReadField(data, 4 * i, 4, 0x1a, 0x5);
    temperatureAdjustment := temperatureAdjustment * 4;
    var negativeAdjustment := ReadField(data, 4 * i, 4, 0x1f, 0x1);
    if negativeAdjustment != 0 {
      temperatureAdjustment := -temperatureAdjustment;
    }
    var id := wear;
    if i < 7 {
      id := id - [0, 2, 4, 6, 7, 12, 15][i];
    } else {
      id := TruncDiv(id - 2, 15) * 15 - 15 * (i - 7);
    }
    var quality := if rawValue == 0 then rawTemperature else 0;
    var qualityFlags := if rawValue == 0 then (rawTemperature / 512) % 4 else 0;
    g := Glucose(rawValue, rawValue, if rawValue != 0 then rawTemperature * 4 else 0,
                 temperatureAdjustment, id, rawValue == 0, quality, qualityFlags);
  }

  /** The reading loop: trend readings first, then historic ones. */
  method ReadBleReadings(data: seq<byte>) returns (bleTrend: seq<Glucose>, bleHistory: seq<Glucose>)
    requires |data| >= 42
    ensures bleTrend == BleReadings(data)[..7] && bleHistory == BleReadings(data)[7..]
  {
    var wear := data[40] as int + (data[41] as int) * 256;
    bleTrend := [];
    bleHistory := [];
    for i := 0 to 10
      invariant bleTrend + bleHistory == BlePrefix(data, i)
      invariant |bleTrend| == if i < 7 then i else 7
    {
      var g := ReadBleEntry(data, wear, i);
      if i < 7 {
        bleTrend := bleTrend + [g];
      } else {
        bleHistory := bleHistory + [g];
      }
    }
    BlePrefixEntries(data, 10);
    assert BlePrefix(data, 10) == BleReadings(data);
  }

  // ----- the dictionaries -----

  /** n sentinels keyed by id, `step` minutes apart down from `top`. */
  function Sentinels(top: int, step: int, n: nat): map<int, Glucose>
  {
    if n == 0 then map[] else Sentinels(top, step, n - 1)[top - step * (n - 1) := Missing(top - step * (n - 1))]
  }

  /** Every value of a dictionary is keyed by its own id. */
  predicate KeyedById(d: map<int, Glucose>)
  {
    forall k :: k in d ==> d[k].id == k
  }

  /** `dict[g.id] = g` for each reading of `gs` in order whose id is above
      `bound`. */
  function Overlay(d: map<int, Glucose>, gs: seq<Glucose>, bound: int): map<int, Glucose>
  {
    if |gs| == 0 then d
    else
      var before := Overlay(d, gs[..|gs| - 1], bound);
      var g := gs[|gs| - 1];
      if g.id > bound then before[g.id := g] else before
  }

  /** The last reading of `gs` with id k, if any. */
  function LastWithId(gs: seq<Glucose>, k: int): Option<Glucose>
  {
    if |gs| == 0 then None
    else if gs[|gs| - 1].id == k then Some(gs[|gs| - 1])
    else LastWithId(gs[..|gs| - 1], k)
  }

  /** The sentinel keys are top - step j for j below n. */
  lemma {:induction false} SentinelKeys(top: int, step: int, n: nat, k: int)
    ensures k in Sentinels(top, step, n) <==> exists j :: 0 <= j < n && k == top - step * j
    ensures k in Sentinels(top, step, n) ==> Sentinels(top, step, n)[k] == Missing(k)
  {
    if n > 0 {
      SentinelKeys(top, step, n - 1, k);
      if k == top - step * (n - 1) {
        assert exists j :: 0 <= j < n && k == top - step * j;
      }
      if exists j :: 0 <= j < n && k == top - step * j {
        var j :| 0 <= j < n && k == top - step * j;
        if j < n - 1 {
          assert exists j' :: 0 <= j' < n - 1 && k == top - step * j';
        }
      }
    }
  }

  /** The minutes of the trend grid. */
  lemma MinuteKeys(top: int, k: int)
    ensures k in Sentinels(top, 1, 16) <==> top - 16 < k <= top
  {
    SentinelKeys(top, 1, 16, k);
    if top - 16 < k <= top {
      assert k == top - 1 * (top - k);
    }
  }

  /** The quarter hours of the history grid. */
  lemma QuarterKeys(top: int, k: int)
    ensures k in Sentinels(top, 15, 32) <==> top - 32 * 15 < k <= top && (top - k) % 15 == 0
  {
    SentinelKeys(top, 15, 32, k);
    if k in Sentinels(top, 15, 32) {
      var j :| 0 <= j < 32 && k == top - 15 * j;
      assert top - k == 15 * j;
    }
    if top - 32 * 15 < k <= top && (top - k) % 15 == 0 {
      var j := (top - k) / 15;
      assert top - k == 15 * j;
      assert k == top - 15 * j;
    }
  }

  lemma MulStrict(a: int, b: int, c: int)
    requires a > 0 && b < c
    ensures a * b < a * c
  {
    assert a * c - a * b == a * (c - b);
  }

  /** n sentinels have n distinct keys. */
  lemma {:induction false} SentinelCount(top: int, step: int, n: nat)
    requires step > 0
    ensures |Sentinels(top, step, n).Keys| == n
  {
    if n > 0 {
      SentinelCount(top, step, n - 1);
      SentinelFresh(top, step, n - 1);
      var x := top - step * (n - 1);
      var before := Sentinels(top, step, n - 1);
      assert Sentinels(top, step, n) == before[x := Missing(x)];
      AddKey(before, x, Missing(x));
    }
  }

  lemma AddKey(m: map<int, Glucose>, k: int, v: Glucose)
    requires k !in m
    ensures |m[k := v].Keys| == |m.Keys| + 1
  {
    assert m[k := v].Keys == m.Keys + {k};
  }

  /** The next sentinel key down is not among the earlier ones. */
  lemma SentinelFresh(top: int, step: int, n: nat)
    requires step > 0
    ensures top - step * n !in Sentinels(top, step, n)
  {
    SentinelKeys(top, step, n, top - step * n);
    if top - step * n in Sentinels(top, step, n) {
      var j :| 0 <= j < n && top - step * n == top - step * j;
      MulStrict(step, j, n);
    }
  }

  /** After the overlay a key holds the last reading with that id above
      the bound, else what the dictionary held; no key is lost, and a
      dictionary keyed by id stays so. */
  lemma {:induction false} OverlayAt(d: map<int, Glucose>, gs: seq<Glucose>, bound: int, k: int)
    requires KeyedById(d)
    ensures KeyedById(Overlay(d, gs, bound))
    ensures k in Overlay(d, gs, bound) <==> k in d || (k > bound && LastWithId(gs, k).Some?)
    ensures k > bound && LastWithId(gs, k).Some? ==> Overlay(d, gs, bound)[k] == LastWithId(gs, k).value
    ensures !(k > bound && LastWithId(gs, k).Some?) && k in d ==> Overlay(d, gs, bound)[k] == d[k]
  {
    if |gs| > 0 {
      OverlayAt(d, gs[..|gs| - 1], bound, k);
    }
  }

  /** Every reading of a sequence is found by its id. */
  lemma {:induction false} LastWithIdFound(gs: seq<Glucose>, i: nat)
    requires i < |gs|
    ensures LastWithId(gs, gs[i].id).Some? && LastWithId(gs, gs[i].id).value.id == gs[i].id
  {
    if i < |gs| - 1 && gs[|gs| - 1].id != gs[i].id {
      LastWithIdFound(gs[..|gs| - 1], i);
    }
  }

  lemma {:induction false} LastWithIdIn(gs: seq<Glucose>, k: int)
    ensures LastWithId(gs, k).Some? ==>
      LastWithId(gs, k).value.id == k && exists i :: 0 <= i < |gs| && gs[i] == LastWithId(gs, k).value
  {
    if |gs| > 0 && gs[|gs| - 1].id != k {
      LastWithIdIn(gs[..|gs| - 1], k);
      if LastWithId(gs, k).Some? {
        var i :| 0 <= i < |gs| - 1 && gs[..|gs| - 1][i] == LastWithId(gs, k).value;
        assert gs[i] == LastWithId(gs, k).value;
      }
    }
  }

  // ----- sorting the dictionary values by id -----

  lemma Pick<T>(s: set<T>) returns (x: T)
    requires s != {}
    ensures x in s
  {
    x :| x in s;
  }

  lemma MaxOf(s: set<int>) returns (m: int)
    requires s != {}
    ensures m in s && forall y :: y in s ==> y <= m
  {
    var x := Pick(s);
    if s == {x} {
      m := x;
    } else {
      var rest := MaxOf(s - {x});
      m := if x > rest then x else rest;
      forall y | y in s ensures y <= m {
        if y != x {
          assert y in s - {x};
        }
      }
    }
  }

  lemma MaxExists(s: set<int>)
    requires s != {}
    ensures exists m :: m in s && forall y :: y in s ==> y <= m
  {
    var m := MaxOf(s);
  }

  /** `values.sorted(by: { $0.id > $1.id })` over the given keys: the
      largest key first. */
  function SortedDesc(d: map<int, Glucose>, keys: set<int>): seq<Glucose>
    requires keys <= d.Keys
    decreases |keys|
  {
    if keys == {} then []
    else
      MaxExists(keys);
      var m :| m in keys && forall y :: y in keys ==> y <= m;
      [d[m]] + SortedDesc(d, keys - {m})
  }

  predicate Decreasing(s: seq<Glucose>)
  {
    forall i, j :: 0 <= i < j < |s| ==> s[i].id > s[j].id
  }

  /** The sorted values of a dictionary keyed by id: one per key, every
      key, strictly decreasing. */
  lemma {:induction false} SortedDescFacts(d: map<int, Glucose>, keys: set<int>)
    requires keys <= d.Keys && KeyedById(d)
    decreases |keys|
    ensures |SortedDesc(d, keys)| == |keys|
    ensures Decreasing(SortedDesc(d, keys))
    ensures forall i :: 0 <= i < |SortedDesc(d, keys)| ==>
      SortedDesc(d, keys)[i].id in keys && SortedDesc(d, keys)[i] == d[SortedDesc(d, keys)[i].id]
  {
    if keys != {} {
      MaxExists(keys);
      var m :| m in keys && forall y :: y in keys ==> y <= m;
      var rest := SortedDesc(d, keys - {m});
      assert SortedDesc(d, keys) == [d[m]] + rest;
      SortedDescFacts(d, keys - {m});
      assert |keys - {m}| == |keys| - 1;
      DecreasingCons(d[m], rest);
    }
  }

  lemma DecreasingCons(g: Glucose, rest: seq<Glucose>)
    requires Decreasing(rest) && forall i :: 0 <= i < |rest| ==> rest[i].id < g.id
    ensures Decreasing([g] + rest)
  {
  }

  /** `prefix(n)`. */
  function Prefix(s: seq<Glucose>, n: nat): (r: seq<Glucose>)
    ensures |r| == if |s| <= n then |s| else n
    ensures forall i :: 0 <= i < |r| ==> r[i] == s[i]
  {
    if |s| <= n then s else s[..n]
  }

  /** Sorted ascending, `drop(while: { $0.value == -1 })`, then reversed:
      the descending order without its oldest run of sentinels. */
  function TrimMissing(s: seq<Glucose>): (r: seq<Glucose>)
    ensures |r| <= |s| && r == s[..|r|]
    ensures |r| > 0 ==> r[|r| - 1].value != -1
  {
    if |s| > 0 && s[|s| - 1].value == -1 then TrimMissing(s[..|s| - 1]) else s
  }

  // ----- the merge -----

  function TrendDict(prior: seq<Glucose>, wear: int): map<int, Glucose>
  {
    Overlay(Sentinels(wear, 1, 16), prior, wear - 16)
  }

  function HistoryDict(prior: seq<Glucose>, last: int): map<int, Glucose>
  {
    Overlay(Sentinels(last, 15, 32), prior, last - 32 * 15)
  }

  /** The merged trend over the readings `gs` (the prior trend, then the
      new trend readings). */
  function MergedTrend(gs: seq<Glucose>, wear: int): seq<Glucose>
  {
    var d := TrendDict(gs, wear);
    Prefix(SortedDesc(d, d.Keys), 16)
  }

  function MergedHistory(gs: seq<Glucose>, last: int): seq<Glucose>
  {
    var d := HistoryDict(gs, last);
    Prefix(TrimMissing(SortedDesc(d, d.Keys)), 32)
  }

  lemma SentinelsKeyed(top: int, step: int, n: nat)
    requires step > 0
    ensures KeyedById(Sentinels(top, step, n))
  {
    forall k | k in Sentinels(top, step, n) ensures Sentinels(top, step, n)[k].id == k {
      SentinelKeys(top, step, n, k);
    }
  }

  lemma SubsetCard(a: set<int>, b: set<int>)
    requires a <= b
    ensures |a| <= |b|
  {
    assert b == a + (b - a);
  }

  /** The merged trend holds exactly 16 readings with strictly decreasing
      ids. */
  lemma TrendMergeShape(gs: seq<Glucose>, wear: int)
    ensures |MergedTrend(gs, wear)| == 16
    ensures Decreasing(MergedTrend(gs, wear))
  {
    var d := TrendDict(gs, wear);
    SentinelsKeyed(wear, 1, 16);
    forall k | k in Sentinels(wear, 1, 16) ensures k in d {
      OverlayAt(Sentinels(wear, 1, 16), gs, wear - 16, k);
    }
    OverlayAt(Sentinels(wear, 1, 16), gs, wear - 16, 0);
    SortedDescFacts(d, d.Keys);
    SentinelCount(wear, 1, 16);
    SubsetCard(Sentinels(wear, 1, 16).Keys, d.Keys);
  }

  lemma {:induction false} DecreasingBelow(s: seq<Glucose>, top: int, i: nat)
    requires Decreasing(s) && i < |s| && |s| > 0 && s[0].id <= top
    ensures s[i].id <= top - i
  {
    if i > 0 {
      DecreasingBelow(s, top, i - 1);
    }
  }

  lemma {:induction false} DecreasingAbove(s: seq<Glucose>, bottom: int, i: nat)
    requires Decreasing(s) && i < |s| && s[|s| - 1].id >= bottom
    ensures s[i].id >= bottom + (|s| - 1 - i)
    decreases |s| - i
  {
    if i < |s| - 1 {
      DecreasingAbove(s, bottom, i + 1);
    }
  }

  /** When no reading is newer than the wear time, the merged trend holds
      one entry per minute, wear down to wear - 15: the last reading with
      that id, or a -1 sentinel where there is none. */
  lemma TrendMergeMinutes(gs: seq<Glucose>, wear: int, i: nat)
    requires forall j :: 0 <= j < |gs| ==> gs[j].id <= wear
    requires i < 16
    ensures i < |MergedTrend(gs, wear)| && MergedTrend(gs, wear)[i].id == wear - i
    ensures i < |MergedTrend(gs, wear)| && MergedTrend(gs, wear)[i] ==
      if LastWithId(gs, wear - i).Some? then LastWithId(gs, wear - i).value else Missing(wear - i)
  {
    var d := TrendDict(gs, wear);
    var r := MergedTrend(gs, wear);
    TrendMergeShape(gs, wear);
    SentinelsKeyed(wear, 1, 16);
    OverlayAt(Sentinels(wear, 1, 16), gs, wear - 16, wear - i);
    SortedDescFacts(d, d.Keys);
    forall k | k in d ensures wear - 16 < k <= wear {
      OverlayAt(Sentinels(wear, 1, 16), gs, wear - 16, k);
      MinuteKeys(wear, k);
      LastWithIdIn(gs, k);
    }
    assert r[0].id in d && r[15].id in d;
    DecreasingBelow(r, wear, i);
    DecreasingAbove(r, wear - 15, i);
    MinuteKeys(wear, wear - i);
    SentinelKeys(wear, 1, 16, wear - i);
  }

  /** The merged history holds at most 32 readings with strictly
      decreasing ids, and, when no more than 32 remain once the oldest
      sentinels are dropped, its oldest entry is a reading. */
  lemma HistoryMergeShape(gs: seq<Glucose>, last: int)
    ensures |MergedHistory(gs, last)| <= 32
    ensures Decreasing(MergedHistory(gs, last))
    ensures var d := HistoryDict(gs, last);
      var trimmed := TrimMissing(SortedDesc(d, d.Keys));
      0 < |trimmed| <= 32 ==> MergedHistory(gs, last)[|MergedHistory(gs, last)| - 1].value != -1
  {
    var d := HistoryDict(gs, last);
    SentinelsKeyed(last, 15, 32);
    OverlayAt(Sentinels(last, 15, 32), gs, last - 32 * 15, 0);
    SortedDescFacts(d, d.Keys);
  }

  /** When every reading lies on the quarter-hour grid below the newest
      historic id, the dictionary holds exactly the 32 grid ids, so the
      merged history ends in a reading whenever it holds one. */
  lemma HistoryMergeOnGrid(gs: seq<Glucose>, last: int)
    requires forall j :: 0 <= j < |gs| ==> gs[j].id <= last && (last - gs[j].id) % 15 == 0
    ensures var d := HistoryDict(gs, last); |TrimMissing(SortedDesc(d, d.Keys))| <= 32
    ensures |MergedHistory(gs, last)| > 0 ==>
      MergedHistory(gs, last)[|MergedHistory(gs, last)| - 1].value != -1
  {
    var d := HistoryDict(gs, last);
    SentinelsKeyed(last, 15, 32);
    forall k | k in d ensures k in Sentinels(last, 15, 32) {
      OverlayAt(Sentinels(last, 15, 32), gs, last - 32 * 15, k);
      QuarterKeys(last, k);
      LastWithIdIn(gs, k);
    }
    OverlayAt(Sentinels(last, 15, 32), gs, last - 32 * 15, 0);
    SortedDescFacts(d, d.Keys);
    SentinelCount(last, 15, 32);
    SubsetCard(d.Keys, Sentinels(last, 15, 32).Keys);
    HistoryMergeShape(gs, last);
  }

  /** The trend merge: a dictionary of 16 sentinels, then the prior and the
      new readings above wear - 16, sorted by decreasing id, first 16. */
  method MergeTrend(prior: seq<Glucose>, bleTrend: seq<Glucose>, wear: int) returns (merged: seq<Glucose>)
    ensures merged == MergedTrend(prior + bleTrend, wear)
  {
    var dict: map<int, Glucose> := map[];
    for i := 0 to 16
      invariant dict == Sentinels(wear, 1, i)
    {
      dict := dict[wear - i := Missing(wear - i)];
    }
    var gs := prior + bleTrend;
    for k := 0 to |gs|
      invariant dict == Overlay(Sentinels(wear, 1, 16), gs[..k], wear - 16)
    {
      assert gs[..k + 1][..k] == gs[..k];
      if gs[k].id > wear - 16 {
        dict := dict[gs[k].id := gs[k]];
      }
    }
    assert gs[..|gs|] == gs;
    merged := Prefix(SortedDesc(dict, dict.Keys), 16);
  }

  /** The history merge: 32 sentinels a quarter hour apart down from the
      newest historic id, then the readings above it less 8 hours, sorted,
      the oldest sentinels dropped, newest first, first 32. */
  method MergeHistory(prior: seq<Glucose>, bleHistory: seq<Glucose>, last: int) returns (merged: seq<Glucose>)
    ensures merged == MergedHistory(prior + bleHistory, last)
  {
    var dict: map<int, Glucose> := map[];
    for i := 0 to 32
      invariant dict == Sentinels(last, 15, i)
    {
      dict := dict[last - 15 * i := Missing(last - 15 * i)];
    }
    var gs := prior + bleHistory;
    for k := 0 to |gs|
      invariant dict == Overlay(Sentinels(last, 15, 32), gs[..k], last - 32 * 15)
    {
      assert gs[..k + 1][..k] == gs[..k];
      if gs[k].id > last - 32 * 15 {
        dict := dict[gs[k].id := gs[k]];
      }
    }
    assert gs[..|gs|] == gs;
    merged := Prefix(TrimMissing(SortedDesc(dict, dict.Keys)), 32);
  }

  /** `parseBLEData`: the wear time becomes the age, an unknown state
      becomes active, and the ten readings are merged into the trend and
      the history and returned. */
  method ParseBleData(s: Sensor, data: seq<byte>) returns (readings: seq<Glucose>)
    requires |data| >= 42
    modifies s`state, s`age, s`trend, s`history
    ensures readings == BleReadings(data)
    ensures s.age == Wear(data)
    ensures s.state == if old(s.state) == StateUnknown then Active else old(s.state)
    ensures s.trend == MergedTrend(old(s.trend) + BleReadings(data)[..7], Wear(data))
    ensures s.history == MergedHistory(old(s.history) + BleReadings(data)[7..], BleReadings(data)[7].id)
  {
    var wearTimeMinutes := Wear(data);
    var bleTrend, bleHistory := ReadBleReadings(data);
    var trend := MergeTrend(s.trend, bleTrend, wearTimeMinutes);
    var history := MergeHistory(s.history, bleHistory, bleHistory[0].id);
    if s.state == StateUnknown {
      s.state := Active;
    }
    s.age, s.trend, s.history := wearTimeMinutes, trend, history;
    readings := bleTrend + bleHistory;
    assert readings == BleReadings(data);
  }
}
