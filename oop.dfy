// The off-line-processing (OOP) client of OOP.swift, without its network:
// the response enums, the history a response yields, the endpoint and the
// query of a post, and how a history response is fitted to the display.

module Oop {
  import opened Bytes
  import opened SensorTypes

  // ---------------------------------------------------------------------
  // Response enums
  // ---------------------------------------------------------------------

  /** `OOP.TrendArrow`, in declaration order. */
  datatype TrendArrow =
    | UnknownArrow | NotDeterminedArrow | FallingQuickly | Falling | Stable | Rising | RisingQuickly

  const AllArrows: seq<TrendArrow> :=
    [UnknownArrow, NotDeterminedArrow, FallingQuickly, Falling, Stable, Rising, RisingQuickly]

  function ArrowDescription(a: TrendArrow): string
  {
    match a
    case NotDeterminedArrow => "NOT_DETERMINED"
    case FallingQuickly => "FALLING_QUICKLY"
    case Falling => "FALLING"
    case Stable => "STABLE"
    case Rising => "RISING"
    case RisingQuickly => "RISING_QUICKLY"
    case UnknownArrow => ""
  }

  lemma ArrowDescriptionsDistinct(a: TrendArrow, b: TrendArrow)
    ensures ArrowDescription(a) == ArrowDescription(b) ==> a == b
  {
    if ArrowDescription(a) == ArrowDescription(b) {
      var d := ArrowDescription(a);
      assert |d| > 0 ==> d[0] == ArrowDescription(b)[0];
    }
  }

  /** `TrendArrow(string:)`: the first case in `allCases` whose
      description is `s`, and `unknown` when none is. Since descriptions
      are distinct, every case survives the round trip through its
      description, `unknown` included (its description is ""). */
  method ArrowOfString(s: string) returns (a: TrendArrow)
    ensures forall b: TrendArrow :: ArrowDescription(b) == s ==> a == b
    ensures (forall b: TrendArrow :: ArrowDescription(b) != s) ==> a == UnknownArrow
  {
    for k := 0 to |AllArrows|
      invariant forall j :: 0 <= j < k ==> ArrowDescription(AllArrows[j]) != s
    {
      if s == ArrowDescription(AllArrows[k]) {
        a := AllArrows[k];
        forall b: TrendArrow | ArrowDescription(b) == s
          ensures a == b
        {
          ArrowDescriptionsDistinct(a, b);
        }
        return;
      }
    }
    a := UnknownArrow;
    forall b: TrendArrow
      ensures ArrowDescription(b) != s
    {
      assert b == AllArrows[0] || b == AllArrows[1] || b == AllArrows[2] || b == AllArrows[3]
          || b == AllArrows[4] || b == AllArrows[5] || b == AllArrows[6];
    }
  }

  /** `OOP.Alarm`, in declaration order. */
  datatype Alarm =
    | UnknownAlarm | NotDeterminedAlarm | LowGlucose | ProjectedLowGlucose | GlucoseOk
    | ProjectedHighGlucose | HighGlucose

  const AllAlarms: seq<Alarm> :=
    [UnknownAlarm, NotDeterminedAlarm, LowGlucose, ProjectedLowGlucose, GlucoseOk,
     ProjectedHighGlucose, HighGlucose]

  function AlarmDescription(a: Alarm): string
  {
    match a
    case NotDeterminedAlarm => "NOT_DETERMINED"
    case LowGlucose => "LOW_GLUCOSE"
    case ProjectedLowGlucose => "PROJECTED_LOW_GLUCOSE"
    case GlucoseOk => "GLUCOSE_OK"
    case ProjectedHighGlucose => "PROJECTED_HIGH_GLUCOSE"
    case HighGlucose => "HIGH_GLUCOSE"
    case UnknownAlarm => ""
  }

  lemma AlarmDescriptionsDistinct(a: Alarm, b: Alarm)
    ensures AlarmDescription(a) == AlarmDescription(b) ==> a == b
  {
    if AlarmDescription(a) == AlarmDescription(b) {
      var d := AlarmDescription(a);
      assert |d| > 0 ==> d[0] == AlarmDescription(b)[0];
      assert |d| > 9 ==> d[9] == AlarmDescription(b)[9];
    }
  }

  /** `Alarm(string:)`, by the same rule as `TrendArrow(string:)`. */
  method AlarmOfString(s: string) returns (a: Alarm)
    ensures forall b: Alarm :: AlarmDescription(b) == s ==> a == b
    ensures (forall b: Alarm :: AlarmDescription(b) != s) ==> a == UnknownAlarm
  {
    for k := 0 to |AllAlarms|
      invariant forall j :: 0 <= j < k ==> AlarmDescription(AllAlarms[j]) != s
    {
      if s == AlarmDescription(AllAlarms[k]) {
        a := AllAlarms[k];
        forall b: Alarm | AlarmDescription(b) == s
          ensures a == b
        {
          AlarmDescriptionsDistinct(a, b);
        }
        return;
      }
    }
    a := UnknownAlarm;
    forall b: Alarm
      ensures AlarmDescription(b) != s
    {
      assert b == AllAlarms[0] || b == AllAlarms[1] || b == AllAlarms[2] || b == AllAlarms[3]
          || b == AllAlarms[4] || b == AllAlarms[5] || b == AllAlarms[6];
    }
  }

  // ---------------------------------------------------------------------
  // The history of a response
  // ---------------------------------------------------------------------

  /** `GlucoseSpaceHistoricGlucose`. */
  datatype HistoricGlucose = HistoricGlucose(value: int, dataQuality: int, id: int)

  /** The fields of a `Glucose` built from an OOP value; dates are whole
      seconds. */
  datatype OopGlucose = OopGlucose(value: int, id: int, date: int, dataQuality: int)

  /** The list in the order `glucoseData` walks it: reversed when the
      first id is below the last (an empty list counts as ids 0 and 0). */
  function Oriented(history: seq<HistoricGlucose>): seq<HistoricGlucose>
  {
    var first := if |history| > 0 then history[0].id else 0;
    var last := if |history| > 0 then history[|history| - 1].id else 0;
    if first < last then Reversed(history) else history
  }

  function Reversed<T>(s: seq<T>): (r: seq<T>)
    ensures |r| == |s| && forall k :: 0 <= k < |s| ==> r[k] == s[|s| - 1 - k]
  {
    seq(|s|, k requires 0 <= k < |s| => s[|s| - 1 - k])
  }

  /** The list `glucoseData` walks holds the response's values, each once,
      with the first id never below the last. */
  lemma OrientedNewestFirst(history: seq<HistoricGlucose>)
    ensures |Oriented(history)| == |history|
    ensures multiset(Oriented(history)) == multiset(history)
    ensures |history| > 0 ==> Oriented(history)[0].id >= Oriented(history)[|history| - 1].id
    ensures |history| > 0 && history[0].id >= history[|history| - 1].id ==> Oriented(history) == history
  {
    if |history| > 0 && history[0].id < history[|history| - 1].id {
      ReversedSameElements(history);
    }
  }

  lemma {:induction false} ReversedSameElements<T>(s: seq<T>)
    ensures multiset(Reversed(s)) == multiset(s)
    decreases |s|
  {
    if s != [] {
      var t := s[1..];
      ReversedSameElements(t);
      assert Reversed(s) == Reversed(t) + [s[0]];
      assert s == [s[0]] + t;
    }
  }

  /** The entry `glucoseData` makes of one value. */
  function Entry(g: HistoricGlucose, startDate: int): (e: OopGlucose)
    ensures e.value == g.value && e.id == g.id && e.dataQuality == g.dataQuality
  {
    OopGlucose(g.value, g.id, startDate + g.id * 60, g.dataQuality)
  }

  /** `GlucoseSpaceHistoryResponse`, with the fields `glucoseData` reads
      and writes. */
  class HistoryResponse {
    var currentGlucose: int
    var historyValues: seq<OopGlucose>
    var historicGlucose: seq<HistoricGlucose>
    var realTimeGlucose: HistoricGlucose

    constructor (historic: seq<HistoricGlucose>, realTime: HistoricGlucose)
      ensures currentGlucose == 0 && historyValues == []
      ensures historicGlucose == historic && realTimeGlucose == realTime
    {
      currentGlucose := 0;
      historyValues := [];
      historicGlucose := historic;
      realTimeGlucose := realTime;
    }

    /** `glucoseData(sensorAge:readingDate:)`: one entry per historic
        value in `Oriented` order, dated from the sensor start; the
        current value becomes the real-time one. */
    method GlucoseData(sensorAge: int, readingDate: int) returns (r: seq<OopGlucose>)
      modifies this
      ensures historicGlucose == old(historicGlucose) && realTimeGlucose == old(realTimeGlucose)
      ensures currentGlucose == realTimeGlucose.value
      ensures r == historyValues
      ensures |r| == |historicGlucose|
      ensures forall k :: 0 <= k < |r| ==>
        r[k] == Entry(Oriented(historicGlucose)[k], readingDate - sensorAge * 60)
    {
      var startDate := readingDate - sensorAge * 60;
      currentGlucose := realTimeGlucose.value;
      var history := Oriented(historicGlucose);
      var values: seq<OopGlucose> := [];
      for k := 0 to |history|
        invariant |values| == k
        invariant forall j :: 0 <= j < k ==> values[j] == Entry(history[j], startDate)
      {
        values := values + [Entry(history[k], startDate)];
      }
      historyValues := values;
      r := values;
    }
  }

  // ---------------------------------------------------------------------
  // postToOOP: endpoint and query
  // ---------------------------------------------------------------------

  /** `OOPServer`, with the fields a post uses. */
  datatype OopServer = OopServer(
    siteUrl: string, token: string,
    calibrationEndpoint: Option<string>, historyEndpoint: Option<string>,
    historyAndCalibrationEndpoint: Option<string>, bleHistoryEndpoint: Option<string>,
    activationEndpoint: Option<string>)

  const DefaultServer := OopServer("https://www.glucose.space", "bubble-201907",
    Some("calibrateSensor"), Some("libreoop2"), Some("libreoop2AndCalibrate"),
    Some("libreoop2BleData"), Some("activation"))

  datatype Endpoint = CalibrationEndpoint | HistoryEndpoint | HistoryAndCalibrationEndpoint
                    | BleHistoryEndpoint | ActivationEndpoint

  /** The endpoint `postToOOP` picks. `session` is optional, so only an
      empty one (not a missing one) selects the plain history endpoint. */
  function EndpointFor(hasPatchInfo: bool, count: nat, session: Option<string>): (e: Endpoint)
    ensures !hasPatchInfo <==> e == CalibrationEndpoint
    ensures hasPatchInfo ==> (count == 0 <==> e == ActivationEndpoint)
    ensures hasPatchInfo ==> (1 <= count <= 46 <==> e == BleHistoryEndpoint)
    ensures hasPatchInfo && count > 46 ==>
      e == (if session == Some("") then HistoryEndpoint else HistoryAndCalibrationEndpoint)
  {
    if !hasPatchInfo then CalibrationEndpoint
    else if count > 0 then
      (if count > 46 then (if session == Some("") then HistoryEndpoint else HistoryAndCalibrationEndpoint)
       else BleHistoryEndpoint)
    else ActivationEndpoint
  }

  function EndpointPath(server: OopServer, e: Endpoint): Option<string>
  {
    match e
    case CalibrationEndpoint => server.calibrationEndpoint
    case HistoryEndpoint => server.historyEndpoint
    case HistoryAndCalibrationEndpoint => server.historyAndCalibrationEndpoint
    case BleHistoryEndpoint => server.bleHistoryEndpoint
    case ActivationEndpoint => server.activationEndpoint
  }

  /** The URL string of a post, or None where an endpoint the server lacks
      is force-unwrapped (a trap). */
  function PostUrl(server: OopServer, patchInfo: Option<seq<byte>>, bytes: seq<byte>, session: Option<string>): (u: Option<string>)
    ensures u.Some? <==> EndpointPath(server, EndpointFor(patchInfo.Some?, |bytes|, session)).Some?
    ensures u.Some? ==> u.value == server.siteUrl + "/" + EndpointPath(server, EndpointFor(patchInfo.Some?, |bytes|, session)).value
  {
    match EndpointPath(server, EndpointFor(patchInfo.Some?, |bytes|, session))
    case Some(path) => Some(server.siteUrl + "/" + path)
    case None => None
  }

  /** A query value: text, or the hex string, the rounded millisecond
      timestamp, or the optional session the value is printed from. */
  datatype QueryValue = Text(s: string) | HexOf(bytes: seq<byte>) | Millis(ms: int) | SessionText(session: Option<string>)

  datatype QueryItem = QueryItem(name: string, value: QueryValue)

  /** The query items of `postToOOP`, or None when `patchUid` is missing
      beside a `patchInfo` (a force-unwrap trap). */
  function Query(server: OopServer, bytes: seq<byte>, millis: int, patchUid: Option<seq<byte>>,
                 patchInfo: Option<seq<byte>>, session: Option<string>): Option<seq<QueryItem>>
  {
    var content := if |bytes| > 0 then [QueryItem("content", HexOf(bytes))] else [];
    match patchInfo
    case Some(info) =>
      if patchUid.None? then None
      else
        var items := content + [
          QueryItem("accesstoken", Text(server.token)),
          QueryItem("patchUid", HexOf(patchUid.value)),
          QueryItem("patchInfo", HexOf(info)),
          QueryItem("appName", Text("diabox")),
          QueryItem("oopType", Text("OOP1AndOOP2")),
          QueryItem("session", SessionText(session))];
        if |bytes| == 46 then
          Some(items + [QueryItem("appName", Text("Diabox")), QueryItem("cgmType", Text("libre2ble"))])
        else Some(items)
    case None =>
      Some(content + [QueryItem("token", Text(server.token)), QueryItem("timestamp", Millis(millis))])
  }

  /** The shape of the query: `content` comes first and only for non-empty
      bytes; with a patch info six fixed items follow, and two more for a
      46-byte BLE history; without one, the token and the timestamp. */
  lemma QueryShape(server: OopServer, bytes: seq<byte>, millis: int, patchUid: Option<seq<byte>>,
                   patchInfo: Option<seq<byte>>, session: Option<string>)
    ensures var q := Query(server, bytes, millis, patchUid, patchInfo, session);
      var c := if |bytes| > 0 then 1 else 0;
      (q.None? <==> patchInfo.Some? && patchUid.None?) &&
      (q.Some? ==>
        (|bytes| > 0 <==> |q.value| > 0 && q.value[0] == QueryItem("content", HexOf(bytes))) &&
        (forall k :: c <= k < |q.value| ==> q.value[k].name != "content") &&
        (patchInfo.Some? ==>
          |q.value| == c + 6 + (if |bytes| == 46 then 2 else 0) &&
          q.value[c].name == "accesstoken" && q.value[c + 5] == QueryItem("session", SessionText(session))) &&
        (patchInfo.None? ==>
          q.value[c..] == [QueryItem("token", Text(server.token)), QueryItem("timestamp", Millis(millis))]))
  {
    var q := Query(server, bytes, millis, patchUid, patchInfo, session);
    var c := if |bytes| > 0 then 1 else 0;
    if q.Some? {
      forall k | c <= k < |q.value|
        ensures q.value[k].name != "content"
      {
        var n := q.value[k].name;
        assert n in {"accesstoken", "patchUid", "patchInfo", "appName", "oopType", "session",
                     "cgmType", "token", "timestamp"};
      }
    }
  }

  // ---------------------------------------------------------------------
  // applyOOP: fitting the history to the display
  // ---------------------------------------------------------------------

  /** The history after the leading null value is dropped: a first entry
      of value 0 goes when the second's id is the first raw id. */
  function DropStaleFirst(oop: seq<OopGlucose>, rawIds: seq<int>): (r: seq<OopGlucose>)
    ensures r == oop || (|oop| > 1 && r == oop[1..] && oop[0].value == 0)
  {
    if |oop| > 1 && |rawIds| > 0 && oop[0].value == 0 && oop[1].id == rawIds[0] then oop[1..]
    else oop
  }

  function Filler(n: int, filler: OopGlucose): (r: seq<OopGlucose>)
    ensures |r| == if n > 0 then n else 0
    ensures forall k :: 0 <= k < |r| ==> r[k] == filler
  {
    if n > 0 then seq(n, _ => filler) else []
  }

  /** The values `applyOOP` shows, as written: the padding is computed
      from the count taken BEFORE the stale first value is dropped. */
  function ShownHistoryAsWritten(oop: seq<OopGlucose>, rawIds: seq<int>, filler: OopGlucose): seq<OopGlucose>
  {
    var count := |oop|;
    var kept := DropStaleFirst(oop, rawIds);
    if count > 0 then kept + Filler(32 - count, filler) else []
  }

  /** A fresh sensor's 20 values whose first is a stale null are shown as
      31 values, not the 32 the padding is meant to give. */
  lemma AsWrittenShowsThirtyOne(filler: OopGlucose)
    ensures var oop := [OopGlucose(0, 19, 0, 0)] + seq(19, k => OopGlucose(100, 18 - k, 0, 0));
      |ShownHistoryAsWritten(oop, [18], filler)| == 31
  {
    var oop := [OopGlucose(0, 19, 0, 0)] + seq(19, k => OopGlucose(100, 18 - k, 0, 0));
    assert oop[1].id == 18;
    assert |DropStaleFirst(oop, [18])| == 19;
  }

  /** The values `applyOOP` evidently means to show: the kept history,
      padded with sentinels to 32 entries when it is shorter. */
  function ShownHistory(oop: seq<OopGlucose>, rawIds: seq<int>, filler: OopGlucose): seq<OopGlucose>
  {
    var kept := DropStaleFirst(oop, rawIds);
    if |oop| > 0 then kept + Filler(32 - |kept|, filler) else []
  }

  /** A non-empty OOP history is shown as the kept values followed by
      sentinels, at least 32 entries and exactly 32 for a shorter one; an
      empty one clears the display. */
  lemma ShownHistoryPads(oop: seq<OopGlucose>, rawIds: seq<int>, filler: OopGlucose)
    ensures var r := ShownHistory(oop, rawIds, filler);
      var kept := DropStaleFirst(oop, rawIds);
      (oop == [] ==> r == []) &&
      (oop != [] ==>
        |r| == (if |kept| < 32 then 32 else |kept|) && r[..|kept|] == kept &&
        (forall k :: |kept| <= k < |r| ==> r[k] == filler))
  {
    var r := ShownHistory(oop, rawIds, filler);
    var kept := DropStaleFirst(oop, rawIds);
    if oop != [] {
      assert r == kept + Filler(32 - |kept|, filler);
      forall k | |kept| <= k < |r|
        ensures r[k] == filler
      {
        assert r[k] == Filler(32 - |kept|, filler)[k - |kept|];
      }
    }
  }
}
