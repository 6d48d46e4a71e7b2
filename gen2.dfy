// The Libre 2 "gen2" security layer (Gen2.swift): its error codes and the
// glue around the native library, whose two entry points p1 and p2 are
// parameters here: uninterpreted functions of their arguments.

module Gen2 {
  import opened Bytes
  import opened SensorTypes

  /** `Gen2Error`, in declaration order. */
  datatype Gen2Error =
    | SecErrorInit | SecErrorCmd | SecErrorKdf | SecErrorResponseSize
    | ErrorAuthContext | ErrorPrngError | ErrorKeyNotFound | ErrorSkbError
    | ErrorInvalidResponse | ErrorInsufficientBuffer | ErrorCrcMismatch
    | ErrorMissingNative | ErrorProcessError

  function RawValue(e: Gen2Error): int
  {
    match e
    case SecErrorInit => -1
    case SecErrorCmd => -2
    case SecErrorKdf => -9
    case SecErrorResponseSize => -10
    case ErrorAuthContext => -11
    case ErrorPrngError => -12
    case ErrorKeyNotFound => -13
    case ErrorSkbError => -14
    case ErrorInvalidResponse => -15
    case ErrorInsufficientBuffer => -16
    case ErrorCrcMismatch => -17
    case ErrorMissingNative => -98
    case ErrorProcessError => -99
  }

  /** `Gen2Error.allCases`. */
  const AllCases: seq<Gen2Error> :=
    [SecErrorInit, SecErrorCmd, SecErrorKdf, SecErrorResponseSize,
     ErrorAuthContext, ErrorPrngError, ErrorKeyNotFound, ErrorSkbError,
     ErrorInvalidResponse, ErrorInsufficientBuffer, ErrorCrcMismatch,
     ErrorMissingNative, ErrorProcessError]

  /** The first case of `cases` with raw value `value`, if any. */
  function FirstWithValue(cases: seq<Gen2Error>, value: int): Option<Gen2Error>
  {
    if cases == [] then None
    else if RawValue(cases[0]) == value then Some(cases[0])
    else FirstWithValue(cases[1..], value)
  }

  /** `Gen2Error(value:)`: the case with that raw value, else
      `GEN2_ERROR_MISSING_NATIVE`. */
  function ErrorOfValue(value: int): Gen2Error
  {
    match FirstWithValue(AllCases, value)
    case Some(e) => e
    case None => ErrorMissingNative
  }

  lemma {:induction false} FirstWithValueFinds(cases: seq<Gen2Error>, value: int)
    ensures FirstWithValue(cases, value).Some? <==> exists k :: 0 <= k < |cases| && RawValue(cases[k]) == value
    ensures FirstWithValue(cases, value).Some? ==> RawValue(FirstWithValue(cases, value).value) == value
    decreases |cases|
  {
    if cases != [] {
      FirstWithValueFinds(cases[1..], value);
      if RawValue(cases[0]) != value {
        forall k | 1 <= k < |cases| && RawValue(cases[k]) == value
          ensures exists j :: 0 <= j < |cases[1..]| && RawValue(cases[1..][j]) == value
        {
          assert cases[1..][k - 1] == cases[k];
        }
      }
    }
  }

  /** Raw values are distinct, so every case survives `init(value:)`, and
      a value that is no case's raw value gives the missing-native case. */
  lemma ErrorOfValueInverts(e: Gen2Error, value: int)
    ensures ErrorOfValue(RawValue(e)) == e
    ensures (forall c: Gen2Error :: RawValue(c) != value) ==> ErrorOfValue(value) == ErrorMissingNative
  {
    assert exists k :: 0 <= k < |AllCases| && AllCases[k] == e by {
      match e
      case SecErrorInit => assert AllCases[0] == e;
      case SecErrorCmd => assert AllCases[1] == e;
      case SecErrorKdf => assert AllCases[2] == e;
      case SecErrorResponseSize => assert AllCases[3] == e;
      case ErrorAuthContext => assert AllCases[4] == e;
      case ErrorPrngError => assert AllCases[5] == e;
      case ErrorKeyNotFound => assert AllCases[6] == e;
      case ErrorSkbError => assert AllCases[7] == e;
      case ErrorInvalidResponse => assert AllCases[8] == e;
      case ErrorInsufficientBuffer => assert AllCases[9] == e;
      case ErrorCrcMismatch => assert AllCases[10] == e;
      case ErrorMissingNative => assert AllCases[11] == e;
      case ErrorProcessError => assert AllCases[12] == e;
    }
    FirstWithValueFinds(AllCases, RawValue(e));
    var c := FirstWithValue(AllCases, RawValue(e)).value;
    assert RawValue(c) == RawValue(e);
    FirstWithValueFinds(AllCases, value);
  }

  /** `ordinal`. */
  function Ordinal(e: Gen2Error): int
  {
    match e
    case ErrorAuthContext => 1
    case ErrorKeyNotFound => 2
    case SecErrorInit => 3
    case SecErrorCmd => 4
    case SecErrorResponseSize => 5
    case ErrorInsufficientBuffer => 6
    case ErrorMissingNative => 7
    case SecErrorKdf => 8
    case ErrorPrngError => 9
    case ErrorCrcMismatch => 10
    case ErrorSkbError => 11
    case ErrorInvalidResponse => 12
    case ErrorProcessError => 13
  }

  /** The case with a given ordinal. */
  function OfOrdinal(n: int): Gen2Error
    requires 1 <= n <= 13
  {
    [ErrorAuthContext, ErrorKeyNotFound, SecErrorInit, SecErrorCmd, SecErrorResponseSize,
     ErrorInsufficientBuffer, ErrorMissingNative, SecErrorKdf, ErrorPrngError,
     ErrorCrcMismatch, ErrorSkbError, ErrorInvalidResponse, ErrorProcessError][n - 1]
  }

  /** `ordinal` is a bijection from the 13 cases onto 1…13. */
  lemma OrdinalBijective(e: Gen2Error, n: int)
    ensures 1 <= Ordinal(e) <= 13 && OfOrdinal(Ordinal(e)) == e
    ensures 1 <= n <= 13 ==> Ordinal(OfOrdinal(n)) == n
  {
  }

  // ---------------------------------------------------------------------
  // The native library
  // ---------------------------------------------------------------------

  const GetAuthContext := 28960
  const GetBleAuthenticatedCmd := 6505
  const GetNfcAuthenticatedCmd := 6440
  const EndSession := 37400
  const VerifyResponse := 22321
  const GetPValues := 6145

  /** What `p2` returns. */
  datatype NativeResult = NativeResult(data: Option<seq<byte>>, error: Option<Gen2Error>)

  /** `p1(command:_:_:_:)` and `p2(command:p1:_:_:)`. */
  datatype Native = Native(
    p1: (int, int, Option<seq<byte>>, Option<seq<byte>>) -> int,
    p2: (int, int, seq<byte>, Option<seq<byte>>) -> NativeResult)

  /** The value returned when `p2` gives no data: its error's raw value,
      or that of `GEN2_ERROR_PROCESS_ERROR`. */
  function ErrorReturn(r: NativeResult): (v: int)
    ensures v < 0
  {
    match r.error
    case Some(e) => RawValue(e)
    case None => -99
  }

  /** A call that returns, or a Swift run-time trap. */
  datatype Call<T> = Returns(value: T) | Traps

  /** A returned code, the `inout` buffer(s) after the call, and the
      native commands called, in order. */
  datatype Auth = Auth(code: int, output: seq<byte>, calls: seq<int>)

  /** `getNfcAuthenticatedCommandBLE`: `UInt8(command)` traps outside a
      byte, hence the precondition. */
  method GetAuthenticatedCommandBle(n: Native, command: int, uid: seq<byte>, challenge: seq<byte>, output: seq<byte>)
    returns (r: Auth)
    requires 0 <= command < 256
    ensures var ctx := n.p1(GetAuthContext, 0, Some(uid), None);
      var res := n.p2(GetBleAuthenticatedCmd, ctx, [1, command as byte], Some(challenge));
      (ctx < 0 ==> r == Auth(ctx, output, [GetAuthContext])) &&
      (ctx >= 0 && res.data.None? ==> r == Auth(ErrorReturn(res), output, [GetAuthContext, GetBleAuthenticatedCmd, EndSession])) &&
      (ctx >= 0 && res.data.Some? ==> r == Auth(ctx, res.data.value, [GetAuthContext, GetBleAuthenticatedCmd]))
  {
    var authContext := n.p1(GetAuthContext, 0, Some(uid), None);
    if authContext < 0 {
      return Auth(authContext, output, [GetAuthContext]);
    }
    var commandArg: seq<byte> := [1, command as byte];
    var result := n.p2(GetBleAuthenticatedCmd, authContext, commandArg, Some(challenge));
    if result.data.None? {
      var _ := n.p1(EndSession, authContext, None, None);
      return Auth(ErrorReturn(result), output, [GetAuthContext, GetBleAuthenticatedCmd, EndSession]);
    }
    r := Auth(authContext, result.data.value, [GetAuthContext, GetBleAuthenticatedCmd]);
  }

  /** `getNfcAuthenticatedCommandNfc`: on success the output's first four
      bytes become 02 A1 07 and the command; an output of fewer than four
      bytes traps there. */
  method GetAuthenticatedCommandNfc(n: Native, command: int, uid: seq<byte>, challenge: seq<byte>, output: seq<byte>)
    returns (r: Call<Auth>)
    requires 0 <= command < 256
    ensures var ctx := n.p1(GetAuthContext, 0, Some(uid), None);
      var res := n.p2(GetNfcAuthenticatedCmd, ctx, [0, command as byte], Some(challenge));
      (ctx < 0 ==> r == Returns(Auth(ctx, output, [GetAuthContext]))) &&
      (ctx >= 0 && res.data.None? ==> r == Returns(Auth(ErrorReturn(res), output, [GetAuthContext, GetNfcAuthenticatedCmd, EndSession]))) &&
      (ctx >= 0 && res.data.Some? ==>
        (r.Traps? <==> |res.data.value| < 4) &&
        (r.Returns? ==>
           r.value.code == ctx && r.value.calls == [GetAuthContext, GetNfcAuthenticatedCmd] &&
           |r.value.output| == |res.data.value| &&
           r.value.output[..4] == [2, 0xA1, 7, command as byte] && r.value.output[4..] == res.data.value[4..]))
  {
    var authContext := n.p1(GetAuthContext, 0, Some(uid), None);
    if authContext < 0 {
      return Returns(Auth(authContext, output, [GetAuthContext]));
    }
    var commandArg: seq<byte> := [0, command as byte];
    var result := n.p2(GetNfcAuthenticatedCmd, authContext, commandArg, Some(challenge));
    if result.data.None? {
      var _ := n.p1(EndSession, authContext, None, None);
      return Returns(Auth(ErrorReturn(result), output, [GetAuthContext, GetNfcAuthenticatedCmd, EndSession]));
    }
    var out := result.data.value;
    if |out| < 4 {
      return Traps;
    }
    out := out[0 := 2][1 := 0xA1][2 := 7][3 := command as byte];
    r := Returns(Auth(authContext, out, [GetAuthContext, GetNfcAuthenticatedCmd]));
  }

  /** `verifyCommandResponse`: on success the output is replaced and its
      new length returned. `UInt8(i2)` and `UInt8(output.count)` trap
      outside a byte. */
  method VerifyCommandResponse(n: Native, context: int, i2: int, challenge: seq<byte>, output: seq<byte>)
    returns (r: Auth)
    requires 0 <= i2 < 256 && |output| < 256
    ensures var res := n.p2(VerifyResponse, context, [i2 as byte, |output| as byte], Some(challenge));
      (res.data.None? ==> r == Auth(ErrorReturn(res), output, [VerifyResponse, EndSession])) &&
      (res.data.Some? ==> r == Auth(|res.data.value|, res.data.value, [VerifyResponse]) && r.code >= 0)
  {
    var commandArg: seq<byte> := [i2 as byte, |output| as byte];
    var result := n.p2(VerifyResponse, context, commandArg, Some(challenge));
    if result.data.None? {
      var _ := n.p1(EndSession, context, None, None);
      return Auth(ErrorReturn(result), output, [VerifyResponse, EndSession]);
    }
    var out := result.data.value;
    r := Auth(|out|, out, [VerifyResponse]);
  }

  /** The two `inout` buffers of `verifyEnableStreamingResponse`. */
  datatype Streaming = Streaming(code: int, authenticationData: seq<byte>, output: seq<byte>, calls: seq<int>)

  /** `verifyEnableStreamingResponse`: a failed verification is returned
      as it is, with both buffers unchanged; otherwise the p-values and the
      last three verified bytes are spliced into `authenticationData`, the
      first six verified bytes into `output`, and 0 is returned. A splice
      that does not fit traps. */
  method VerifyEnableStreamingResponse(n: Native, context: int, challenge: seq<byte>,
                                       authenticationData: seq<byte>, output: seq<byte>)
    returns (r: Call<Streaming>)
    ensures var res := n.p2(VerifyResponse, context, [0, 9], Some(challenge));
      (res.data.None? ==>
        r == Returns(Streaming(ErrorReturn(res), authenticationData, output, [VerifyResponse, EndSession]))) &&
      (res.data.Some? ==>
        var verified := res.data.value;
        var pv := n.p2(GetPValues, context, [7], None);
        (pv.data.None? ==>
          r == Returns(Streaming(ErrorReturn(pv), authenticationData, output, [VerifyResponse, GetPValues, EndSession]))) &&
        (pv.data.Some? ==>
          var p := pv.data.value;
          (r.Traps? <==> |verified| < 9 || |authenticationData| < |p| + 3 || |output| < 6) &&
          (r.Returns? ==>
            r.value.code == 0 && r.value.calls == [VerifyResponse, GetPValues] &&
            r.value.authenticationData == p + verified[6..9] + authenticationData[|p| + 3..] &&
            r.value.output == verified[..6] + output[6..])))
  {
    var verifyOutput: seq<byte> := [0, 0, 0, 0, 0, 0, 0, 0, 0];
    var verify := VerifyCommandResponse(n, context, 0, challenge, verifyOutput);
    if verify.code < 0 {
      return Returns(Streaming(verify.code, authenticationData, output, verify.calls));
    }
    verifyOutput := verify.output;
    var commandArg: seq<byte> := [7];
    var result := n.p2(GetPValues, context, commandArg, None);
    if result.data.None? {
      var _ := n.p1(EndSession, context, None, None);
      assert verify.calls + [GetPValues, EndSession] == [VerifyResponse, GetPValues, EndSession];
      return Returns(Streaming(ErrorReturn(result), authenticationData, output, verify.calls + [GetPValues, EndSession]));
    }
    var p := result.data.value;
    if |authenticationData| < |p| + 3 || |verifyOutput| < 9 || |output| < 6 {
      return Traps;
    }
    var auth := p + authenticationData[|p|..];
    auth := auth[..|p|] + verifyOutput[6..9] + auth[|p| + 3..];
    var out := verifyOutput[..6] + output[6..];
    r := Returns(Streaming(0, auth, out, verify.calls + [GetPValues]));
  }
}
