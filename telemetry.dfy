/** OTLP exporter settings read from the environment: the header map parsed
    from OTEL_EXPORTER_OTLP_HEADERS and the per-signal OTLP/HTTP endpoints
    derived from OTEL_EXPORTER_OTLP_ENDPOINT. The environment variables are
    parameters (None when unset). */
module Telemetry {
  import opened Wrappers
  import opened JsBuiltins

  const PieceSeparator: string := ";"
  const PairSeparator: string := "="

  /** Each piece split on '=', as the loop splits it. */
  function PartsOf(pieces: seq<string>): (parts: seq<seq<string>>)
    ensures |parts| == |pieces|
    ensures forall j :: 0 <= j < |pieces| ==> parts[j] == Split(pieces[j], PairSeparator)
  {
    seq(|pieces|, j requires 0 <= j < |pieces| => Split(pieces[j], PairSeparator))
  }

  /** The key whose assignment on a plain object reaches the inherited
      `__proto__` setter, which ignores a string value: no own property is
      created. */
  const ProtoKey: string := "__proto__"

  /** A piece is a pair when it splits into two parts. */
  predicate IsPair(parts: seq<string>) {
    |parts| == 2
  }

  /** A pair piece stores a header unless its key is `__proto__`. */
  predicate Stores(parts: seq<string>) {
    IsPair(parts) && parts[0] != ProtoKey
  }

  /** The header dictionary after the loop has visited the split pieces in
      order: each two-part piece writes its key, a later write replacing an
      earlier one; a write to `__proto__` leaves the object as it was. */
  function HeadersOf(parts: seq<seq<string>>): map<string, string>
  {
    if |parts| == 0 then map[]
    else
      var before := HeadersOf(parts[..|parts| - 1]);
      var last := parts[|parts| - 1];
      if Stores(last) then before[last[0] := last[1]] else before
  }

  /** The variable is unset or the empty string (both falsy). */
  predicate Unset(env: Option<string>) {
    env.None? || env.value == ""
  }

  /** OneUptimeTelemetry.getHeaders. */
  method GetHeaders(env: Option<string>) returns (headers: map<string, string>)
    ensures Unset(env) ==> headers == map[]
    ensures !Unset(env) ==> headers == HeadersOf(PartsOf(Split(env.value, PieceSeparator)))
  {
    if Unset(env) {
      return map[];
    }
    var pieces := Split(env.value, PieceSeparator);
    ghost var parts := PartsOf(pieces);
    headers := map[];
    var i := 0;
    while i < |pieces|
      invariant 0 <= i <= |pieces|
      invariant headers == HeadersOf(parts[..i])
    {
      var header := Split(pieces[i], PairSeparator);
      assert header == parts[i];
      HeadersStep(parts, i);
      if |header| == 2 {
        if header[0] != ProtoKey {
          headers := headers[header[0] := header[1]];
        }
      }
      i := i + 1;
    }
    assert parts[..i] == parts;
  }

  lemma HeadersStep(parts: seq<seq<string>>, i: nat)
    requires i < |parts|
    ensures HeadersOf(parts[..i + 1]) ==
      if Stores(parts[i]) then HeadersOf(parts[..i])[parts[i][0] := parts[i][1]] else HeadersOf(parts[..i])
  {
    assert parts[..i + 1][..i] == parts[..i];
  }

  /** Some piece is a pair with the key. */
  predicate PairWithKey(parts: seq<seq<string>>, key: string)
  {
    exists j :: 0 <= j < |parts| && IsPair(parts[j]) && parts[j][0] == key
  }

  /** A key is present exactly when it is not `__proto__` and some piece is
      a pair with that key. */
  lemma {:induction false} HeaderKeys(parts: seq<seq<string>>, key: string)
    ensures key in HeadersOf(parts) <==> key != ProtoKey && PairWithKey(parts, key)
  {
    if |parts| > 0 {
      var init := parts[..|parts| - 1];
      var last := parts[|parts| - 1];
      HeaderKeys(init, key);
      if PairWithKey(init, key) {
        var j :| 0 <= j < |init| && IsPair(init[j]) && init[j][0] == key;
        assert parts[j] == init[j];
      }
      if PairWithKey(parts, key) && !(IsPair(last) && last[0] == key) {
        var j :| 0 <= j < |parts| && IsPair(parts[j]) && parts[j][0] == key;
        assert init[j] == parts[j];
      }
    }
  }

  /** For a repeated key other than `__proto__` the last pair piece wins. */
  lemma {:induction false} HeaderLastWins(parts: seq<seq<string>>, j: int)
    requires 0 <= j < |parts| && IsPair(parts[j]) && parts[j][0] != ProtoKey
    requires forall l :: j < l < |parts| && IsPair(parts[l]) ==> parts[l][0] != parts[j][0]
    ensures parts[j][0] in HeadersOf(parts)
    ensures HeadersOf(parts)[parts[j][0]] == parts[j][1]
  {
    if j < |parts| - 1 {
      var init := parts[..|parts| - 1];
      assert init[j] == parts[j];
      HeaderLastWins(init, j);
    }
  }

  /** Every key and value comes from inside one pair piece. */
  lemma {:induction false} HeaderEntriesFromPieces(parts: seq<seq<string>>, key: string)
    requires key in HeadersOf(parts)
    ensures exists j ::
              && 0 <= j < |parts| && IsPair(parts[j]) && parts[j][0] == key
              && parts[j][1] == HeadersOf(parts)[key]
  {
    var init := parts[..|parts| - 1];
    var last := parts[|parts| - 1];
    if Stores(last) && last[0] == key {
    } else {
      HeaderEntriesFromPieces(init, key);
      var j :| 0 <= j < |init| && IsPair(init[j]) && init[j][0] == key &&
        init[j][1] == HeadersOf(init)[key];
      assert init[j] == parts[j];
    }
  }

  /** No key or value of the parsed headers contains ';' or '='. */
  lemma HeadersHaveNoSeparators(env: string, key: string)
    requires key in HeadersOf(PartsOf(Split(env, PieceSeparator)))
    ensures ';' !in key && '=' !in key
    ensures ';' !in HeadersOf(PartsOf(Split(env, PieceSeparator)))[key]
    ensures '=' !in HeadersOf(PartsOf(Split(env, PieceSeparator)))[key]
  {
    var pieces := Split(env, PieceSeparator);
    var parts := PartsOf(pieces);
    HeaderEntriesFromPieces(parts, key);
    var j :| 0 <= j < |parts| && IsPair(parts[j]) && parts[j][0] == key &&
      parts[j][1] == HeadersOf(parts)[key];
    var piece := pieces[j];
    forall i: nat ensures !OccursAt(piece, PieceSeparator, i) { }
    NotIncludesSingleChar(piece, ';');
    var pair := Split(piece, PairSeparator);
    assert pair == parts[j];
    NotIncludesSingleChar(pair[0], '=');
    NotIncludesSingleChar(pair[1], '=');
    assert forall i: nat :: !OccursAt(pair[0], PairSeparator, i);
    assert forall i: nat :: !OccursAt(pair[1], PairSeparator, i);
  }

  // ---------------------------------------------------------------------------
  // Endpoints (URL parsing and printing are modelled as the identity on text)

  const LogsPath: string := "/v1/logs"
  const MetricsPath: string := "/v1/metrics"
  const TracesPath: string := "/v1/traces"

  /** OneUptimeTelemetry.getOtlpEndpoint. */
  function OtlpEndpoint(env: Option<string>): (r: Option<string>)
    ensures r.None? <==> Unset(env)
    ensures r.Some? ==> r.value == env.value
  {
    if Unset(env) then None else Some(env.value)
  }

  /** The base endpoint with a per-signal path appended, or null. */
  function SignalEndpoint(env: Option<string>, path: string): (r: Option<string>)
    ensures r.None? <==> Unset(env)
    ensures r.Some? ==>
      && |r.value| == |env.value| + |path|
      && r.value[..|env.value|] == env.value && r.value[|env.value|..] == path
  {
    match OtlpEndpoint(env)
    case None => None
    case Some(base) => Some(base + path)
  }

  /** getOltpLogsEndpoint: null when the base endpoint is unset, else the base
      followed by the signal's path. */
  function LogsEndpoint(env: Option<string>): (r: Option<string>)
    ensures r.None? <==> Unset(env)
    ensures r.Some? ==>
      && |r.value| == |env.value| + |LogsPath|
      && r.value[..|env.value|] == env.value && r.value[|env.value|..] == LogsPath
  {
    SignalEndpoint(env, LogsPath)
  }

  /** getOltpMetricsEndpoint: null when the base endpoint is unset, else the base
      followed by the signal's path. */
  function MetricsEndpoint(env: Option<string>): (r: Option<string>)
    ensures r.None? <==> Unset(env)
    ensures r.Some? ==>
      && |r.value| == |env.value| + |MetricsPath|
      && r.value[..|env.value|] == env.value && r.value[|env.value|..] == MetricsPath
  {
    SignalEndpoint(env, MetricsPath)
  }

  /** getOltpTracesEndpoint: null when the base endpoint is unset, else the base
      followed by the signal's path. */
  function TracesEndpoint(env: Option<string>): (r: Option<string>)
    ensures r.None? <==> Unset(env)
    ensures r.Some? ==>
      && |r.value| == |env.value| + |TracesPath|
      && r.value[..|env.value|] == env.value && r.value[|env.value|..] == TracesPath
  {
    SignalEndpoint(env, TracesPath)
  }

  /** Each signal endpoint is null exactly when the base endpoint is unset, and
      otherwise is the base followed by that signal's OTLP/HTTP path; the three
      endpoints are pairwise different. */
  lemma SignalEndpoints(env: Option<string>)
    ensures LogsEndpoint(env).None? <==> Unset(env)
    ensures MetricsEndpoint(env).None? <==> Unset(env)
    ensures TracesEndpoint(env).None? <==> Unset(env)
    ensures !Unset(env) ==>
      && LogsEndpoint(env) == Some(env.value + "/v1/logs")
      && MetricsEndpoint(env) == Some(env.value + "/v1/metrics")
      && TracesEndpoint(env) == Some(env.value + "/v1/traces")
    ensures !Unset(env) ==>
      && LogsEndpoint(env) != MetricsEndpoint(env)
      && MetricsEndpoint(env) != TracesEndpoint(env)
      && LogsEndpoint(env) != TracesEndpoint(env)
  {
    if !Unset(env) {
      var b := env.value;
      assert (b + LogsPath)[|b| + 4] == 'l';
      assert (b + MetricsPath)[|b| + 4] == 'm';
      assert (b + TracesPath)[|b| + 4] == 't';
    }
  }
}
