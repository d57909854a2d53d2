/**
 * The image probe script's decision logic: cache-busting a URL with a timestamp, reading the
 * error message out of an API response, the status icons of the report, whether the API is
 * called at all, and the exit status. The HTTP calls and `json.loads` are parameters.
 */
module OpenaiImageProbe {
  import opened Wrappers
  import opened Decimal

  // ---------------------------------------------------------------------------
  // add_ts
  // ---------------------------------------------------------------------------

  /** `add_ts(url, ts)`. */
  function AddTs(url: string, ts: int): string {
    url + (if '?' in url then "&" else "?") + "ts=" + IntToDecimal(ts)
  }

  /** The result keeps the URL as its prefix, always has a query, and ends in the timestamp
    * parameter, joined by `&` to an existing query and by `?` otherwise. */
  lemma AddTsShape(url: string, ts: int)
    ensures var r := AddTs(url, ts);
      var sep := if '?' in url then "&" else "?";
      && r[..|url|] == url
      && r[|url|..] == sep + "ts=" + IntToDecimal(ts)
      && '?' in r
  {
    var r := AddTs(url, ts);
    if '?' !in url {
      assert r[|url|] == '?';
    } else {
      var i :| 0 <= i < |url| && url[i] == '?';
      assert r[i] == '?';
    }
  }

  /** Different timestamps give different URLs: each run busts the cache anew. */
  lemma AddTsInjective(url: string, a: int, b: int)
    requires AddTs(url, a) == AddTs(url, b)
    ensures a == b
  {
    var n := |url| + 4;
    assert AddTs(url, a)[n..] == IntToDecimal(a);
    assert AddTs(url, b)[n..] == IntToDecimal(b);
    IntToDecimalInjective(a, b);
  }

  // ---------------------------------------------------------------------------
  // extract_errmsg
  // ---------------------------------------------------------------------------

  /** A value `json.loads` returns (numbers as integers). */
  datatype Json =
    | Null
    | Bool(b: bool)
    | Number(n: int)
    | Str(s: string)
    | Arr(items: seq<Json>)
    | Obj(fields: map<string, Json>)

  /** Python's truth value of a JSON value. */
  predicate Truthy(j: Json) {
    match j
    case Null => false
    case Bool(b) => b
    case Number(n) => n != 0
    case Str(s) => s != ""
    case Arr(items) => |items| > 0
    case Obj(fields) => |fields| > 0
  }

  /** `extract_errmsg(body)`: `loads` is None when the body is not UTF-8 JSON. The result is
    * whatever `error.message` holds when truthy, which need not be a string. */
  function ExtractErrmsg(body: seq<bv8>, loads: seq<bv8> -> Option<Json>): Json {
    match loads(body)
    case None => Str("")
    case Some(d) =>
      if d.Obj? && "error" in d.fields && d.fields["error"].Obj? then
        var err := d.fields["error"].fields;
        if "message" in err && Truthy(err["message"]) then err["message"] else Str("")
      else Str("")
  }

  /** The message is `error.message` when the body is an object whose `error` is an object
    * with a non-empty string message, and the empty string when the body is not JSON, not
    * an object, or has no object under `error`. */
  lemma ExtractErrmsgCases(body: seq<bv8>, loads: seq<bv8> -> Option<Json>)
    ensures var r := ExtractErrmsg(body, loads);
      var d := loads(body);
      && (d.None? ==> r == Str(""))
      && (d.Some? && !d.value.Obj? ==> r == Str(""))
      && (d.Some? && d.value.Obj? && ("error" !in d.value.fields || !d.value.fields["error"].Obj?) ==> r == Str(""))
      && (d.Some? && d.value.Obj? && "error" in d.value.fields && d.value.fields["error"].Obj?
          && "message" in d.value.fields["error"].fields && d.value.fields["error"].fields["message"].Str? ==>
            r == d.value.fields["error"].fields["message"])
      && (r == Str("") || Truthy(r))
  {
  }

  // ---------------------------------------------------------------------------
  // _status_icon and the exit status
  // ---------------------------------------------------------------------------

  const Ok := "\U{2705}"
  const Skipped := "\U{23ED}\U{FE0F}"
  const Failed := "\U{274C}"

  /** The codes that stand for a call not made. */
  const SkipOpenai := -1
  const NoApiKey := -2

  /** `_status_icon(code)`. */
  function StatusIcon(code: int): string {
    if code == 200 then Ok
    else if code == SkipOpenai || code == NoApiKey then Skipped
    else Failed
  }

  /** `code not in (200, -1, -2)`. */
  predicate IsFailure(code: int) {
    code != 200 && code != SkipOpenai && code != NoApiKey
  }

  /** The end of `main`: 0 when the key is missing, 2 when both calls failed, 0 otherwise. */
  function ExitStatus(codeUrl: int, codeB64: int): int {
    if codeUrl == NoApiKey then 0
    else if IsFailure(codeUrl) && IsFailure(codeB64) then 2
    else 0
  }

  /** The icons tell the three kinds of code apart: a red cross exactly for a failure, the
    * skip icon exactly for a call not made. */
  lemma StatusIconClassifies(code: int)
    ensures StatusIcon(code) == Failed <==> IsFailure(code)
    ensures StatusIcon(code) == Skipped <==> code == SkipOpenai || code == NoApiKey
    ensures StatusIcon(code) == Ok <==> code == 200
  {
  }

  /** The probe exits with 2 exactly when the report shows a red cross for both calls, and
    * with 0 otherwise. */
  lemma ExitTwoIffBothCrossed(codeUrl: int, codeB64: int)
    ensures ExitStatus(codeUrl, codeB64) == 2 <==> StatusIcon(codeUrl) == Failed && StatusIcon(codeB64) == Failed
    ensures ExitStatus(codeUrl, codeB64) in {0, 2}
  {
    StatusIconClassifies(codeUrl);
    StatusIconClassifies(codeB64);
  }

  // ---------------------------------------------------------------------------
  // The API calls in `main`
  // ---------------------------------------------------------------------------

  /** What one call to the API gave: its status (0 when the request failed) and its body. */
  datatype Response = Response(code: int, body: seq<bv8>)

  datatype Outcome = Outcome(codeUrl: int, codeB64: int, msgUrl: Json, msgB64: Json)

  const SkipOpenaiMessage := "SKIPPED (SKIP_OPENAI=1)"
  const NoApiKeyMessage := "SKIPPED (OPENAI_API_KEY not set)"

  /** What the calls come to: skipped on request, skipped without a key, or made. */
  function CallOutcome(skipOpenai: Option<string>, apiKey: Option<string>, urlCall: Response,
                       b64Call: Response, loads: seq<bv8> -> Option<Json>): Outcome
  {
    if skipOpenai == Some("1") then Outcome(SkipOpenai, SkipOpenai, Str(SkipOpenaiMessage), Str(SkipOpenaiMessage))
    else if apiKey.None? || apiKey.value == "" then Outcome(NoApiKey, NoApiKey, Str(NoApiKeyMessage), Str(NoApiKeyMessage))
    else Outcome(urlCall.code, b64Call.code, ExtractErrmsg(urlCall.body, loads), ExtractErrmsg(b64Call.body, loads))
  }

  /** The branch of `main` that sets the codes and messages, and its exit status. */
  method RunProbe(skipOpenai: Option<string>, apiKey: Option<string>, urlCall: Response,
                  b64Call: Response, loads: seq<bv8> -> Option<Json>) returns (o: Outcome, status: int)
    ensures o == CallOutcome(skipOpenai, apiKey, urlCall, b64Call, loads)
    ensures status == ExitStatus(o.codeUrl, o.codeB64)
  {
    var codeUrl, codeB64 := 0, 0;
    var msgUrl, msgB64 := Str(""), Str("");
    if skipOpenai == Some("1") {
      codeUrl, codeB64 := SkipOpenai, SkipOpenai;
      msgUrl, msgB64 := Str(SkipOpenaiMessage), Str(SkipOpenaiMessage);
    } else if apiKey.None? || apiKey.value == "" {
      codeUrl, codeB64 := NoApiKey, NoApiKey;
      msgUrl, msgB64 := Str(NoApiKeyMessage), Str(NoApiKeyMessage);
    } else {
      codeUrl, codeB64 := urlCall.code, b64Call.code;
      msgUrl := ExtractErrmsg(urlCall.body, loads);
      msgB64 := ExtractErrmsg(b64Call.body, loads);
    }
    o := Outcome(codeUrl, codeB64, msgUrl, msgB64);
    if codeUrl == NoApiKey {
      status := 0;
    } else if IsFailure(codeUrl) && IsFailure(codeB64) {
      status := 2;
    } else {
      status := 0;
    }
  }

  /** Skipping wins over a missing key; a skipped probe never calls the API and exits with 0,
    * both codes the skip code of its reason. */
  lemma SkippedProbeSucceeds(skipOpenai: Option<string>, apiKey: Option<string>, urlCall: Response,
                             b64Call: Response, loads: seq<bv8> -> Option<Json>)
    requires skipOpenai == Some("1") || apiKey.None? || apiKey == Some("")
    ensures var o := CallOutcome(skipOpenai, apiKey, urlCall, b64Call, loads);
      && (skipOpenai == Some("1") ==> o.codeUrl == o.codeB64 == SkipOpenai)
      && (skipOpenai != Some("1") ==> o.codeUrl == o.codeB64 == NoApiKey)
      && ExitStatus(o.codeUrl, o.codeB64) == 0
  {
  }

  /** With a key, the probe exits with 2 exactly when neither call answered 200, whether they
    * failed with an HTTP error or without an answer (code 0). */
  lemma CalledProbeFailsOnlyWhenBothFail(apiKey: string, urlCall: Response, b64Call: Response,
                                         loads: seq<bv8> -> Option<Json>)
    requires apiKey != "" && urlCall.code >= 0 && b64Call.code >= 0
    ensures var o := CallOutcome(None, Some(apiKey), urlCall, b64Call, loads);
      ExitStatus(o.codeUrl, o.codeB64) == 2 <==> urlCall.code != 200 && b64Call.code != 200
  {
  }
}
