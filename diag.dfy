/**
 * The app's diagnostics log: events are normalised into a fixed shape, kept in
 * browser storage as a JSON array under "shinen_diag_v1" (or in memory when there
 * is no storage), capped to the last `max` events (200 by default), and exported
 * as a metadata row followed by one row per event.
 *
 * The clock, `String(...)` of non-string values and URL host parsing are
 * parameters (`DiagEnv`), since the model does not implement them.
 */
module Diag {
  import opened Wrappers
  import opened JsValue
  import Text

  const DiagStorageKey: string := "shinen_diag_v1"
  const DiagMaxEvents: int := 200

  /** The parts of the environment the log depends on: `String(v)` for numbers,
    * arrays and objects, and `new URL(u).hostname` (None when `new URL` throws). */
  datatype DiagEnv = DiagEnv(show: JsValue -> string, hostOf: string -> Option<string>)

  /** The fields of a logged event object that the log reads (absent fields are `Undefined`). */
  datatype DiagInput = DiagInput(
    ts: JsValue,
    eventType: JsValue,
    cardId: JsValue,
    domain: JsValue,
    linkUrl: JsValue,
    thumbnailUrl: JsValue,
    extra: JsValue)

  /** A normalised event. */
  datatype DiagEvent = DiagEvent(
    ts: string,
    eventType: string,
    cardId: JsValue,
    domain: Option<string>,
    linkUrl: Option<string>,
    thumbnailUrl: Option<string>,
    extra: JsValue)

  /** `normalizeDomain`: the lower-cased host of a truthy URL, or null. */
  function NormalizeDomain(url: JsValue, env: DiagEnv): (r: Option<string>)
    ensures !Truthy(url) ==> r == None
    ensures r.Some? ==> env.hostOf(ToJsString(url, env.show)).Some? && r.value == Text.ToLower(env.hostOf(ToJsString(url, env.show)).value)
  {
    if !Truthy(url) then None
    else match env.hostOf(ToJsString(url, env.show))
      case Some(h) => Some(Text.ToLower(h))
      case None => None
  }

  /** `x ? String(x) : null`. */
  function StringOrNull(v: JsValue, env: DiagEnv): (r: Option<string>)
    ensures r.Some? <==> Truthy(v)
  {
    if Truthy(v) then Some(ToJsString(v, env.show)) else None
  }

  /** `normalizeEvent(input, now)`, where `nowTs` is what `now()` returns. */
  function NormalizeEvent(x: DiagInput, nowTs: string, env: DiagEnv): (e: DiagEvent)
    // ts: kept when it is a string, otherwise the current time
    ensures e.ts == if x.ts.Str? then x.ts.s else nowTs
    // cardId: kept when it is a number, otherwise null
    ensures IsNumberType(x.cardId) ==> e.cardId == x.cardId
    ensures !IsNumberType(x.cardId) ==> e.cardId == Null
    // extra: kept when it is a non-null object, otherwise null
    ensures Truthy(x.extra) && IsObjectType(x.extra) ==> e.extra == x.extra
    ensures !(Truthy(x.extra) && IsObjectType(x.extra)) ==> e.extra == Null
    // urls: present exactly when given truthy
    ensures e.linkUrl.Some? <==> Truthy(x.linkUrl)
    ensures e.thumbnailUrl.Some? <==> Truthy(x.thumbnailUrl)
    // domain: the given one when truthy, otherwise derived from the urls
    ensures Truthy(x.domain) ==> e.domain == Some(ToJsString(x.domain, env.show))
  {
    DiagEvent(
      if x.ts.Str? then x.ts.s else nowTs,
      ToJsString(x.eventType, env.show),
      if IsNumberType(x.cardId) then x.cardId else Null,
      if Truthy(x.domain) then Some(ToJsString(x.domain, env.show))
      else NormalizeDomain(Coalesce(Coalesce(x.linkUrl, x.thumbnailUrl), Null), env),
      StringOrNull(x.linkUrl, env),
      StringOrNull(x.thumbnailUrl, env),
      if Truthy(x.extra) && IsObjectType(x.extra) then x.extra else Null)
  }

  function OptionToJs(o: Option<string>): JsValue {
    match o
    case Some(s) => Str(s)
    case None => Null
  }

  /** The event object as it is read back: from memory as it is, or through
    * `JSON.stringify` / `JSON.parse`, which turn NaN and the infinities into null. */
  function AsStored(e: DiagEvent, json: bool): (x: DiagInput)
    ensures x.ts == Str(e.ts) && x.extra == e.extra
  {
    var card := if json && (e.cardId.NaN? || e.cardId.Infinity?) then Null else e.cardId;
    DiagInput(Str(e.ts), Str(e.eventType), card, OptionToJs(e.domain), OptionToJs(e.linkUrl),
      OptionToJs(e.thumbnailUrl), e.extra)
  }

  /** Whether `String(v)` of a truthy value is non-empty (it is for strings, and
    * for the numbers and objects that events carry; `String([])` is the exception). */
  predicate PrintsNonEmpty(v: JsValue, env: DiagEnv) {
    Truthy(v) ==> ToJsString(v, env.show) != ""
  }

  /** Reading back a logged event and normalising it again gives the event that
    * `log` returned, as long as the event's link is not a falsy non-null value,
    * its `String(...)` forms are non-empty, and (through JSON) its card id is finite. */
  lemma ReadBackNormalized(x: DiagInput, nowTs: string, later: string, env: DiagEnv, json: bool)
    requires PrintsNonEmpty(x.domain, env) && PrintsNonEmpty(x.linkUrl, env) && PrintsNonEmpty(x.thumbnailUrl, env)
    requires Truthy(x.linkUrl) || IsNullish(x.linkUrl)
    requires json ==> !(x.cardId.NaN? || x.cardId.Infinity?)
    ensures var e := NormalizeEvent(x, nowTs, env);
      NormalizeEvent(AsStored(e, json), later, env) == e
  {
    var e := NormalizeEvent(x, nowTs, env);
    var y := AsStored(e, json);
    var e2 := NormalizeEvent(y, later, env);
    assert e2.eventType == e.eventType;
    assert e2.linkUrl == e.linkUrl;
    assert e2.thumbnailUrl == e.thumbnailUrl;
    assert e2.cardId == e.cardId;
    assert e2.extra == e.extra;
    if !Truthy(x.domain) && !Truthy(y.domain) {
      var src := Coalesce(Coalesce(x.linkUrl, x.thumbnailUrl), Null);
      var src2 := Coalesce(Coalesce(y.linkUrl, y.thumbnailUrl), Null);
      assert Truthy(src) == Truthy(src2);
      assert Truthy(src) ==> ToJsString(src2, env.show) == ToJsString(src, env.show);
    }
  }

  /** Without the link condition the read-back can differ: an empty-string link
    * gives the logged event no domain, while the stored null link lets the
    * re-normalisation take the domain from the thumbnail. */
  lemma EmptyLinkDomainCounterexample()
    ensures var env := DiagEnv(_ => "", _ => Some("cdn.example"));
      var x := DiagInput(Str("t"), Str("open"), Undefined, Undefined, Str(""), Str("https://cdn.example/a.png"), Undefined);
      var e := NormalizeEvent(x, "t", env);
      e.domain == None && NormalizeEvent(AsStored(e, true), "t", env).domain == Some("cdn.example")
  {
    var env := DiagEnv(_ => "", _ => Some("cdn.example"));
    assert Text.ToLower("cdn.example") == "cdn.example";
  }

  /** `events.slice(-max)`: for a positive `max` the last `max` events; for 0 all of
    * them; for a negative `max` all but the first `-max`. */
  function SliceLast<T>(s: seq<T>, max: int): (r: seq<T>)
    ensures max > 0 ==> |r| == (if |s| < max then |s| else max) && r == s[|s| - |r|..]
    ensures max <= 0 ==> r == s[if -max < |s| then -max else |s|..]
  {
    if max > 0 then s[if |s| > max then |s| - max else 0..]
    else s[if -max < |s| then -max else |s|..]
  }

  /** Appending then capping to a positive `max` keeps the new event last and at most `max` events. */
  lemma SliceLastKeepsNewest<T>(s: seq<T>, x: T, max: int)
    requires max > 0
    ensures var r := SliceLast(s + [x], max);
      |r| <= max && |r| >= 1 && r[|r| - 1] == x && r[..|r| - 1] == s[|s| + 1 - |r|..]
  {
    var r := SliceLast(s + [x], max);
    assert r[..|r| - 1] == (s + [x])[|s| + 1 - |r|..|s|];
  }

  /** A zero `max` does not cap at all (`slice(-0)` is `slice(0)`). */
  lemma SliceLastZeroKeepsAll<T>(s: seq<T>)
    ensures SliceLast(s, 0) == s
  {
  }

  /** The value under the log's key in browser storage. */
  datatype StoredLog = JsonArray(items: seq<DiagInput>) | JsonOther | Unparsable | EmptyString

  /** The module-level `memoryEvents`: one log shared by every store that has no
    * storage, never reset by creating a store. */
  class MemoryLog {
    var events: seq<DiagInput>

    /** `let memoryEvents = []`, once when the module loads. */
    constructor()
      ensures events == []
    {
      events := [];
    }
  }

  /** A browser `Storage` object; several stores may share one. */
  class BrowserStorage {
    var items: map<string, StoredLog>

    constructor(items: map<string, StoredLog>)
      ensures this.items == items
    {
      this.items := items;
    }
  }

  /** A diagnostics store (`createDiagStore`). Without storage the events live in
    * the module's shared memory log. */
  class DiagStore {
    const key: string
    const max: int
    const storage: Option<BrowserStorage>
    const memory: MemoryLog

    /** `createDiagStore(opts)`: key and max default to "shinen_diag_v1" and 200 when
      * not given; the store works on the given storage or the shared memory log,
      * and leaves both as they are. */
    constructor(keyOpt: Option<string>, maxOpt: Option<int>, storage: Option<BrowserStorage>, memory: MemoryLog)
      ensures key == keyOpt.GetOr(DiagStorageKey) && max == maxOpt.GetOr(DiagMaxEvents)
      ensures this.storage == storage && this.memory == memory
      ensures memory.events == old(memory.events)
    {
      key := keyOpt.GetOr(DiagStorageKey);
      max := maxOpt.GetOr(DiagMaxEvents);
      this.storage := storage;
      this.memory := memory;
    }

    /** `readRaw`: a copy of the memory log, or the parsed array; anything missing,
      * empty, unparsable or not an array reads as []. */
    function ReadRaw(): (r: seq<DiagInput>)
      reads memory, if storage.Some? then {storage.value} else {}
      ensures storage.Some? && key !in storage.value.items ==> r == []
      ensures storage.None? ==> r == memory.events
    {
      if storage.None? then memory.events
      else if key !in storage.value.items then []
      else match storage.value.items[key]
        case JsonArray(items) => items
        case _ => []
    }

    /** `read()`: every stored event, normalised. */
    function Read(nowTs: string, env: DiagEnv): (r: seq<DiagEvent>)
      reads memory, if storage.Some? then {storage.value} else {}
      ensures |r| == |ReadRaw()|
      ensures forall i :: 0 <= i < |r| ==> r[i] == NormalizeEvent(ReadRaw()[i], nowTs, env)
    {
      var raw := ReadRaw();
      seq(|raw|, i requires 0 <= i < |raw| => NormalizeEvent(raw[i], nowTs, env))
    }

    /** `log(event)`: normalise, append, keep the last `max`, write back, and
      * return the normalised event. */
    method Log(x: DiagInput, nowTs: string, env: DiagEnv) returns (e: DiagEvent)
      modifies if storage.Some? then {storage.value} else {memory}
      ensures e == NormalizeEvent(x, nowTs, env)
      ensures ReadRaw() == SliceLast(old(ReadRaw()) + [AsStored(e, storage.Some?)], max)
      ensures storage.Some? ==> storage.value.items == old(storage.value.items)[key := JsonArray(ReadRaw())]
    {
      e := NormalizeEvent(x, nowTs, env);
      var current := ReadRaw();
      current := current + [AsStored(e, storage.Some?)];
      var clipped := SliceLast(current, max);
      if storage.None? {
        memory.events := clipped;
      } else {
        storage.value.items := storage.value.items[key := JsonArray(clipped)];
      }
    }

    /** `clear()`: empty the memory log, or remove the key from storage. */
    method Clear()
      modifies if storage.Some? then {storage.value} else {memory}
      ensures ReadRaw() == []
      ensures storage.Some? ==> storage.value.items == old(storage.value.items) - {key}
    {
      if storage.None? {
        memory.events := [];
      } else {
        storage.value.items := storage.value.items - {key};
      }
    }
  }

  /** Two stores without storage share the memory log: a store created after
    * another has logged an event reads that event back. */
  method SecondStoreSeesFirstLog(x: DiagInput, nowTs: string, env: DiagEnv)
    returns (first: seq<DiagInput>, second: seq<DiagInput>)
    ensures first == second == [AsStored(NormalizeEvent(x, nowTs, env), false)]
  {
    var memory := new MemoryLog();
    var a := new DiagStore(None, None, None, memory);
    var e := a.Log(x, nowTs, env);
    first := a.ReadRaw();
    var b := new DiagStore(None, None, None, memory);
    second := b.ReadRaw();
  }

  /** The rows of a diagnostics export. */
  datatype DiagRecord =
    | Meta(ts: string, events: nat, debug: bool, commit: Option<string>, source: string, error: Option<string>)
    | Row(kind: string, event: DiagEvent)

  /** `buildDiagnosticsRecords`: one metadata row counting the events, then one
    * "diag" row per normalised event, in order. */
  function BuildDiagnosticsRecords(events: seq<DiagInput>, nowTs: string, debug: JsValue,
                                   commit: JsValue, error: JsValue, env: DiagEnv): (r: seq<DiagRecord>)
    ensures |r| == |events| + 1
    ensures r[0].Meta? && r[0].events == |events| && r[0].source == "local"
    ensures r[0].debug == Truthy(debug)
    ensures r[0].commit.Some? <==> Truthy(commit)
    ensures r[0].error.Some? <==> Truthy(error)
    ensures forall i :: 0 < i < |r| ==> r[i] == Row("diag", NormalizeEvent(events[i - 1], nowTs, env))
  {
    var meta := Meta(nowTs, |events|, Truthy(debug), StringOrNull(commit, env), "local", StringOrNull(error, env));
    [meta] + seq(|events|, i requires 0 <= i < |events| => Row("diag", NormalizeEvent(events[i], nowTs, env)))
  }

  /** Exporting what a store reads normalises each event a second time; under the
    * conditions of `ReadBackNormalized` that changes nothing, so the export rows
    * carry exactly the events `log` returned. */
  lemma ExportOfLoggedEvents(xs: seq<DiagInput>, nowTs: string, env: DiagEnv, json: bool)
    requires forall k :: 0 <= k < |xs| ==>
      && PrintsNonEmpty(xs[k].domain, env) && PrintsNonEmpty(xs[k].linkUrl, env) && PrintsNonEmpty(xs[k].thumbnailUrl, env)
      && (Truthy(xs[k].linkUrl) || IsNullish(xs[k].linkUrl))
      && (json ==> !(xs[k].cardId.NaN? || xs[k].cardId.Infinity?))
    ensures var stored := seq(|xs|, k requires 0 <= k < |xs| => AsStored(NormalizeEvent(xs[k], nowTs, env), json));
      var r := BuildDiagnosticsRecords(stored, nowTs, Bool(false), Null, Null, env);
      forall k :: 0 <= k < |xs| ==> r[k + 1] == Row("diag", NormalizeEvent(xs[k], nowTs, env))
  {
    var stored := seq(|xs|, k requires 0 <= k < |xs| => AsStored(NormalizeEvent(xs[k], nowTs, env), json));
    forall k | 0 <= k < |xs|
      ensures NormalizeEvent(stored[k], nowTs, env) == NormalizeEvent(xs[k], nowTs, env)
    {
      ReadBackNormalized(xs[k], nowTs, nowTs, env, json);
    }
  }

  /** What reading the debug flag from storage gives. */
  datatype FlagRead = NoStorage | ReadThrows | Item(value: Option<string>)

  /** `isDebugModeEnabled`: the `debug` query parameter decides when it is "1" or
    * "0"; otherwise the storage flag "shinen_debug" must read "1". `debugParam` is
    * the first `debug` parameter of the query string, if any. */
  function IsDebugModeEnabled(debugParam: Option<string>, flag: FlagRead): (r: bool)
    ensures debugParam == Some("1") ==> r
    ensures debugParam == Some("0") ==> !r
    ensures debugParam != Some("1") && debugParam != Some("0") ==> (r <==> flag == Item(Some("1")))
  {
    if debugParam == Some("1") then true
    else if debugParam == Some("0") then false
    else match flag
      case Item(v) => v == Some("1")
      case _ => false
  }
}
