/**
 * Cover images for DMM / FANZA links: cleaning a content id ("cid"), finding it
 * in a URL, the four cover URLs built from it, and picking the first cover a
 * probe accepts. `decodeURIComponent` is the parameter `decode` (None when it
 * throws), `String(v)` of a non-string is `show`, the WHATWG URL parser's
 * `searchParams.get("cid")` is `queryCid` (None when `new URL` throws), and the
 * network probe is `probe` (None when its promise rejects).
 */
module FanzaThumb {
  import opened Wrappers
  import opened Text
  import opened JsValue

  // ---------------------------------------------------------------------------
  // normalizeCid
  // ---------------------------------------------------------------------------

  /** The characters a cleaned cid keeps: `[a-zA-Z0-9_-]`. */
  predicate IsCidChar(c: char) {
    ('a' <= c <= 'z') || ('A' <= c <= 'Z') || ('0' <= c <= '9') || c == '_' || c == '-'
  }

  predicate AllCidChars(s: string) {
    forall i | 0 <= i < |s| :: IsCidChar(s[i])
  }

  /** `s.replace(/[^a-zA-Z0-9_-]/g, "")`. */
  function CleanCid(s: string): (r: string)
    ensures |r| <= |s| && AllCidChars(r)
    ensures AllCidChars(s) ==> r == s
  {
    if |s| == 0 then ""
    else if IsCidChar(s[0]) then [s[0]] + CleanCid(s[1..])
    else CleanCid(s[1..])
  }

  /** Cleaning works character by character: it distributes over concatenation. */
  lemma {:induction false} CleanCidDistributes(s: string, t: string)
    ensures CleanCid(s + t) == CleanCid(s) + CleanCid(t)
  {
    if |s| > 0 {
      assert (s + t)[0] == s[0] && (s + t)[1..] == s[1..] + t;
      CleanCidDistributes(s[1..], t);
    } else {
      assert s + t == t;
    }
  }

  /** A cid character cannot be white space. */
  lemma CidCharsAreTrimmed(s: string)
    requires AllCidChars(s)
    ensures Trim(s) == s
  {
    if |s| > 0 {
      assert IsCidChar(s[0]) && IsCidChar(s[|s| - 1]);
      TrimNoop(s);
    }
  }

  /** `decodeURIComponent` leaves text without '%' unchanged (ECMAScript section 19.2.6.5). */
  ghost predicate DecodesPlainText(decode: string -> Option<string>) {
    forall s :: '%' !in s ==> decode(s) == Some(s)
  }

  /** `normalizeCid(cid)`: null for a falsy cid; otherwise the trimmed, decoded text
    * with everything but `[a-zA-Z0-9_-]` removed, or null when nothing is left.
    * A malformed percent escape makes `decodeURIComponent` throw. */
  function NormalizeCid(cid: JsValue, decode: string -> Option<string>, show: JsValue -> string): (r: Outcome<Option<string>>)
    ensures !Truthy(cid) ==> r == Returns(None)
    ensures r.Returns? && r.value.Some? ==> r.value.value != "" && AllCidChars(r.value.value)
  {
    if !Truthy(cid) then Returns(None)
    else
      match decode(Trim(ToJsString(cid, show)))
      case None => Throws
      case Some(decoded) =>
        var clean := CleanCid(decoded);
        Returns(if clean == "" then None else Some(clean))
  }

  /** A clean cid normalises to itself. */
  lemma NormalizeCleanCid(c: string, decode: string -> Option<string>, show: JsValue -> string)
    requires DecodesPlainText(decode)
    requires c != "" && AllCidChars(c)
    ensures NormalizeCid(Str(c), decode, show) == Returns(Some(c))
  {
    CidCharsAreTrimmed(c);
    assert '%' !in c by {
      forall i | 0 <= i < |c| ensures c[i] != '%' {
        assert IsCidChar(c[i]);
      }
    }
  }

  /** Normalising is idempotent. */
  lemma NormalizeCidIdempotent(cid: JsValue, decode: string -> Option<string>, show: JsValue -> string)
    requires DecodesPlainText(decode)
    requires NormalizeCid(cid, decode, show).Returns? && NormalizeCid(cid, decode, show).value.Some?
    ensures var c := NormalizeCid(cid, decode, show).value.value;
      NormalizeCid(Str(c), decode, show) == Returns(Some(c))
  {
    NormalizeCleanCid(NormalizeCid(cid, decode, show).value.value, decode, show);
  }

  // ---------------------------------------------------------------------------
  // isDmmLikeHost
  // ---------------------------------------------------------------------------

  /** `isDmmLikeHost(hostname)`: the lower-cased host is dmm.co.jp or one of its subdomains. */
  predicate IsDmmLikeHost(hostname: JsValue, show: JsValue -> string) {
    OnDomain(ToLower(ToJsString(Or(hostname, Str("")), show)), "dmm.co.jp")
  }

  /** Which hosts are DMM-like: exactly dmm.co.jp and its subdomains, in any letter case. */
  lemma DmmLikeHostCharacterised(host: string, show: JsValue -> string)
    ensures IsDmmLikeHost(Str(host), show) <==> OnDomain(ToLower(host), "dmm.co.jp")
    ensures IsDmmLikeHost(Str(host), show) && ToLower(host) != "dmm.co.jp" ==>
      ToLower(host)[|host| - 10] == '.'
  {
    if IsDmmLikeHost(Str(host), show) && ToLower(host) != "dmm.co.jp" {
      OnDomainBoundary(ToLower(host), "dmm.co.jp");
    }
  }

  // ---------------------------------------------------------------------------
  // extractCid
  // ---------------------------------------------------------------------------

  /** The characters of the captured group `[a-zA-Z0-9_%.-]`. */
  predicate IsCidUrlChar(c: char) {
    IsCidChar(c) || c == '%' || c == '.'
  }

  /** The longest prefix of `s` made of group characters (the greedy `+`). */
  function GroupRun(s: string): (r: string)
    ensures |r| <= |s| && r == s[..|r|]
    ensures forall i | 0 <= i < |r| :: IsCidUrlChar(r[i])
    ensures |r| < |s| ==> !IsCidUrlChar(s[|r|])
  {
    if |s| == 0 || !IsCidUrlChar(s[0]) then "" else [s[0]] + GroupRun(s[1..])
  }

  /** The pattern `<lead>cid=<group>` (case-insensitive) matches starting at `i`,
    * where `<lead>` is one of the characters of `leads`. */
  predicate MatchAt(text: string, leads: string, i: int) {
    0 <= i && i + 6 <= |text| && text[i] in leads && ToLower(text[i + 1..i + 5]) == "cid=" && IsCidUrlChar(text[i + 5])
  }

  /** The first match at or after `from`. */
  function FirstMatchFrom(text: string, leads: string, from: nat): (r: Option<nat>)
    ensures r.Some? ==> from <= r.value && MatchAt(text, leads, r.value)
    ensures forall j | from <= j && (r.None? || j < r.value) :: !MatchAt(text, leads, j)
    decreases |text| - from
  {
    if from + 6 > |text| then None
    else if MatchAt(text, leads, from) then Some(from)
    else FirstMatchFrom(text, leads, from + 1)
  }

  /** `text.match(/[<leads>]cid=([a-zA-Z0-9_%.-]+)/i)?.[1] ?? null`: the group of the
    * leftmost match, taken as long as possible. */
  function CidParam(text: string, leads: string): (r: Option<string>)
    ensures r.Some? ==> exists i :: MatchAt(text, leads, i) && r.value == GroupRun(text[i + 5..])
    ensures r.None? ==> forall i :: !MatchAt(text, leads, i)
  {
    match FirstMatchFrom(text, leads, 0)
    case None => None
    case Some(i) => Some(GroupRun(text[i + 5..]))
  }

  function ToJs(s: Option<string>): JsValue {
    match s
    case None => Null
    case Some(v) => Str(v)
  }

  /** The first candidate that normalises to a cid; a throwing normalisation propagates. */
  function FirstCid(cands: seq<JsValue>, decode: string -> Option<string>, show: JsValue -> string): (r: Outcome<Option<string>>)
    ensures r.Returns? && r.value.Some? ==> exists k | 0 <= k < |cands| :: NormalizeCid(cands[k], decode, show) == r
    ensures r == Returns(None) ==> forall k | 0 <= k < |cands| :: NormalizeCid(cands[k], decode, show) == Returns(None)
  {
    if |cands| == 0 then Returns(None)
    else
      var n := NormalizeCid(cands[0], decode, show);
      if n.Throws? || n.value.Some? then n else FirstCid(cands[1..], decode, show)
  }

  /** The loop over the two path patterns. */
  method CidFromCandidates(cands: seq<JsValue>, decode: string -> Option<string>, show: JsValue -> string)
    returns (r: Outcome<Option<string>>)
    ensures r == FirstCid(cands, decode, show)
  {
    var k := 0;
    while k < |cands|
      invariant 0 <= k <= |cands|
      invariant FirstCid(cands, decode, show) == FirstCid(cands[k..], decode, show)
    {
      var n := NormalizeCid(cands[k], decode, show);
      if n.Throws? || n.value.Some? {
        return n;
      }
      assert cands[k..][1..] == cands[k + 1..];
      k := k + 1;
    }
    return Returns(None);
  }

  /** The cid from the URL's `cid` query parameter, when it normalises to one; a
    * throwing URL parse or decode falls through to the path patterns. */
  function QueryCid(text: string, queryCid: string -> Option<Option<string>>, decode: string -> Option<string>, show: JsValue -> string): (r: Option<string>)
    ensures r.Some? ==> queryCid(text).Some? && NormalizeCid(ToJs(queryCid(text).value), decode, show) == Returns(r)
  {
    match queryCid(text)
    case None => None
    case Some(q) =>
      var n := NormalizeCid(ToJs(q), decode, show);
      if n.Returns? && n.value.Some? then n.value else None
  }

  /** What `extractCid(rawUrl)` returns. */
  function ExtractCidResult(raw: JsValue, queryCid: string -> Option<Option<string>>, decode: string -> Option<string>, show: JsValue -> string): (r: Outcome<Option<string>>)
    ensures r.Returns? && r.value.Some? ==> r.value.value != "" && AllCidChars(r.value.value)
  {
    if !Truthy(raw) then Returns(None)
    else
      var text := ToJsString(raw, show);
      match QueryCid(text, queryCid, decode, show)
      case Some(c) => Returns(Some(c))
      case None => FirstCid([ToJs(CidParam(text, "?&")), ToJs(CidParam(text, "/"))], decode, show)
  }

  /** `extractCid(rawUrl)`. */
  method ExtractCid(raw: JsValue, queryCid: string -> Option<Option<string>>, decode: string -> Option<string>, show: JsValue -> string)
    returns (r: Outcome<Option<string>>)
    ensures r == ExtractCidResult(raw, queryCid, decode, show)
  {
    if !Truthy(raw) {
      return Returns(None);
    }
    var text := ToJsString(raw, show);
    var fromQuery := QueryCid(text, queryCid, decode, show);
    if fromQuery.Some? {
      return Returns(fromQuery);
    }
    r := CidFromCandidates([ToJs(CidParam(text, "?&")), ToJs(CidParam(text, "/"))], decode, show);
  }

  /** The query parameter wins whenever it normalises to a cid. */
  lemma ExtractCidPrefersQuery(raw: JsValue, queryCid: string -> Option<Option<string>>, decode: string -> Option<string>, show: JsValue -> string, c: string)
    requires Truthy(raw)
    requires var text := ToJsString(raw, show);
      queryCid(text).Some? && NormalizeCid(ToJs(queryCid(text).value), decode, show) == Returns(Some(c))
    ensures ExtractCidResult(raw, queryCid, decode, show) == Returns(Some(c))
  {
  }

  /** Without a usable query parameter, `?cid=` / `&cid=` is tried before `/cid=`. */
  lemma ExtractCidFallsBackToPath(raw: JsValue, queryCid: string -> Option<Option<string>>, decode: string -> Option<string>, show: JsValue -> string)
    requires Truthy(raw)
    requires QueryCid(ToJsString(raw, show), queryCid, decode, show).None?
    ensures var text := ToJsString(raw, show);
      var first := NormalizeCid(ToJs(CidParam(text, "?&")), decode, show);
      ExtractCidResult(raw, queryCid, decode, show) ==
        if first.Throws? || first.value.Some? then first else NormalizeCid(ToJs(CidParam(text, "/")), decode, show)
  {
    var text := ToJsString(raw, show);
    var cands := [ToJs(CidParam(text, "?&")), ToJs(CidParam(text, "/"))];
    assert cands[1..][1..] == [];
    var second := NormalizeCid(cands[1], decode, show);
    assert FirstCid(cands[1..], decode, show) == second by {
      assert FirstCid(cands[1..][1..], decode, show) == Returns(None);
    }
  }

  // ---------------------------------------------------------------------------
  // inferDmmCoverCandidates and chooseCoverByProbe
  // ---------------------------------------------------------------------------

  const CoverBase := "https://pics.dmm.co.jp/digital/"

  /** The four cover URLs of a cid, in the order they are tried. */
  function CoverUrls(c: string): (urls: seq<string>)
    ensures |urls| == 4
  {
    [ CoverBase + "video/" + c + "/" + c + "pl.jpg",
      CoverBase + "video/" + c + "/" + c + "ps.jpg",
      CoverBase + "book/" + c + "/" + c + "pl.jpg",
      CoverBase + "comic/" + c + "/" + c + "pl.jpg" ]
  }

  /** `inferDmmCoverCandidates(cid)`: four URLs for a usable cid, none otherwise. */
  function InferDmmCoverCandidates(cid: JsValue, decode: string -> Option<string>, show: JsValue -> string): (r: Outcome<seq<string>>)
    ensures r.Returns? ==> |r.value| == 0 || |r.value| == 4
    ensures r == Returns([]) <==> NormalizeCid(cid, decode, show) == Returns(None)
  {
    match NormalizeCid(cid, decode, show)
    case Throws => Throws
    case Returns(None) => Returns([])
    case Returns(Some(c)) => Returns(CoverUrls(c))
  }

  /** The four cover URLs of one cid are all different. */
  lemma CoverUrlsDistinct(c: string)
    ensures forall i, j | 0 <= i < j < 4 :: CoverUrls(c)[i] != CoverUrls(c)[j]
  {
    var u := CoverUrls(c);
    var n := |CoverBase|;
    assert u[0][n] == 'v' && u[2][n] == 'b' && u[3][n] == 'c' && u[1][n] == 'v';
    assert u[0][|u[0]| - 5] == 'l' && u[1][|u[1]| - 5] == 's';
  }

  /** Different cids give different cover URLs: the cid can be read back from the
    * path segment after "video/". */
  lemma CoverUrlInjective(c1: string, c2: string)
    requires AllCidChars(c1) && AllCidChars(c2)
    requires CoverUrls(c1)[0] == CoverUrls(c2)[0]
    ensures c1 == c2
  {
    var p := CoverBase + "video/";
    var u1, u2 := CoverUrls(c1)[0], CoverUrls(c2)[0];
    assert u1 == p + (c1 + "/" + c1 + "pl.jpg");
    assert u2 == p + (c2 + "/" + c2 + "pl.jpg");
    assert u1[|p|..] == c1 + "/" + (c1 + "pl.jpg");
    assert u2[|p|..] == c2 + "/" + (c2 + "pl.jpg");
    CidRunBeforeSlash(c1, c1 + "pl.jpg");
    CidRunBeforeSlash(c2, c2 + "pl.jpg");
  }

  /** The longest prefix of `s` made of cid characters. */
  function CidRun(s: string): string {
    if |s| == 0 || !IsCidChar(s[0]) then "" else [s[0]] + CidRun(s[1..])
  }

  lemma {:induction false} CidRunBeforeSlash(c: string, rest: string)
    requires AllCidChars(c)
    ensures CidRun(c + "/" + rest) == c
  {
    if |c| > 0 {
      var s := c + "/" + rest;
      assert s[0] == c[0] && s[1..] == c[1..] + "/" + rest;
      CidRunBeforeSlash(c[1..], rest);
    } else {
      assert (c + "/" + rest)[0] == '/';
    }
  }

  /** The first candidate the probe accepts; a probe that rejects counts as not accepted. */
  function FirstAccepted(cands: seq<string>, probe: string -> Option<bool>): (r: Option<string>)
    ensures r.Some? ==> r.value in cands && probe(r.value) == Some(true)
    ensures r.Some? ==> exists k | 0 <= k < |cands| :: cands[k] == r.value && forall j | 0 <= j < k :: probe(cands[j]) != Some(true)
    ensures r.None? ==> forall k | 0 <= k < |cands| :: probe(cands[k]) != Some(true)
  {
    if |cands| == 0 then None
    else if probe(cands[0]) == Some(true) then Some(cands[0])
    else
      var rest := FirstAccepted(cands[1..], probe);
      if rest.Some? then
        var k :| 0 <= k < |cands[1..]| && cands[1..][k] == rest.value && forall j | 0 <= j < k :: probe(cands[1..][j]) != Some(true);
        assert cands[k + 1] == rest.value;
        assert forall j | 0 <= j < k + 1 :: probe(cands[j]) != Some(true) by {
          forall j | 0 <= j < k + 1 ensures probe(cands[j]) != Some(true) {
            if j > 0 { assert cands[j] == cands[1..][j - 1]; }
          }
        }
        rest
      else rest
  }

  /** `chooseCoverByProbe(cid, probe)`: the first cover URL the probe accepts, or
    * null; the promise rejects when the cid cannot be decoded. */
  method ChooseCoverByProbe(cid: JsValue, probe: string -> Option<bool>, decode: string -> Option<string>, show: JsValue -> string)
    returns (r: Outcome<Option<string>>)
    ensures r.Throws? <==> InferDmmCoverCandidates(cid, decode, show).Throws?
    ensures r.Returns? ==> r.value == FirstAccepted(InferDmmCoverCandidates(cid, decode, show).value, probe)
  {
    var inferred := InferDmmCoverCandidates(cid, decode, show);
    if inferred.Throws? {
      return Throws;
    }
    var candidates := inferred.value;
    for k := 0 to |candidates|
      invariant FirstAccepted(candidates, probe) == FirstAccepted(candidates[k..], probe)
    {
      if probe(candidates[k]) == Some(true) {
        return Returns(Some(candidates[k]));
      }
      assert candidates[k..][1..] == candidates[k + 1..];
    }
    return Returns(None);
  }
}
