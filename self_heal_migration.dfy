/**
 * The Shinen board's one-off self-heal migration: a note whose text or source is
 * just a URL becomes a clip card (type 8), X's generic login-wall thumbnail is
 * dropped from a card's media, embed media missing a URL are repaired, and the
 * unfurl requests this calls for are collected. A run migrates at most `limit`
 * cards that have work and reports what it did.
 *
 * The WHATWG URL parser is `Env.parse` (None when `new URL` throws), `String(v)`
 * of a non-string is `Env.show`, and `inferEmbedFromUrl` is `Env.inferEmbed`.
 */
module SelfHealMigration {
  import opened Wrappers
  import opened Text
  import opened JsValue
  import opened Dedup

  const MigrationVersion := "20260225"
  const StorageKey := "shinen_migration_selfheal_v" + MigrationVersion
  const ForceKey := "shinen_migration_selfheal_force"
  /** The default number of cards migrated per run. */
  const MaxPerRun := 30

  /** The parts of a parsed URL the migration reads. */
  datatype ParsedUrl = ParsedUrl(protocol: string, href: string, hostname: string)

  /** What `inferEmbedFromUrl` returns for a post URL of X or Instagram. */
  datatype Embed = Embed(provider: string, embedUrl: string)

  datatype Env = Env(
    show: JsValue -> string,
    parse: string -> Option<ParsedUrl>,
    inferEmbed: string -> Option<Embed>)

  // ---------------------------------------------------------------------------
  // normalizeMaybeUrl / extractUrlOnlyText / hostFromUrl
  // ---------------------------------------------------------------------------

  /** `/^https?:\/\//i`. */
  predicate HasWebScheme(s: string) {
    StartsWith(ToLower(s), "http://") || StartsWith(ToLower(s), "https://")
  }

  predicate IsLabelChar(c: char) {
    ('a' <= c <= 'z') || ('A' <= c <= 'Z') || ('0' <= c <= '9') || c == '-'
  }

  predicate IsLabel(s: string) {
    |s| > 0 && forall k | 0 <= k < |s| :: IsLabelChar(s[k])
  }

  /** The end of the host part: the first '/', or the end of the text. */
  function HostEnd(s: string): (i: nat)
    ensures i <= |s|
  {
    if '/' in s then IndexOf(s, '/') else |s|
  }

  /** `/^(?:www\.)?[a-z0-9-]+(?:\.[a-z0-9-]+)+(?:\/[^\s]*)?$/i`: two or more dot-separated
    * labels, then nothing or a path without white space. */
  predicate IsBareDomainPath(s: string) {
    var labels := Split(s[..HostEnd(s)], '.');
    |labels| >= 2 && (forall k | 0 <= k < |labels| :: IsLabel(labels[k])) && !HasJsSpace(s[HostEnd(s)..])
  }

  /** `candidate.replace(/^www\./i, "www.")`. */
  function LowerWww(s: string): string {
    if |s| >= 4 && ToLower(s[..4]) == "www." then "www." + s[4..] else s
  }

  /** `new URL(candidate).href` when the protocol is http: or https:. */
  function ParseWeb(candidate: string, env: Env): Option<string> {
    match env.parse(candidate)
    case None => None
    case Some(p) => if p.protocol == "http:" || p.protocol == "https:" then Some(p.href) else None
  }

  /** The text handed to `new URL`: a scheme-relative URL gets `https:`, a bare domain
    * (optionally with a path) gets `https://`, anything else without an http(s) scheme is refused. */
  function Candidate(raw: string): Option<string> {
    if raw == "" then None
    else
      var c := if StartsWith(raw, "//") then "https:" + raw else raw;
      if HasWebScheme(c) then Some(c)
      else if IsBareDomainPath(c) then Some("https://" + LowerWww(c))
      else None
  }

  /** `normalizeMaybeUrl(input)`. */
  function NormalizeMaybeUrl(input: JsValue, env: Env): Option<string> {
    match Candidate(Trim(ToJsString(Or(input, Str("")), env.show)))
    case None => None
    case Some(c) => ParseWeb(c, env)
  }

  /** `extractUrlOnlyText(text)`: a text that is one URL and nothing else. */
  function ExtractUrlOnlyText(text: JsValue, env: Env): Option<string> {
    var raw := Trim(ToJsString(Or(text, Str("")), env.show));
    if raw == "" || HasJsSpace(raw) then None else NormalizeMaybeUrl(Str(raw), env)
  }

  /** `hostFromUrl(url)`. */
  function HostFromUrl(url: string, env: Env): string {
    match env.parse(url)
    case Some(p) => p.hostname
    case None => ""
  }

  /** The URL parser serialises an http(s) URL to an href that starts with its scheme,
    * has no surrounding white space, and parses back to the same URL. */
  ghost predicate SerializesStably(env: Env) {
    forall u | env.parse(u).Some? ::
      var p := env.parse(u).value;
      (p.protocol == "http:" || p.protocol == "https:") ==>
        && HasWebScheme(p.href)
        && Trim(p.href) == p.href
        && env.parse(p.href) == Some(p)
  }

  /** A text that begins with a label and a dot has no http(s) scheme. */
  lemma LabelFirstIsNotWeb(a: string, rest: string)
    requires IsLabel(a)
    ensures !HasWebScheme(a + "." + rest)
  {
    var s := a + "." + rest;
    var low := ToLower(s);
    if |a| <= 5 {
      assert s[|a|] == '.';
      if |low| > |a| {
        assert low[|a|] == '.';
      }
    } else {
      assert s[4] == a[4] && s[5] == a[5];
      assert IsLabelChar(a[4]) && IsLabelChar(a[5]);
      assert low[4] != ':' && low[5] != ':';
    }
  }

  /** The host part of two labels and a path ends where the path begins. */
  lemma HostEndOfBareDomain(a: string, b: string, path: string)
    requires IsLabel(a) && IsLabel(b)
    requires path == [] || path[0] == '/'
    ensures HostEnd(a + "." + b + path) == |a| + 1 + |b|
  {
    var s := a + "." + b + path;
    var host := a + "." + b;
    assert '/' !in host by {
      forall k | 0 <= k < |host| ensures host[k] != '/' {
        if k < |a| {
          assert host[k] == a[k];
        } else if k > |a| {
          assert host[k] == b[k - |a| - 1];
        }
      }
    }
    if path != [] {
      assert s[|host|] == '/';
      assert s[..|host|] == host;
    } else {
      assert s == host;
    }
  }

  lemma SplitTwoLabels(a: string, b: string)
    requires IsLabel(a) && IsLabel(b)
    ensures Split(a + "." + b, '.') == [a, b]
  {
    assert '.' !in a by { assert forall k | 0 <= k < |a| :: a[k] != '.'; }
    assert '.' !in b by { assert forall k | 0 <= k < |b| :: b[k] != '.'; }
    assert Join([a, b], ['.']) == a + "." + b by {
      assert Join([a, b][1..], ['.']) == b;
    }
    SplitJoin([a, b], '.');
  }

  /** Two labels joined by a dot, then nothing or a path without white space, are a bare domain. */
  lemma TwoLabelsAreBareDomain(a: string, b: string, path: string)
    requires IsLabel(a) && IsLabel(b)
    requires path == [] || (path[0] == '/' && !HasJsSpace(path))
    ensures IsBareDomainPath(a + "." + b + path)
  {
    var s := a + "." + b + path;
    HostEndOfBareDomain(a, b, path);
    assert s[..|a| + 1 + |b|] == a + "." + b;
    assert s[|a| + 1 + |b|..] == path;
    SplitTwoLabels(a, b);
  }

  /** A domain written without a scheme, such as `example.com/page`, is read as an https URL. */
  lemma BareDomainGetsHttps(a: string, b: string, path: string, env: Env)
    requires IsLabel(a) && IsLabel(b)
    requires path == [] || (path[0] == '/' && !HasJsSpace(path))
    ensures NormalizeMaybeUrl(Str(a + "." + b + path), env) == ParseWeb("https://" + LowerWww(a + "." + b + path), env)
  {
    var s := a + "." + b + path;
    BareDomainShape(a, b, path);
    BareDomainIsTrimmed(a, b, path);
    CandidateOfBareDomain(s);
    NormalizeOfText(s, env);
  }

  lemma BareDomainShape(a: string, b: string, path: string)
    requires IsLabel(a) && IsLabel(b)
    requires path == [] || (path[0] == '/' && !HasJsSpace(path))
    ensures var s := a + "." + b + path;
      s != [] && s[0] != '/' && !HasWebScheme(s) && IsBareDomainPath(s)
  {
    var s := a + "." + b + path;
    assert s == a + "." + (b + path);
    LabelFirstIsNotWeb(a, b + path);
    TwoLabelsAreBareDomain(a, b, path);
    assert s[0] == a[0] && IsLabelChar(a[0]);
  }

  lemma BareDomainIsTrimmed(a: string, b: string, path: string)
    requires IsLabel(a) && IsLabel(b)
    requires path == [] || (path[0] == '/' && !HasJsSpace(path))
    ensures Trim(a + "." + b + path) == a + "." + b + path
  {
    var s := a + "." + b + path;
    assert s[0] == a[0] && IsLabelChar(a[0]);
    var last := s[|s| - 1];
    if path == [] {
      assert last == b[|b| - 1] && IsLabelChar(last);
    } else {
      assert last == path[|path| - 1] && !IsJsSpace(last);
    }
    TrimNoop(s);
  }

  /** A non-empty trimmed string is normalised through its candidate. */
  lemma NormalizeOfText(s: string, env: Env)
    requires s != "" && Trim(s) == s
    ensures NormalizeMaybeUrl(Str(s), env) == if Candidate(s).Some? then ParseWeb(Candidate(s).value, env) else None
  {
    assert Truthy(Str(s));
    assert Trim(ToJsString(Or(Str(s), Str("")), env.show)) == s;
  }

  lemma CandidateOfBareDomain(s: string)
    requires s != [] && s[0] != '/'
    requires !HasWebScheme(s) && IsBareDomainPath(s)
    ensures Candidate(s) == Some("https://" + LowerWww(s))
  {
    if |s| >= 2 {
      assert s[..2][0] == s[0];
    }
    assert !StartsWith(s, "//");
  }

  /** A scheme other than http and https, such as `mailto:` or `javascript:`, is refused:
    * a colon in the host part is never part of a bare domain. */
  lemma OtherSchemesAreRefused(input: JsValue, env: Env)
    requires var raw := Trim(ToJsString(Or(input, Str("")), env.show));
      ':' in raw[..HostEnd(raw)] && !HasWebScheme(raw) && !StartsWith(raw, "//")
    ensures NormalizeMaybeUrl(input, env) == None
  {
    var raw := Trim(ToJsString(Or(input, Str("")), env.show));
    var labels := Split(raw[..HostEnd(raw)], '.');
    SplitKeepsChar(raw[..HostEnd(raw)], '.', ':');
    var k :| 0 <= k < |labels| && ':' in labels[k];
    assert !IsLabel(labels[k]);
    assert !IsBareDomainPath(raw);
  }

  /** A text with an http(s) scheme is its own candidate. */
  lemma CandidateOfWebText(h: string)
    requires HasWebScheme(h)
    ensures Candidate(h) == Some(h)
  {
    assert |ToLower(h)| == |h|;
    assert ToLower(h)[0] == 'h';
    assert !StartsWith(h, "//");
    assert h != "";
  }

  /** A trimmed text with an http(s) scheme is handed to the parser as it is. */
  lemma NormalizeWebText(h: string, env: Env)
    requires HasWebScheme(h) && Trim(h) == h
    ensures NormalizeMaybeUrl(Str(h), env) == ParseWeb(h, env)
  {
    CandidateOfWebText(h);
    NormalizeOfText(h, env);
  }

  /** A normalised URL normalises to itself. */
  lemma NormalizeIsStable(input: JsValue, env: Env)
    requires SerializesStably(env)
    requires NormalizeMaybeUrl(input, env).Some?
    ensures NormalizeMaybeUrl(Str(NormalizeMaybeUrl(input, env).value), env) == NormalizeMaybeUrl(input, env)
  {
    var c := Candidate(Trim(ToJsString(Or(input, Str("")), env.show))).value;
    var p := env.parse(c).value;
    assert HasWebScheme(p.href) && Trim(p.href) == p.href && env.parse(p.href) == Some(p);
    NormalizeWebText(p.href, env);
  }

  // ---------------------------------------------------------------------------
  // isGenericXLoginThumb
  // ---------------------------------------------------------------------------

  const TwimgHost := "abs.twimg.com"
  const HttpTwimg := "http://" + TwimgHost + "/"
  const HttpsTwimg := "https://" + TwimgHost + "/"
  const ThumbFile := "/og/image.png"
  const ClientWebPath := "responsive-web/client-web"

  predicate IsLineBreak(c: char) {
    c == '\n' || c == '\r' || c == '\U{2028}' || c == '\U{2029}'
  }

  /** Matched by `.*`: no line terminator. */
  predicate NoLineBreak(s: string) {
    forall k | 0 <= k < |s| :: !IsLineBreak(s[k])
  }

  /** `(?:[?#].*)?$`. */
  predicate QueryTail(s: string) {
    s == [] || ((s[0] == '?' || s[0] == '#') && NoLineBreak(s[1..]))
  }

  /** `pre` occurs in `low` at position `i`. */
  predicate PrefixAt(low: string, i: nat, pre: string) {
    i + |pre| <= |low| && low[i..i + |pre|] == pre
  }

  /** `.*\/og\/image\.png(?:[?#].*)?$` from position `p`. */
  predicate ThumbTail(low: string, p: nat) {
    exists j | p <= j <= |low| :: ThumbFileAt(low, p, j)
  }

  /** `/og/image.png` at `j`, no line break between `p` and `j`, and a query tail after it. */
  predicate ThumbFileAt(low: string, p: nat, j: nat) {
    p <= j && PrefixAt(low, j, ThumbFile) && NoLineBreak(low[p..j]) && QueryTail(low[j + |ThumbFile|..])
  }

  /** `host` at `i`, followed by a thumb tail. */
  predicate HostThumbAt(low: string, i: nat, host: string) {
    PrefixAt(low, i, host) && ThumbTail(low, i + |host|)
  }

  /** `https?:\/\/abs\.twimg\.com\/` at `i`, followed by a thumb tail. */
  predicate FirstPatternAt(low: string, i: nat) {
    HostThumbAt(low, i, HttpTwimg) || HostThumbAt(low, i, HttpsTwimg)
  }

  /** The first pattern, `/https?:\/\/abs\.twimg\.com\/.*\/og\/image\.png(?:[?#].*)?$/i`, on lower-cased text. */
  predicate FirstPattern(low: string) {
    exists i | 0 <= i <= |low| :: FirstPatternAt(low, i)
  }

  /** `host`, then `responsive-web/client-web/og/image.png` at `i`, then a query tail. */
  predicate ClientWebThumbAt(low: string, i: nat, host: string) {
    PrefixAt(low, i, host + ClientWebPath + ThumbFile) && QueryTail(low[i + |host + ClientWebPath + ThumbFile|..])
  }

  /** `https?:\/\/abs\.twimg\.com\/responsive-web\/client-web\/og\/image\.png(?:[?#].*)?$` at `i`. */
  predicate SecondPatternAt(low: string, i: nat) {
    ClientWebThumbAt(low, i, HttpTwimg) || ClientWebThumbAt(low, i, HttpsTwimg)
  }

  /** The second pattern, on lower-cased text. */
  predicate SecondPattern(low: string) {
    exists i | 0 <= i <= |low| :: SecondPatternAt(low, i)
  }

  /** `isGenericXLoginThumb(url)`. */
  predicate IsGenericXLoginThumb(url: JsValue, show: JsValue -> string) {
    Truthy(url) &&
    var n := Trim(ToJsString(url, show));
    n != "" && (FirstPattern(ToLower(n)) || SecondPattern(ToLower(n)))
  }

  /** A fixed prefix of the second pattern, then the thumb file, is a match of the first. */
  lemma CoveredAt(low: string, i: nat, host: string)
    requires ClientWebThumbAt(low, i, host)
    ensures HostThumbAt(low, i, host)
  {
    var p, j := i + |host|, i + |host| + |ClientWebPath|;
    assert NoLineBreak(ClientWebPath);
    PrefixOfThree(low, i, host, ClientWebPath, ThumbFile);
    assert ThumbFileAt(low, p, j);
  }

  /** `a + b + c` at `i`: `a` at `i`, `b` right after it (so free of line breaks when
    * `b` is), and `c` after that. */
  lemma PrefixOfThree(low: string, i: nat, a: string, b: string, c: string)
    requires PrefixAt(low, i, a + b + c) && NoLineBreak(b)
    ensures PrefixAt(low, i, a)
    ensures NoLineBreak(low[i + |a|..i + |a| + |b|])
    ensures PrefixAt(low, i + |a| + |b|, c)
  {
    var whole := a + b + c;
    PartsOf(a, b, c);
    SliceOfPrefix(low, i, whole, 0, |a|);
    SliceOfPrefix(low, i, whole, |a|, |b|);
    SliceOfPrefix(low, i, whole, |a| + |b|, |c|);
    assert whole[|a| + |b|..|a| + |b| + |c|] == c;
  }

  /** Every URL of the second pattern also matches the first, so the second adds nothing. */
  lemma SecondPatternIsCovered(low: string)
    requires SecondPattern(low)
    ensures FirstPattern(low)
  {
    var i :| 0 <= i <= |low| && SecondPatternAt(low, i);
    if ClientWebThumbAt(low, i, HttpTwimg) {
      CoveredAt(low, i, HttpTwimg);
    } else {
      CoveredAt(low, i, HttpsTwimg);
    }
    assert FirstPatternAt(low, i);
  }

  /** Lower-casing keeps line terminators and everything that is not a letter. */
  lemma LowerKeepsNoLineBreak(s: string)
    requires NoLineBreak(s)
    ensures NoLineBreak(ToLower(s))
  {
  }

  lemma LowerKeepsQueryTail(tail: string)
    requires QueryTail(tail)
    ensures QueryTail(ToLower(tail))
  {
    if tail != [] {
      var t := ToLower(tail);
      forall k | 0 <= k < |t[1..]| ensures !IsLineBreak(t[1..][k]) {
        assert t[1..][k] == LowerChar(tail[1..][k]);
      }
    }
  }

  /** The three parts of a concatenation, as slices of it. */
  lemma PartsOf(a: string, b: string, c: string)
    ensures (a + b + c)[..|a|] == a
    ensures (a + b + c)[|a|..|a| + |b|] == b
    ensures (a + b + c)[|a| + |b|..] == c
  {
    var w := a + b + c;
    assert forall k | 0 <= k < |b| :: w[|a| + k] == b[k];
    assert forall k | 0 <= k < |c| :: w[|a| + |b| + k] == c[k];
  }

  lemma SliceOfPrefix(low: string, i: nat, pre: string, h: nat, len: nat)
    requires PrefixAt(low, i, pre) && h + len <= |pre|
    ensures low[i + h..i + h + len] == pre[h..h + len]
  {
    var part, want, whole := low[i + h..i + h + len], pre[h..h + len], low[i..i + |pre|];
    forall k | 0 <= k < len ensures part[k] == want[k] {
      assert whole[h + k] == part[k];
    }
  }

  /** The pieces of a thumbnail URL, joined, match the first pattern at 0. */
  lemma FirstPatternOfParts(middle: string, tail: string)
    requires NoLineBreak(middle) && QueryTail(tail)
    ensures FirstPattern(HttpsTwimg + middle + ThumbFile + tail)
  {
    var low := HttpsTwimg + middle + ThumbFile + tail;
    var j := |HttpsTwimg| + |middle|;
    PartsOf(HttpsTwimg + middle, ThumbFile, tail);
    PartsOf(HttpsTwimg, middle, ThumbFile);
    assert low[..j + |ThumbFile|] == HttpsTwimg + middle + ThumbFile;
    assert low[j..j + |ThumbFile|] == ThumbFile;
    assert low[|HttpsTwimg|..j] == middle;
    assert low[..|HttpsTwimg|] == HttpsTwimg;
    assert ThumbFileAt(low, |HttpsTwimg|, j);
    assert HostThumbAt(low, 0, HttpsTwimg);
    assert FirstPatternAt(low, 0);
  }

  lemma LowerOfThumbUrl(middle: string, tail: string)
    ensures ToLower(HttpsTwimg + middle + ThumbFile + tail) == HttpsTwimg + ToLower(middle) + ThumbFile + ToLower(tail)
  {
    ToLowerAppend(HttpsTwimg + middle + ThumbFile, tail);
    ToLowerAppend(HttpsTwimg + middle, ThumbFile);
    ToLowerAppend(HttpsTwimg, middle);
    ToLowerKeepsLower(HttpsTwimg);
    ToLowerKeepsLower(ThumbFile);
  }

  /** Any URL under `https://abs.twimg.com/` whose path ends in `/og/image.png`, with an
    * optional query or fragment and no line break, is the generic thumbnail. */
  lemma GenericThumbIsRecognised(middle: string, tail: string, show: JsValue -> string)
    requires NoLineBreak(middle) && QueryTail(tail)
    requires tail == [] || !IsJsSpace(tail[|tail| - 1])
    ensures IsGenericXLoginThumb(Str(HttpsTwimg + middle + ThumbFile + tail), show)
  {
    var n := HttpsTwimg + middle + ThumbFile + tail;
    assert n[0] == 'h' && (tail == [] ==> n[|n| - 1] == 'g');
    TrimNoop(n);
    LowerOfThumbUrl(middle, tail);
    LowerKeepsNoLineBreak(middle);
    LowerKeepsQueryTail(tail);
    FirstPatternOfParts(ToLower(middle), ToLower(tail));
  }

  /** A text in which `abs.twimg.com` does not occur is never the generic thumbnail. */
  lemma OtherHostsAreNotGeneric(url: JsValue, show: JsValue -> string)
    requires !Contains(ToLower(Trim(ToJsString(url, show))), TwimgHost)
    ensures !IsGenericXLoginThumb(url, show)
  {
    NeitherPatternWithoutHost(ToLower(Trim(ToJsString(url, show))));
  }

  /** Both patterns name the thumbnail host. */
  lemma NeitherPatternWithoutHost(low: string)
    requires !Contains(low, TwimgHost)
    ensures !FirstPattern(low) && !SecondPattern(low)
  {
    if SecondPattern(low) {
      SecondPatternIsCovered(low);
    }
    if FirstPattern(low) {
      var i :| 0 <= i <= |low| && FirstPatternAt(low, i);
      if HostThumbAt(low, i, HttpTwimg) {
        TwimgHostOccurs(low, i, "http://");
      } else {
        TwimgHostOccurs(low, i, "https://");
      }
    }
  }

  /** A scheme, the thumbnail host and a slash at `i`: the host occurs in `low`. */
  lemma TwimgHostOccurs(low: string, i: nat, scheme: string)
    requires PrefixAt(low, i, scheme + TwimgHost + "/")
    ensures Contains(low, TwimgHost)
  {
    PartsOf(scheme, TwimgHost, "/");
    SliceOfPrefix(low, i, scheme + TwimgHost + "/", |scheme|, |TwimgHost|);
    ContainsAt(low, TwimgHost, i + |scheme|);
  }

  // ---------------------------------------------------------------------------
  // Cards, media and actions
  // ---------------------------------------------------------------------------

  /** A card's `source`: its URL, its site name, and its favicon (standing for every
    * other field, which the migration copies unread). */
  datatype Source = Source(url: JsValue, site: JsValue, favicon: JsValue)

  /** A card's `media` object; absent fields are `Undefined`. */
  datatype Media = Media(
    mediaType: JsValue,
    kind: JsValue,
    url: JsValue,
    embedUrl: JsValue,
    thumbnail: JsValue,
    posterUrl: JsValue,
    provider: JsValue,
    youtubeId: JsValue)

  /** A board card; `source` and `media` are None when absent. */
  datatype Card = Card(id: JsValue, cardType: JsValue, text: JsValue, source: Option<Source>, media: Option<Media>)

  /** The card type of a clip. */
  const ClipType: JsValue := Num(8.0)

  /** An action record: `type`, `url` (None when absent), `reason`, and the `cardId`
    * the runner adds (None when absent). */
  datatype Action = Action(kind: string, url: Option<string>, reason: string, cardId: Option<JsValue>)

  /** `makeEnqueueAction(url, reason)`. */
  function Enqueue(url: string, reason: string): Action {
    Action("enqueue_unfurl", Some(url), reason, None)
  }

  /** `makeDropThumbnailAction("x_generic_login_wall_thumb")`. */
  const DropThumbnail := Action("drop_thumbnail", None, "x_generic_login_wall_thumb", None)

  predicate IsEmbedMedia(m: Media) {
    m.mediaType == Str("embed") || m.kind == Str("embed")
  }

  /** `hasUsableMedia(media)`. */
  predicate HasUsableMedia(media: Option<Media>) {
    match media
    case None => false
    case Some(m) =>
      if m.mediaType == Str("youtube") then Truthy(m.youtubeId)
      else if IsEmbedMedia(m) then Truthy(m.embedUrl)
      else Truthy(m.url)
  }

  /** `${action.cardId ?? ""}`. */
  function CardIdText(cardId: Option<JsValue>, show: JsValue -> string): string {
    if cardId.None? || IsNullish(cardId.value) then "" else ToJsString(cardId.value, show)
  }

  /** The key `dedupeActions` compares: type, url, reason and card id joined by colons. */
  function ActionKey(a: Action, show: JsValue -> string): string {
    a.kind + ":" + (if a.url.Some? then a.url.value else "") + ":" + a.reason + ":" + CardIdText(a.cardId, show)
  }

  function KeyOf(show: JsValue -> string): Action -> string {
    a => ActionKey(a, show)
  }

  /** `dedupeActions(actions)`: the first action of each key, in order. */
  method DedupeActions(actions: seq<Action>, show: JsValue -> string) returns (out: seq<Action>)
    ensures out == DedupBy(actions, KeyOf(show))
  {
    var seen: set<string> := {};
    out := [];
    for i := 0 to |actions|
      invariant out == DedupBy(actions[..i], KeyOf(show))
      invariant seen == Keys(out, KeyOf(show))
    {
      assert actions[..i + 1][..i] == actions[..i];
      var key := ActionKey(actions[i], show);
      if key !in seen {
        KeysAppend(out, actions[i], KeyOf(show));
        seen := seen + {key};
        out := out + [actions[i]];
      }
    }
    assert actions[..|actions|] == actions;
  }

  /** The deduplicated actions have distinct keys, keep every key, keep their order,
    * hold for each key its first action, and deduplicating them again changes nothing. */
  lemma DedupeActionsProperties(actions: seq<Action>, show: JsValue -> string)
    ensures var r := DedupBy(actions, KeyOf(show));
      && DistinctKeys(r, KeyOf(show))
      && Keys(r, KeyOf(show)) == Keys(actions, KeyOf(show))
      && IsSubsequence(r, actions)
      && (forall i | 0 <= i < |r| ::
            KeyOf(show)(r[i]) in Keys(actions, KeyOf(show)) && r[i] == actions[FirstWithKey(actions, KeyOf(show)(r[i]), KeyOf(show))])
      && DedupBy(r, KeyOf(show)) == r
  {
    var r := DedupBy(actions, KeyOf(show));
    DedupByShape(actions, KeyOf(show));
    forall i | 0 <= i < |r|
      ensures KeyOf(show)(r[i]) in Keys(actions, KeyOf(show)) && r[i] == actions[FirstWithKey(actions, KeyOf(show)(r[i]), KeyOf(show))]
    {
      DedupByKeepsFirst(actions, i, KeyOf(show));
    }
    DedupByIdempotent(actions, KeyOf(show));
  }

  // ---------------------------------------------------------------------------
  // migrateCard
  // ---------------------------------------------------------------------------

  /** The card's URL: its normalised `source.url`, else its text when that is a lone URL. */
  function Canonical(card: Card, env: Env): Option<string> {
    var sourceUrl := if card.source.Some? then card.source.value.url else Undefined;
    var fromSource := NormalizeMaybeUrl(Or(sourceUrl, Str("")), env);
    if fromSource.Some? then fromSource else ExtractUrlOnlyText(card.text, env)
  }

  /** `if (canonicalUrl)`: a URL that is present and not empty. */
  predicate HasCanonical(canon: Option<string>) {
    canon.Some? && canon.value != ""
  }

  /** `canonicalUrl` as a JavaScript value: a string, or null. */
  function CanonicalValue(canon: Option<string>): JsValue {
    if canon.Some? then Str(canon.value) else Null
  }

  /** The migration's working state: the card being built, the reasons, the actions, and `changed`. */
  datatype Progress = Progress(next: Card, reasons: seq<string>, actions: seq<Action>, changed: bool)

  const Reasons := ["normalize_url_note_to_clip", "drop_x_generic_thumb", "repair_embed_missing_url", "repair_embed_missing_media_url"]

  /** What every step keeps: `changed` exactly when a reason was recorded, every reason is
    * one of the four, every action is the thumbnail drop or an unfurl of the card's URL,
    * and the card keeps its id and text and is either of its old type or a clip. */
  predicate Keeps(p: Progress, card: Card, canon: Option<string>) {
    && (p.changed <==> |p.reasons| > 0)
    && (forall r | r in p.reasons :: r in Reasons)
    && (forall a | a in p.actions :: a == DropThumbnail || (HasCanonical(canon) && a == Enqueue(canon.value, a.reason)))
    && p.next.id == card.id && p.next.text == card.text
    && (p.next.cardType == card.cardType || p.next.cardType == ClipType)
  }

  /** Replacing the media, recording a reason and adding allowed actions keeps `Keeps`. */
  lemma KeepsRecord(p: Progress, card: Card, canon: Option<string>, media: Option<Media>, reason: string, extra: seq<Action>)
    requires Keeps(p, card, canon) && reason in Reasons
    requires forall a | a in extra :: a == DropThumbnail || (HasCanonical(canon) && a == Enqueue(canon.value, a.reason))
    ensures Keeps(Progress(p.next.(media := media), p.reasons + [reason], p.actions + extra, true), card, canon)
  {
  }

  /** Step 1: a card with a URL that is not yet a clip becomes one, its source URL set to
    * the canonical URL; an unfurl is requested unless the media are already usable. */
  function NoteToClip(card: Card, canon: Option<string>, env: Env): (p: Progress)
    ensures Keeps(p, card, canon)
    ensures p.next.media == card.media
    ensures p.changed <==> HasCanonical(canon) && card.cardType != ClipType
    ensures p.changed ==> p.next.cardType == ClipType && p.next.source.Some? && p.next.source.value.url == Str(canon.value)
    ensures !p.changed ==> p == Progress(card, [], [], false)
  {
    if HasCanonical(canon) && card.cardType != ClipType then
      var c := canon.value;
      var oldSite := if card.source.Some? then card.source.value.site else Undefined;
      var favicon := if card.source.Some? then card.source.value.favicon else Undefined;
      var site := Or(Or(oldSite, Str(HostFromUrl(c, env))), Str(c));
      var next := card.(cardType := ClipType, source := Some(Source(Str(c), site, favicon)));
      var actions := if HasUsableMedia(card.media) then [] else [Enqueue(c, "normalize_url_note_to_clip")];
      Progress(next, ["normalize_url_note_to_clip"], actions, true)
    else
      Progress(card, [], [], false)
  }

  /** The generic thumbnail is in the media's url, thumbnail or poster. */
  predicate HasGenericThumb(m: Media, show: JsValue -> string) {
    IsGenericXLoginThumb(m.url, show) || IsGenericXLoginThumb(m.thumbnail, show) || IsGenericXLoginThumb(m.posterUrl, show)
  }

  /** Media `m` once the generic thumbnail is removed: image media whose URL is the thumbnail
    * are dropped whole; otherwise the thumbnail and poster are deleted where they are the
    * generic one, and an embed whose URL is the thumbnail takes the canonical URL, else the
    * embed URL, else its own URL. */
  function CleanMedia(m: Media, canon: Option<string>, show: JsValue -> string): Option<Media> {
    var badUrl := IsGenericXLoginThumb(m.url, show);
    if m.mediaType == Str("image") && badUrl then None
    else Some(m.(
      thumbnail := if IsGenericXLoginThumb(m.thumbnail, show) then Undefined else m.thumbnail,
      posterUrl := if IsGenericXLoginThumb(m.posterUrl, show) then Undefined else m.posterUrl,
      url := if badUrl && IsEmbedMedia(m) then Coalesce(Coalesce(CanonicalValue(canon), m.embedUrl), m.url) else m.url))
  }

  /** The actions of the thumbnail step, for the card's URL `canon`. */
  function DropActions(canon: Option<string>): seq<Action> {
    [DropThumbnail] + (if HasCanonical(canon) then [Enqueue(canon.value, "drop_x_generic_thumb")] else [])
  }

  /** Step 2: the generic X thumbnail is removed. Image media whose URL is the thumbnail are
    * dropped whole; otherwise the thumbnail and poster are deleted and an embed's URL is
    * replaced by the canonical URL or the embed URL. */
  function DropGenericThumbs(p: Progress, card: Card, canon: Option<string>, show: JsValue -> string): (q: Progress)
    requires Keeps(p, card, canon)
    ensures Keeps(q, card, canon)
    ensures q.next.cardType == p.next.cardType && q.next.source == p.next.source && p.reasons <= q.reasons
    ensures p.next.media.Some? && HasGenericThumb(p.next.media.value, show) ==> q.changed
    ensures !(p.next.media.Some? && HasGenericThumb(p.next.media.value, show)) ==> q == p
  {
    match p.next.media
    case None => p
    case Some(m) =>
      if !HasGenericThumb(m, show) then p
      else
        var media := CleanMedia(m, canon, show);
        KeepsRecord(p, card, canon, media, "drop_x_generic_thumb", DropActions(canon));
        Progress(p.next.(media := media), p.reasons + ["drop_x_generic_thumb"], p.actions + DropActions(canon), true)
  }

  /** Step 3: embed media without a usable embed URL get one inferred from the canonical or
    * media URL (or an unfurl is requested); embed media without a URL get one. */
  function RepairEmbed(p: Progress, card: Card, canon: Option<string>, env: Env): (q: Progress)
    requires Keeps(p, card, canon)
    ensures Keeps(q, card, canon)
    ensures q.next.cardType == p.next.cardType && q.next.source == p.next.source && p.reasons <= q.reasons
    ensures p.changed ==> q.changed
    ensures !(p.next.media.Some? && IsEmbedMedia(p.next.media.value)) ==> q == p
  {
    match p.next.media
    case None => p
    case Some(m) =>
      if !IsEmbedMedia(m) then p
      else
        var embedUrl := NormalizeMaybeUrl(Or(m.embedUrl, Str("")), env);
        if !HasCanonical(embedUrl) then InferMissingEmbed(p, card, m, canon, env)
        else if !Truthy(m.url) then
          var url := if canon.Some? then canon.value else embedUrl.value;
          KeepsRecord(p, card, canon, Some(m.(url := Str(url))), "repair_embed_missing_media_url", []);
          assert p.actions + [] == p.actions;
          Progress(p.next.(media := Some(m.(url := Str(url)))), p.reasons + ["repair_embed_missing_media_url"], p.actions, true)
        else p
  }

  /** Embed media `m` without a usable embed URL: the embed inferred from the canonical URL
    * (or, without one, the media URL) is filled in; failing that, an unfurl of the canonical
    * URL is requested. */
  function InferMissingEmbed(p: Progress, card: Card, m: Media, canon: Option<string>, env: Env): (q: Progress)
    requires Keeps(p, card, canon)
    ensures Keeps(q, card, canon)
    ensures q.next.cardType == p.next.cardType && q.next.source == p.next.source && p.reasons <= q.reasons
    ensures p.changed ==> q.changed
  {
    var base := if canon.Some? then canon else NormalizeMaybeUrl(Or(m.url, Str("")), env);
    var inferred := if HasCanonical(base) then env.inferEmbed(base.value) else None;
    match inferred
    case Some(e) =>
      var repaired := m.(
        mediaType := Str("embed"),
        kind := Str("embed"),
        embedUrl := Str(e.embedUrl),
        provider := Or(m.provider, Str(e.provider)),
        url := Coalesce(Coalesce(CanonicalValue(canon), m.url), Str(e.embedUrl)));
      KeepsRecord(p, card, canon, Some(repaired), "repair_embed_missing_url", []);
      assert p.actions + [] == p.actions;
      Progress(p.next.(media := Some(repaired)), p.reasons + ["repair_embed_missing_url"], p.actions, true)
    case None =>
      if HasCanonical(canon) then p.(actions := p.actions + [Enqueue(canon.value, "embed_missing_url")]) else p
  }

  /** What `migrateCard` returns. */
  datatype Migration = Migration(changed: bool, card: Card, reasons: seq<string>, actions: seq<Action>)

  /** The three steps in order, before the card is chosen and the actions deduplicated. */
  function Steps(card: Card, env: Env): (p: Progress)
    ensures Keeps(p, card, Canonical(card, env))
  {
    var canon := Canonical(card, env);
    RepairEmbed(DropGenericThumbs(NoteToClip(card, canon, env), card, canon, env.show), card, canon, env)
  }

  /** `migrateCard(card)`. The card comes back as it was unless something changed, and then
    * with its id and text kept and its type either kept or the clip type; every reason is
    * one of the four, and the actions are the thumbnail drop and unfurls of the card's own
    * URL, without repeats. */
  function MigrateCard(card: Card, env: Env): (r: Migration)
    ensures !r.changed ==> r.card == card
    ensures r.changed <==> |r.reasons| > 0
    ensures forall x | x in r.reasons :: x in Reasons
    ensures r.card.id == card.id && r.card.text == card.text
    ensures r.card.cardType == card.cardType || r.card.cardType == ClipType
    ensures DistinctKeys(r.actions, KeyOf(env.show))
    ensures forall a | a in r.actions ::
      a == DropThumbnail || (HasCanonical(Canonical(card, env)) && a == Enqueue(Canonical(card, env).value, a.reason))
  {
    var p := Steps(card, env);
    DedupByShape(p.actions, KeyOf(env.show));
    DedupByMembers(p.actions, KeyOf(env.show));
    Migration(p.changed, if p.changed then p.next else card, p.reasons, DedupBy(p.actions, KeyOf(env.show)))
  }

  /** A card with a URL that is not a clip is turned into one whose source URL is that URL
    * (the first two cases of the migration's own tests). */
  lemma UrlNoteBecomesClip(card: Card, env: Env)
    requires HasCanonical(Canonical(card, env)) && card.cardType != ClipType
    ensures var r := MigrateCard(card, env);
      && r.changed && r.card.cardType == ClipType
      && r.card.source.Some? && r.card.source.value.url == Str(Canonical(card, env).value)
      && |r.reasons| > 0 && r.reasons[0] == "normalize_url_note_to_clip"
  {
    var canon := Canonical(card, env);
    var p1 := NoteToClip(card, canon, env);
    var p2 := DropGenericThumbs(p1, card, canon, env.show);
    var p3 := RepairEmbed(p2, card, canon, env);
    assert Steps(card, env) == p3;
  }

  /** A card without media needs migrating at most once: running the migration on its
    * result changes nothing. */
  lemma MigrateCardIdempotentWithoutMedia(card: Card, env: Env)
    requires card.media.None?
    ensures !MigrateCard(MigrateCard(card, env).card, env).changed
  {
    var canon := Canonical(card, env);
    var p1 := NoteToClip(card, canon, env);
    assert Steps(card, env) == p1;
    var r := MigrateCard(card, env);
    if r.changed {
      var c2 := r.card;
      assert c2.cardType == ClipType && c2.media.None?;
      var canon2 := Canonical(c2, env);
      assert Steps(c2, env) == NoteToClip(c2, canon2, env);
    }
  }

  /** The drop action and an unfurl request never share a key. */
  lemma DropAndEnqueueDiffer(url: string, reason: string, show: JsValue -> string)
    ensures ActionKey(DropThumbnail, show) != ActionKey(Enqueue(url, reason), show)
  {
    assert ActionKey(DropThumbnail, show)[0] == 'd';
    assert ActionKey(Enqueue(url, reason), show)[0] == 'e';
  }

  lemma DropActionsDistinct(canon: Option<string>, show: JsValue -> string)
    ensures DedupBy(DropActions(canon), KeyOf(show)) == DropActions(canon)
  {
    if HasCanonical(canon) {
      DropAndEnqueueDiffer(canon.value, "drop_x_generic_thumb", show);
    }
    assert DistinctKeys(DropActions(canon), KeyOf(show));
    DedupByOfDistinct(DropActions(canon), KeyOf(show));
  }

  lemma StepsOfImageThumb(card: Card, env: Env)
    requires card.cardType == ClipType && card.media.Some?
    requires card.media.value.mediaType == Str("image") && IsGenericXLoginThumb(card.media.value.url, env.show)
    ensures var p := Steps(card, env);
      p.changed && p.next.media.None? && p.reasons == ["drop_x_generic_thumb"] && p.actions == DropActions(Canonical(card, env))
  {
    var canon := Canonical(card, env);
    var p1 := NoteToClip(card, canon, env);
    assert p1 == Progress(card, [], [], false);
    assert CleanMedia(card.media.value, canon, env.show) == None;
    var p2 := DropGenericThumbs(p1, card, canon, env.show);
    assert p2.next.media.None? && p2.actions == DropActions(canon);
  }

  /** On a clip whose image media are the generic X thumbnail, the media are removed, the
    * thumbnail drop is reported, and an unfurl of the card's URL is requested when it has
    * one (the third case of the migration's own tests). */
  lemma GenericImageThumbIsDropped(card: Card, env: Env)
    requires card.cardType == ClipType && card.media.Some?
    requires card.media.value.mediaType == Str("image") && IsGenericXLoginThumb(card.media.value.url, env.show)
    ensures var r := MigrateCard(card, env);
      && r.changed && r.card.media.None? && r.reasons == ["drop_x_generic_thumb"]
      && r.actions == DropActions(Canonical(card, env))
  {
    StepsOfImageThumb(card, env);
    DropActionsDistinct(Canonical(card, env), env.show);
  }

  /** Cleaning media that are neither an image nor an embed keeps their URL, type and kind. */
  lemma CleanOtherMedia(m: Media, canon: Option<string>, show: JsValue -> string)
    requires m.mediaType != Str("image") && !IsEmbedMedia(m)
    ensures var cleaned := CleanMedia(m, canon, show);
      cleaned.Some? && cleaned.value.url == m.url && cleaned.value.mediaType == m.mediaType
      && cleaned.value.kind == m.kind && !IsEmbedMedia(cleaned.value)
  {
  }

  lemma StepsOfOtherMedia(card: Card, env: Env)
    requires card.cardType == ClipType && card.media.Some?
    requires var m := card.media.value;
      m.mediaType != Str("image") && !IsEmbedMedia(m) && IsGenericXLoginThumb(m.url, env.show)
    ensures var p := Steps(card, env);
      p.changed && p.next.cardType == ClipType && p.next.media.Some? && p.next.media.value.url == card.media.value.url
      && p.next.media.value.mediaType == card.media.value.mediaType && p.next.media.value.kind == card.media.value.kind
  {
    var canon := Canonical(card, env);
    var m := card.media.value;
    var p1 := NoteToClip(card, canon, env);
    assert p1 == Progress(card, [], [], false);
    var cleaned := CleanMedia(m, canon, env.show);
    CleanOtherMedia(m, canon, env.show);
    var p2 := DropGenericThumbs(p1, card, canon, env.show);
    assert p2.changed && p2.next.media == cleaned;
    assert !IsEmbedMedia(cleaned.value);
    assert RepairEmbed(p2, card, canon, env) == p2;
  }

  /** Migration is not idempotent on every card: when a clip's media are neither an image nor
    * an embed and their URL is the generic X thumbnail, the URL is kept, so every later run
    * reports the same change again. */
  lemma GenericThumbOnOtherMediaRepeats(card: Card, env: Env)
    requires card.cardType == ClipType && card.media.Some?
    requires var m := card.media.value;
      m.mediaType != Str("image") && !IsEmbedMedia(m) && IsGenericXLoginThumb(m.url, env.show)
    ensures MigrateCard(card, env).changed
    ensures var again := MigrateCard(card, env).card;
      again.cardType == ClipType && again.media.Some? && again.media.value.url == card.media.value.url
      && MigrateCard(again, env).changed
  {
    StepsOfOtherMedia(card, env);
    var again := MigrateCard(card, env).card;
    StepsOfOtherMedia(again, env);
  }

  // ---------------------------------------------------------------------------
  // runSelfHealMigration
  // ---------------------------------------------------------------------------

  /** `summarizeCard(card)`. */
  datatype Summary = Summary(cardType: JsValue, sourceUrl: JsValue, mediaType: JsValue, mediaKind: JsValue, mediaUrl: JsValue, embedUrl: JsValue)

  function SummarizeCard(card: Card): (r: Summary)
    ensures r.cardType == card.cardType
    ensures (card.source.Some? && Truthy(card.source.value.url)) ==> r.sourceUrl == card.source.value.url
    ensures !(card.source.Some? && Truthy(card.source.value.url)) ==> r.sourceUrl == Null
  {
    match card.media
    case None => Summary(card.cardType, Or(if card.source.Some? then card.source.value.url else Undefined, Null), Null, Null, Null, Null)
    case Some(m) =>
      Summary(card.cardType, Or(if card.source.Some? then card.source.value.url else Undefined, Null),
        Or(m.mediaType, Null), Or(m.kind, Null), Or(m.url, Null), Or(m.embedUrl, Null))
  }

  /** One entry of `fixes`. */
  datatype Fix = Fix(cardId: JsValue, reasons: seq<string>, before: Summary, after: Summary, actions: seq<Action>)

  /** The runner's counters and lists while it walks the cards. */
  datatype RunState = RunState(cards: seq<Card>, applied: nat, changedCount: nat, candidates: nat, actions: seq<Action>, fixes: seq<Fix>)

  /** What `runSelfHealMigration` returns. */
  datatype RunResult = RunResult(
    cards: seq<Card>,
    changedCount: nat,
    appliedCount: nat,
    candidateCount: nat,
    remainingCount: nat,
    actions: seq<Action>,
    fixes: seq<Fix>,
    limit: int)

  /** `Number.isFinite(limit) && limit > 0 ? Math.floor(limit) : 30`. */
  function RunLimit(limit: JsValue): (n: int)
    ensures n >= 0
    ensures !(limit.Num? && limit.n > 0.0) ==> n == MaxPerRun
    ensures limit.Num? && limit.n > 0.0 ==> n as real <= limit.n < n as real + 1.0
  {
    if limit.Num? && limit.n > 0.0 then limit.n.Floor else MaxPerRun
  }

  /** A card has work when migrating it changes it or asks for something. */
  predicate HasWork(o: Migration) {
    o.changed || |o.actions| > 0
  }

  /** The actions of one card, each tagged with the card's id. */
  function WithCardId(actions: seq<Action>, id: JsValue): (r: seq<Action>)
    ensures |r| == |actions|
    ensures forall k | 0 <= k < |r| :: r[k] == actions[k].(cardId := Some(id))
  {
    seq(|actions|, k requires 0 <= k < |actions| => actions[k].(cardId := Some(id)))
  }

  /** `migrateCard` as a value, so the runner's proofs need not look inside it. */
  function Migrator(env: Env): Card -> Migration {
    c => MigrateCard(c, env)
  }

  /** The runner's step for one card. */
  function RunStep(s: RunState, card: Card, limit: int, migrate: Card -> Migration): RunState {
    var o := migrate(card);
    if !HasWork(o) then s.(cards := s.cards + [card])
    else if s.applied >= limit then s.(cards := s.cards + [card], candidates := s.candidates + 1)
    else
      RunState(
        s.cards + [if o.changed then o.card else card],
        s.applied + 1,
        s.changedCount + (if o.changed then 1 else 0),
        s.candidates + 1,
        s.actions + WithCardId(o.actions, card.id),
        s.fixes + (if o.changed then [Fix(card.id, o.reasons, SummarizeCard(card), SummarizeCard(o.card), o.actions)] else []))
  }

  /** The runner's state after the given cards. */
  function Run(cards: seq<Card>, limit: int, migrate: Card -> Migration): RunState {
    if |cards| == 0 then RunState([], 0, 0, 0, [], [])
    else RunStep(Run(cards[..|cards| - 1], limit, migrate), cards[|cards| - 1], limit, migrate)
  }

  /** The number of cards with work. */
  function Candidates(cards: seq<Card>, migrate: Card -> Migration): nat {
    if |cards| == 0 then 0
    else Candidates(cards[..|cards| - 1], migrate) + (if HasWork(migrate(cards[|cards| - 1])) then 1 else 0)
  }

  function Min(a: int, b: int): int {
    if a <= b then a else b
  }

  /** The card the runner returns at a position: migrated exactly when the card has work,
    * its migration changed it, and fewer than `limit` cards with work come before it. */
  function RunCard(cards: seq<Card>, j: nat, limit: int, migrate: Card -> Migration): Card
    requires j < |cards|
  {
    var o := migrate(cards[j]);
    if HasWork(o) && o.changed && Candidates(cards[..j], migrate) < limit then o.card else cards[j]
  }

  /** The runner returns one card per input card, migrates the first `limit` cards with work
    * and leaves every other card as it was, counts every card with work as a candidate,
    * applies `min(candidates, limit)` of them, and records one fix per changed card. */
  lemma {:induction false} RunShape(cards: seq<Card>, limit: int, migrate: Card -> Migration)
    requires limit >= 0
    ensures var s := Run(cards, limit, migrate);
      && |s.cards| == |cards|
      && (forall j | 0 <= j < |cards| :: s.cards[j] == RunCard(cards, j, limit, migrate))
      && s.candidates == Candidates(cards, migrate)
      && s.applied == Min(s.candidates, limit)
      && s.changedCount <= s.applied
      && |s.fixes| == s.changedCount
  {
    if |cards| > 0 {
      var init, last := cards[..|cards| - 1], cards[|cards| - 1];
      RunShape(init, limit, migrate);
      var s0 := Run(init, limit, migrate);
      var s := Run(cards, limit, migrate);
      assert s == RunStep(s0, last, limit, migrate);
      forall j | 0 <= j < |cards| ensures s.cards[j] == RunCard(cards, j, limit, migrate) {
        if j < |init| {
          assert cards[..j] == init[..j];
          assert cards[j] == init[j];
          assert s.cards[j] == s0.cards[j];
        } else {
          assert cards[..j] == init;
        }
      }
    }
  }

  lemma RunUnfold(cards: seq<Card>, i: nat, limit: int, migrate: Card -> Migration)
    requires i < |cards|
    ensures Run(cards[..i + 1], limit, migrate) == RunStep(Run(cards[..i], limit, migrate), cards[i], limit, migrate)
  {
    assert cards[..i + 1][..i] == cards[..i];
  }

  lemma WithCardIdAppend(actions: seq<Action>, k: nat, id: JsValue)
    requires k < |actions|
    ensures WithCardId(actions[..k + 1], id) == WithCardId(actions[..k], id) + [actions[k].(cardId := Some(id))]
  {
  }

  /** The result the runner builds from its final state. */
  function Finish(s: RunState, limit: int, show: JsValue -> string): RunResult {
    RunResult(s.cards, s.changedCount, s.applied, s.candidates,
      if s.candidates >= s.applied then s.candidates - s.applied else 0,
      DedupBy(s.actions, KeyOf(show)), s.fixes, limit)
  }

  /** The runner's inner loop: each action of a card, tagged with the card's id. */
  method TagActions(actions: seq<Action>, id: JsValue) returns (tagged: seq<Action>)
    ensures tagged == WithCardId(actions, id)
  {
    tagged := [];
    for k := 0 to |actions|
      invariant tagged == WithCardId(actions[..k], id)
    {
      WithCardIdAppend(actions, k, id);
      tagged := tagged + [actions[k].(cardId := Some(id))];
    }
    assert actions[..|actions|] == actions;
  }

  /** The runner's pass over the cards (the `cards.map` callback and its counters), for a
    * given migration function. */
  method MigrateAll(cards: seq<Card>, limit: int, migrate: Card -> Migration)
    returns (nextCards: seq<Card>, applied: nat, changedCount: nat, candidates: nat, actions: seq<Action>, fixes: seq<Fix>)
    ensures RunState(nextCards, applied, changedCount, candidates, actions, fixes) == Run(cards, limit, migrate)
  {
    nextCards, applied, changedCount, candidates, actions, fixes := [], 0, 0, 0, [], [];
    for i := 0 to |cards|
      invariant RunState(nextCards, applied, changedCount, candidates, actions, fixes) == Run(cards[..i], limit, migrate)
    {
      RunUnfold(cards, i, limit, migrate);
      var card := cards[i];
      ghost var after := RunStep(RunState(nextCards, applied, changedCount, candidates, actions, fixes), card, limit, migrate);
      var outcome := migrate(card);
      var hasWork := outcome.changed || |outcome.actions| > 0;
      if !hasWork {
        nextCards := nextCards + [card];
      } else {
        candidates := candidates + 1;
        if applied >= limit {
          nextCards := nextCards + [card];
        } else {
          applied := applied + 1;
          var nextCard := if outcome.changed then outcome.card else card;
          if outcome.changed {
            changedCount := changedCount + 1;
            fixes := fixes + [Fix(card.id, outcome.reasons, SummarizeCard(card), SummarizeCard(nextCard), outcome.actions)];
          }
          var tagged := TagActions(outcome.actions, card.id);
          actions := actions + tagged;
          nextCards := nextCards + [nextCard];
          assert nextCards == after.cards && actions == after.actions && fixes == after.fixes;
        }
      }
    }
    assert cards[..|cards|] == cards;
  }

  /** `runSelfHealMigration(cards, { limit })`. */
  method RunSelfHealMigration(cards: seq<Card>, limitOpt: JsValue, env: Env) returns (r: RunResult)
    ensures r == Finish(Run(cards, RunLimit(limitOpt), Migrator(env)), RunLimit(limitOpt), env.show)
    ensures |r.cards| == |cards| && r.limit == RunLimit(limitOpt)
    ensures r.appliedCount == Min(r.candidateCount, r.limit) && r.candidateCount == Candidates(cards, Migrator(env))
    ensures r.remainingCount == r.candidateCount - r.appliedCount
    ensures r.changedCount <= r.appliedCount && |r.fixes| == r.changedCount
    ensures DistinctKeys(r.actions, KeyOf(env.show))
  {
    var limit := RunLimit(limitOpt);
    var nextCards, applied, changedCount, candidates, actions, fixes := MigrateAll(cards, limit, Migrator(env));
    RunShape(cards, limit, Migrator(env));
    var deduped := DedupeActions(actions, env.show);
    DedupByShape(actions, KeyOf(env.show));
    r := RunResult(nextCards, changedCount, applied, candidates, if candidates >= applied then candidates - applied else 0, deduped, fixes, limit);
  }
}
