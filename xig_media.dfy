/**
 * The link-preview helpers for X (Twitter) and Instagram pages: recognising
 * their hosts, scoring an image URL by how likely it is to be the post's media
 * rather than an icon, and picking the best-scoring image candidate.
 * `String(v)` of a non-string is the parameter `show`; the WHATWG URL parser is
 * the parameter `hostOf`, which gives the hostname or None when `new URL` throws.
 */
module XigMedia {
  import opened Wrappers
  import opened Text
  import opened JsValue

  // ---------------------------------------------------------------------------
  // isXHost / isInstagramHost
  // ---------------------------------------------------------------------------

  /** `normalize(input)`: `String(input || "").trim()`. */
  function Normalize(input: JsValue, show: JsValue -> string): string {
    Trim(ToJsString(Or(input, Str("")), show))
  }

  /** `getHost(rawUrl)`: the lower-cased hostname, or "" when the URL does not parse. */
  function GetHost(raw: JsValue, show: JsValue -> string, hostOf: string -> Option<string>): string {
    match hostOf(ToJsString(raw, show))
    case Some(h) => ToLower(h)
    case None => ""
  }

  /** The host both predicates test: parsed from a URL when the text has "://",
    * otherwise the text itself, lower-cased. */
  function HostOf(raw: JsValue, show: JsValue -> string, hostOf: string -> Option<string>): string {
    var n := Normalize(raw, show);
    if Contains(n, "://") then GetHost(raw, show, hostOf) else ToLower(n)
  }

  predicate XHostName(host: string) {
    OnDomain(host, "x.com") || OnDomain(host, "twitter.com")
  }

  predicate InstagramHostName(host: string) {
    OnDomain(host, "instagram.com") || host == "instagr.am"
  }

  /** `isXHost(rawUrlOrHost)`. */
  predicate IsXHost(raw: JsValue, show: JsValue -> string, hostOf: string -> Option<string>) {
    XHostName(HostOf(raw, show, hostOf))
  }

  /** `isInstagramHost(rawUrlOrHost)`. */
  predicate IsInstagramHost(raw: JsValue, show: JsValue -> string, hostOf: string -> Option<string>) {
    InstagramHostName(HostOf(raw, show, hostOf))
  }

  /** Characters of a lower-case host name. */
  predicate IsHostChar(c: char) {
    ('a' <= c <= 'z') || ('0' <= c <= '9') || c == '-' || c == '.'
  }

  lemma HostCharsHaveNoScheme(h: string)
    requires forall k | 0 <= k < |h| :: IsHostChar(h[k])
    ensures !Contains(h, "://")
  {
    forall i | 0 <= i <= |h| - 3 ensures !OccursAt(h, "://", i) {
      assert IsHostChar(h[i]);
      assert h[i..i + 3][0] == h[i];
    }
  }

  lemma HostCharsAreTrimmedLower(h: string)
    requires forall k | 0 <= k < |h| :: IsHostChar(h[k])
    ensures Trim(h) == h && ToLower(h) == h
  {
    if h != [] {
      assert IsHostChar(h[0]) && IsHostChar(h[|h| - 1]);
    }
    TrimNoop(h);
  }

  /** A bare lower-case host is checked as written. */
  lemma BareHostIsItself(h: string, show: JsValue -> string, hostOf: string -> Option<string>)
    requires forall k | 0 <= k < |h| :: IsHostChar(h[k])
    ensures HostOf(Str(h), show, hostOf) == h
  {
    HostCharsAreTrimmedLower(h);
    HostCharsHaveNoScheme(h);
    assert ToJsString(Or(Str(h), Str("")), show) == h;
    assert Normalize(Str(h), show) == h;
  }

  /** A bare lower-case host is judged as written. */
  lemma BareHostJudgedAsWritten(h: string, show: JsValue -> string, hostOf: string -> Option<string>)
    requires forall k | 0 <= k < |h| :: IsHostChar(h[k])
    ensures IsXHost(Str(h), show, hostOf) <==> XHostName(h)
    ensures IsInstagramHost(Str(h), show, hostOf) <==> InstagramHostName(h)
  {
    BareHostIsItself(h, show, hostOf);
  }

  /** x.com, twitter.com and every subdomain of them are X host names; instagram.com
    * and its subdomains are Instagram host names. */
  lemma SubdomainsAreAccepted(sub: string)
    ensures XHostName(sub + ".x.com") && XHostName("x.com")
    ensures XHostName(sub + ".twitter.com") && XHostName("twitter.com")
    ensures InstagramHostName(sub + ".instagram.com") && InstagramHostName("instagram.com")
  {
    SubdomainIsOnDomain(sub, "x.com");
    SubdomainIsOnDomain(sub, "twitter.com");
    SubdomainIsOnDomain(sub, "instagram.com");
    assert sub + ".x.com" == sub + "." + "x.com";
    assert sub + ".twitter.com" == sub + "." + "twitter.com";
    assert sub + ".instagram.com" == sub + "." + "instagram.com";
  }

  /** A host that merely ends in "x.com" without a dot before it (such as
    * "evilx.com") is not an X host. */
  lemma LookalikeIsRejected(p: string)
    requires p != [] && p[|p| - 1] != '.'
    ensures !XHostName(p + "x.com")
  {
    var h := p + "x.com";
    assert h[|h| - 6] == p[|p| - 1];
    assert !EndsWith(h, ".x.com") by {
      assert |h| >= 6 && h[|h| - 6..][0] == h[|h| - 6];
    }
    assert !EndsWith(h, ".twitter.com") && h != "twitter.com" by {
      assert h[|h| - 5] == 'x';
      assert |h| < 12 || h[|h| - 12..][7] == h[|h| - 5];
      assert |h| != 11 || h[6] == h[|h| - 5];
    }
  }

  lemma EmptyHostIsRejected()
    ensures !XHostName("") && !InstagramHostName("")
  {
  }

  lemma UrlHost(u: string, show: JsValue -> string, hostOf: string -> Option<string>)
    requires Contains(Trim(u), "://")
    ensures HostOf(Str(u), show, hostOf) == GetHost(Str(u), show, hostOf)
  {
    assert |Trim(u)| >= 3;
    assert Or(Str(u), Str("")) == Str(u);
    assert Normalize(Str(u), show) == Trim(u);
  }

  /** A URL is judged by its parsed hostname; one that does not parse is neither an
    * X nor an Instagram URL. */
  lemma UrlIsJudgedByHostname(u: string, show: JsValue -> string, hostOf: string -> Option<string>)
    requires Contains(Trim(u), "://")
    ensures hostOf(u).None? ==> !IsXHost(Str(u), show, hostOf) && !IsInstagramHost(Str(u), show, hostOf)
    ensures hostOf(u).Some? ==>
      (IsXHost(Str(u), show, hostOf) <==> XHostName(ToLower(hostOf(u).value))) &&
      (IsInstagramHost(Str(u), show, hostOf) <==> InstagramHostName(ToLower(hostOf(u).value)))
  {
    UrlHost(u, show, hostOf);
    assert ToJsString(Str(u), show) == u;
    var host := HostOf(Str(u), show, hostOf);
    if hostOf(u).None? {
      assert host == "";
      EmptyHostIsRejected();
    } else {
      assert host == ToLower(hostOf(u).value);
    }
  }

  // ---------------------------------------------------------------------------
  // parseImageSizeHints / scoreImage
  // ---------------------------------------------------------------------------

  datatype SizeHint = Small | Icon | Normal

  /** The square sizes `NxN` that mark a thumbnail. */
  const SmallSizes: seq<string> := ["32", "48", "64", "72", "96", "120", "150", "180", "200"]

  /** The substrings that mark an icon. */
  const IconWords: seq<string> := ["1x1", "avatar", "profile_images", "emoji", "icon", "logo", "sprite", "favicon", "apple-touch-icon", "/svg/"]

  predicate IsSep(c: char) {
    c == '/' || c == '_' || c == '.' || c == '-'
  }

  /** `n + "x" + n` at `j`, followed by a separator or the end. */
  predicate SquareAt(low: string, j: int, n: string) {
    var t := n + "x" + n;
    0 <= j && j + |t| <= |low| && low[j..j + |t|] == t && (j + |t| == |low| || IsSep(low[j + |t|]))
  }

  /** A match of `(?:^|[\/_.-])(?:s|p)?(32|48|...|200)x\1(?:[\/_.-]|$)` whose
    * optional letter would start at `k`. */
  predicate SmallAt(low: string, k: int) {
    && 0 <= k <= |low|
    && (k == 0 || IsSep(low[k - 1]))
    && exists m | 0 <= m < |SmallSizes| ::
         SquareAt(low, k, SmallSizes[m]) || (k < |low| && (low[k] == 's' || low[k] == 'p') && SquareAt(low, k + 1, SmallSizes[m]))
  }

  predicate HasSmallSize(low: string) {
    exists k | 0 <= k <= |low| :: SmallAt(low, k)
  }

  predicate HasIconWord(low: string) {
    exists m | 0 <= m < |IconWords| :: Contains(low, IconWords[m])
  }

  /** `parseImageSizeHints(url)` on the lower-cased text. */
  function SizeHintOf(low: string): SizeHint {
    if HasSmallSize(low) then Small
    else if HasIconWord(low) then Icon
    else Normal
  }

  /** The points `scoreImage` adds for known media hosts and paths. */
  function MediaBonus(low: string): (b: int)
    ensures 0 <= b <= 31
  {
    (if Contains(low, "pbs.twimg.com/media/") then 10 else 0)
    + (if Contains(low, "cdninstagram.com") || Contains(low, "scontent") then 10 else 0)
    + (if Contains(low, "/ext_tw_video_thumb/") then 6 else 0)
    + (if Contains(low, "/ext_tw_video/") then 5 else 0)
  }

  /** `String(url || "").toLowerCase()`. */
  function LowText(url: JsValue, show: JsValue -> string): string {
    ToLower(ToJsString(Or(url, Str("")), show))
  }

  /** `scoreImage(url)`. */
  function ScoreImage(url: JsValue, show: JsValue -> string): int {
    var low := LowText(url, show);
    var hint := SizeHintOf(low);
    MediaBonus(low) - (if hint == Icon then 50 else if hint == Small then 20 else 0)
  }

  /** Icons lose 50 points and small images 20 from the media bonus (0..31), so an
    * icon always scores below 0 and a small image at most 11. */
  lemma ScoreImageRange(url: JsValue, show: JsValue -> string)
    ensures var low := LowText(url, show); var r := ScoreImage(url, show);
      && (SizeHintOf(low) == Icon ==> r == MediaBonus(low) - 50 && r < 0)
      && (SizeHintOf(low) == Small ==> r == MediaBonus(low) - 20 && r <= 11)
      && (SizeHintOf(low) == Normal ==> r == MediaBonus(low) && r >= 0)
  {
  }

  lemma SquareAtJoin(a: string, n: string, post: string)
    requires post == [] || IsSep(post[0])
    ensures SquareAt(a + (n + "x" + n) + post, |a|, n)
  {
    var t := n + "x" + n;
    var low := a + t + post;
    assert low[|a|..|a| + |t|] == t;
    if post != [] {
      assert low[|a| + |t|] == post[0];
    }
  }

  /** A square size between separators marks a thumbnail, with or without an `s` or
    * `p` before it, and wherever it appears in the path. */
  lemma SquareSizeIsSmall(pre: string, letter: string, m: nat, post: string)
    requires m < |SmallSizes|
    requires pre == [] || IsSep(pre[|pre| - 1])
    requires letter == [] || letter == "s" || letter == "p"
    requires post == [] || IsSep(post[0])
    ensures SizeHintOf(pre + letter + SmallSizes[m] + "x" + SmallSizes[m] + post) == Small
  {
    var n := SmallSizes[m];
    var low := pre + letter + n + "x" + n + post;
    var k := |pre|;
    var a := pre + letter;
    SquareAfter(a, n, post);
    if k > 0 {
      assert low[k - 1] == a[k - 1] == pre[k - 1];
    }
    if letter != [] {
      assert low[k] == a[k] == letter[0];
    }
    SmallWitness(low, k, m);
  }

  lemma SquareAfter(a: string, n: string, post: string)
    requires post == [] || IsSep(post[0])
    ensures SquareAt(a + n + "x" + n + post, |a|, n)
    ensures (a + n + "x" + n + post)[..|a|] == a
  {
    assert a + n + "x" + n + post == a + (n + "x" + n) + post;
    SquareAtJoin(a, n, post);
  }

  /** A square size at `k`, or one letter after it, behind a separator or the start. */
  lemma SmallWitness(low: string, k: nat, m: nat)
    requires k <= |low| && (k == 0 || IsSep(low[k - 1])) && m < |SmallSizes|
    requires SquareAt(low, k, SmallSizes[m]) || (k < |low| && (low[k] == 's' || low[k] == 'p') && SquareAt(low, k + 1, SmallSizes[m]))
    ensures SizeHintOf(low) == Small
  {
    assert SmallAt(low, k);
  }

  /** Every icon word marks an icon, unless a square size already marked the
    * image as small. */
  lemma IconWordIsIcon(low: string, m: nat)
    requires m < |IconWords| && Contains(low, IconWords[m]) && !HasSmallSize(low)
    ensures SizeHintOf(low) == Icon
  {
  }

  // ---------------------------------------------------------------------------
  // selectBestImageCandidate
  // ---------------------------------------------------------------------------

  /** `candidate?.url`. */
  function UrlOf(c: JsValue): JsValue {
    if c.Obj? && "url" in c.fields then c.fields["url"] else Undefined
  }

  function CandidateScore(c: JsValue, show: JsValue -> string): int {
    ScoreImage(UrlOf(c), show)
  }

  /** `candidate?.url` is truthy: the loop looks at this candidate. */
  predicate HasUrl(c: JsValue) {
    Truthy(UrlOf(c))
  }

  /** The index the loop keeps, given each candidate's score and whether it has a
    * URL: the first candidate with a URL and the highest score. */
  function BestIndex(scores: seq<int>, present: seq<bool>): (r: Option<nat>)
    requires |scores| == |present|
    ensures r.None? <==> forall j | 0 <= j < |present| :: !present[j]
    ensures r.Some? ==> r.value < |present| && present[r.value]
    ensures r.Some? ==> forall j | 0 <= j < |scores| && present[j] :: scores[j] <= scores[r.value]
    ensures r.Some? ==> forall j | 0 <= j < r.value && present[j] :: scores[j] < scores[r.value]
  {
    if |scores| == 0 then None
    else
      var n := |scores| - 1;
      var b := BestIndex(scores[..n], present[..n]);
      if !present[n] then b
      else if b.None? || scores[n] > scores[b.value] then Some(n)
      else b
  }

  function Scores(cands: seq<JsValue>, show: JsValue -> string): (r: seq<int>)
    ensures |r| == |cands| && forall j | 0 <= j < |cands| :: r[j] == CandidateScore(cands[j], show)
  {
    seq(|cands|, j requires 0 <= j < |cands| => CandidateScore(cands[j], show))
  }

  function Present(cands: seq<JsValue>): (r: seq<bool>)
    ensures |r| == |cands| && forall j | 0 <= j < |cands| :: r[j] == HasUrl(cands[j])
  {
    seq(|cands|, j requires 0 <= j < |cands| => HasUrl(cands[j]))
  }

  /** `selectBestImageCandidate(candidates)` as a value. */
  function SelectBest(candidates: JsValue, show: JsValue -> string): Option<JsValue> {
    if !candidates.Arr? || |candidates.elems| == 0 then None
    else
      var cands := candidates.elems;
      match BestIndex(Scores(cands, show), Present(cands))
      case None => None
      case Some(k) =>
        if CandidateScore(cands[k], show) > 0 then Some(UrlOf(cands[k])) else None
  }

  /** One more candidate: the loop's step on `best`. */
  lemma BestIndexStep(scores: seq<int>, present: seq<bool>, i: nat)
    requires |scores| == |present| && i < |scores|
    ensures var b := BestIndex(scores[..i], present[..i]);
      BestIndex(scores[..i + 1], present[..i + 1]) ==
        if !present[i] then b else if b.None? || scores[i] > scores[b.value] then Some(i) else b
  {
    assert scores[..i + 1][..i] == scores[..i];
    assert present[..i + 1][..i] == present[..i];
  }

  /** `selectBestImageCandidate(candidates)`. */
  method SelectBestImageCandidate(candidates: JsValue, show: JsValue -> string) returns (r: Option<JsValue>)
    ensures r == SelectBest(candidates, show)
    ensures !candidates.Arr? || |candidates.elems| == 0 ==> r.None?
  {
    if !candidates.Arr? || |candidates.elems| == 0 {
      return None;
    }
    var cands := candidates.elems;
    ghost var scores, present := Scores(cands, show), Present(cands);
    var best: Option<nat> := None;
    var bestScore := 0;
    for i := 0 to |cands|
      invariant best == BestIndex(scores[..i], present[..i])
      invariant best.Some? ==> best.value < i && bestScore == scores[best.value]
    {
      BestIndexStep(scores, present, i);
      var url := UrlOf(cands[i]);
      if !Truthy(url) {
        continue;
      }
      var score := ScoreImage(url, show);
      assert present[i] && score == scores[i];
      if best.None? || score > bestScore {
        best := Some(i);
        bestScore := score;
      }
    }
    assert scores[..|cands|] == scores;
    assert present[..|cands|] == present;
    if best.None? {
      return None;
    }
    r := if bestScore > 0 then Some(UrlOf(cands[best.value])) else None;
  }

  /** The chosen URL belongs to a candidate whose score is positive, is not beaten by
    * any candidate, and beats every earlier one; an icon is never chosen. */
  lemma SelectedIsBest(candidates: JsValue, show: JsValue -> string)
    requires SelectBest(candidates, show).Some?
    ensures var u := SelectBest(candidates, show).value;
      && candidates.Arr?
      && Truthy(u)
      && ScoreImage(u, show) > 0
      && SizeHintOf(LowText(u, show)) != Icon
      && (exists k | 0 <= k < |candidates.elems| ::
            && u == UrlOf(candidates.elems[k])
            && (forall j | 0 <= j < k && HasUrl(candidates.elems[j]) ::
                  CandidateScore(candidates.elems[j], show) < ScoreImage(u, show)))
      && (forall j | 0 <= j < |candidates.elems| && HasUrl(candidates.elems[j]) ::
           CandidateScore(candidates.elems[j], show) <= ScoreImage(u, show))
  {
    var cands := candidates.elems;
    var k := BestIndex(Scores(cands, show), Present(cands)).value;
    assert SelectBest(candidates, show).value == UrlOf(cands[k]);
    ScoreImageRange(UrlOf(cands[k]), show);
  }

  /** When every candidate scores 0 or less (for instance, all are icons), nothing is chosen. */
  lemma NoPositiveScoreSelectsNothing(candidates: JsValue, show: JsValue -> string)
    requires candidates.Arr?
    requires forall j | 0 <= j < |candidates.elems| :: CandidateScore(candidates.elems[j], show) <= 0
    ensures SelectBest(candidates, show).None?
  {
  }
}
