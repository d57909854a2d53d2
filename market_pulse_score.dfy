/**
 * The market-pulse tool's rule-based score: keyword hits in the item's text
 * give pain, demand and urgency points, hitting several keyword categories
 * gives a frequency bonus, and the sum is scaled by the source's weight and
 * kept within 0..100. The configuration is a parameter.
 */
module MarketPulseScore {
  import opened Wrappers
  import opened Dedup
  import opened Text
  import opened MarketPulseNormalize

  /** The maximum points of each part of the score. */
  const PainMax := 40
  const DemandMax := 30
  const UrgencyMax := 20
  const FrequencyMax := 10

  datatype SourceConfig = SourceConfig(
    id: string,
    name: string,
    url: string,
    category: string,
    tags: seq<string>,
    weight: Option<real>)

  datatype Config = Config(
    sources: seq<SourceConfig>,
    painKeywords: seq<string>,
    demandKeywords: seq<string>,
    urgencyKeywords: seq<string>)

  datatype ScoreResult = ScoreResult(
    total: int,
    pain: int,
    demand: int,
    urgency: int,
    frequency: int,
    sourceWeight: real,
    matchedKeywords: seq<string>)

  // ---------------------------------------------------------------------------
  // countMatches
  // ---------------------------------------------------------------------------

  /** `text.toLowerCase().includes(kw.toLowerCase())`. */
  predicate Found(text: string, kw: string) {
    Contains(ToLower(text), ToLower(kw))
  }

  /** The keywords found in the text, in keyword order (repeats kept). */
  function Matches(text: string, keywords: seq<string>): (r: seq<string>)
    ensures |r| <= |keywords|
    ensures forall kw :: kw in r <==> kw in keywords && Found(text, kw)
  {
    if |keywords| == 0 then []
    else
      var init, last := keywords[..|keywords| - 1], keywords[|keywords| - 1];
      assert keywords == init + [last];
      Matches(text, init) + (if Found(text, last) then [last] else [])
  }

  /** `countMatches(text, keywords)`. */
  method CountMatches(text: string, keywords: seq<string>) returns (count: nat, matched: seq<string>)
    ensures matched == Matches(text, keywords)
    ensures count == |matched|
  {
    var lower := ToLower(text);
    matched := [];
    for i := 0 to |keywords|
      invariant matched == Matches(text, keywords[..i])
    {
      assert keywords[..i + 1][..i] == keywords[..i];
      if Contains(lower, ToLower(keywords[i])) {
        matched := matched + [keywords[i]];
      }
    }
    assert keywords[..|keywords|] == keywords;
    count := |matched|;
  }

  /** A keyword that occurs in the text as written is found. */
  lemma ContainedIsFound(text: string, kw: string)
    requires Contains(text, kw)
    ensures Found(text, kw)
  {
    var i :| 0 <= i <= |text| - |kw| && OccursAt(text, kw, i);
    assert ToLower(text)[i..i + |kw|] == ToLower(kw);
    assert OccursAt(ToLower(text), ToLower(kw), i);
  }

  /** The test ignores ASCII letter case on both sides. */
  lemma FoundIgnoresCase(t1: string, t2: string, k1: string, k2: string)
    requires ToLower(t1) == ToLower(t2) && ToLower(k1) == ToLower(k2)
    ensures Found(t1, k1) <==> Found(t2, k2)
  {
  }

  /** Texts equal up to ASCII letter case match the same keywords. */
  lemma {:induction false} MatchesIgnoresCase(t1: string, t2: string, keywords: seq<string>)
    requires ToLower(t1) == ToLower(t2)
    ensures Matches(t1, keywords) == Matches(t2, keywords)
  {
    if |keywords| > 0 {
      MatchesIgnoresCase(t1, t2, keywords[..|keywords| - 1]);
    }
  }

  // ---------------------------------------------------------------------------
  // clamp and Math.round
  // ---------------------------------------------------------------------------

  /** `clamp(val, min, max)`: `Math.min(max, Math.max(min, val))`. */
  function Clamp(v: int, lo: int, hi: int): (r: int)
    ensures lo <= hi ==> lo <= r <= hi
    ensures lo <= v <= hi ==> r == v
    ensures r <= hi && (r == v || r == lo || r == hi)
  {
    var m := if lo > v then lo else v;
    if hi < m then hi else m
  }

  /** `Math.round(x)`: the nearest integer, halves rounded up. */
  function Round(x: real): (r: int)
    ensures r as real - 0.5 <= x < r as real + 0.5
  {
    (x + 0.5).Floor
  }

  lemma RoundOfInt(n: int)
    ensures Round(n as real) == n
  {
  }

  // ---------------------------------------------------------------------------
  // [...new Set(list)]
  // ---------------------------------------------------------------------------

  /** A keyword is its own key in a `Set`. */
  function Keyword(kw: string): string {
    kw
  }

  /** `[...new Set(list)]`: the first occurrence of each string, in order, no string twice. */
  function Unique(list: seq<string>): (r: seq<string>)
    ensures DistinctKeys(r, Keyword)
    ensures forall x :: x in r <==> x in list
  {
    DedupByShape(list, Keyword);
    var r := DedupBy(list, Keyword);
    assert forall x :: x in r <==> Keyword(x) in Keys(r, Keyword) by {
      forall x ensures x in r <==> Keyword(x) in Keys(r, Keyword) {
        if x in r {
          var k :| 0 <= k < |r| && r[k] == x;
        }
      }
    }
    assert forall x :: x in list <==> Keyword(x) in Keys(list, Keyword) by {
      forall x ensures x in list <==> Keyword(x) in Keys(list, Keyword) {
        if x in list {
          var k :| 0 <= k < |list| && list[k] == x;
        }
      }
    }
    r
  }

  // ---------------------------------------------------------------------------
  // scoreItem
  // ---------------------------------------------------------------------------

  /** `config.sources.find((s) => s.id === item.source)`. */
  function FindSource(sources: seq<SourceConfig>, id: string): (r: Option<SourceConfig>)
    ensures r.Some? ==> r.value in sources && r.value.id == id
    ensures r.None? <==> forall k | 0 <= k < |sources| :: sources[k].id != id
  {
    if |sources| == 0 then None
    else if sources[0].id == id then Some(sources[0])
    else
      var r := FindSource(sources[1..], id);
      assert forall k | 1 <= k < |sources| :: sources[k] == sources[1..][k - 1];
      r
  }

  /** `source?.weight ?? 1.0`. */
  function SourceWeight(config: Config, item: Item): real {
    match FindSource(config.sources, item.source)
    case Some(s) => if s.weight.Some? then s.weight.value else 1.0
    case None => 1.0
  }

  /** `[title, summaryRaw, contentExcerpt].join(" ")`. */
  function FullText(item: Item): string {
    item.title + " " + item.summaryRaw + " " + item.contentExcerpt
  }

  function CategoriesHit(pain: nat, demand: nat, urgency: nat): (n: nat) {
    (if pain > 0 then 1 else 0) + (if demand > 0 then 1 else 0) + (if urgency > 0 then 1 else 0)
  }

  /** `clamp(Math.round(rawTotal * sourceWeight), 0, 100)`. */
  function Scaled(raw: int, weight: real): (r: int)
    ensures 0 <= r <= 100
  {
    Clamp(Round(raw as real * weight), 0, 100)
  }

  lemma ScaledUnit(raw: int)
    requires 0 <= raw <= 100
    ensures Scaled(raw, 1.0) == raw
  {
    RoundOfInt(raw);
  }

  lemma ScaledNonPositive(raw: int, weight: real)
    requires 0 <= raw && weight <= 0.0
    ensures Scaled(raw, weight) == 0
  {
    assert raw as real * weight <= 0.0;
  }

  /** `scoreItem(item)` with the configuration passed in. */
  function ScoreItem(item: Item, config: Config): (r: ScoreResult)
    ensures 0 <= r.pain <= PainMax && 0 <= r.demand <= DemandMax && 0 <= r.urgency <= UrgencyMax
    ensures 0 <= r.frequency <= FrequencyMax
    ensures 0 <= r.total <= 100
    ensures DistinctKeys(r.matchedKeywords, Keyword)
    ensures forall kw :: kw in r.matchedKeywords <==>
      Found(FullText(item), kw) && (kw in config.painKeywords || kw in config.demandKeywords || kw in config.urgencyKeywords)
  {
    var text := FullText(item);
    var weight := SourceWeight(config, item);
    var painHits := Matches(text, config.painKeywords);
    var demandHits := Matches(text, config.demandKeywords);
    var urgencyHits := Matches(text, config.urgencyKeywords);
    var painRaw := Clamp(|painHits| * 8, 0, PainMax);
    var demandRaw := Clamp(|demandHits| * 10, 0, DemandMax);
    var urgencyRaw := Clamp(|urgencyHits| * 10, 0, UrgencyMax);
    var hit: int := CategoriesHit(|painHits|, |demandHits|, |urgencyHits|);
    var frequencyRaw := Clamp(hit * 4 - 2, 0, FrequencyMax);
    var rawTotal := painRaw + demandRaw + urgencyRaw + (if frequencyRaw > 0 then frequencyRaw else 0);
    ScoreResult(
      Scaled(rawTotal, weight),
      Round(painRaw as real),
      Round(demandRaw as real),
      Round(urgencyRaw as real),
      var f := Round(frequencyRaw as real); if f > 0 then f else 0,
      weight,
      Unique(painHits + demandHits + urgencyHits))
  }

  /** Each keyword hit is worth 8 pain points, 10 demand points or 10 urgency points,
    * up to the category's maximum. */
  lemma ScoreItemParts(item: Item, config: Config)
    ensures var r := ScoreItem(item, config); var text := FullText(item);
      && r.pain == Clamp(8 * |Matches(text, config.painKeywords)|, 0, PainMax)
      && r.demand == Clamp(10 * |Matches(text, config.demandKeywords)|, 0, DemandMax)
      && r.urgency == Clamp(10 * |Matches(text, config.urgencyKeywords)|, 0, UrgencyMax)
  {
  }

  /** The frequency bonus is 0, 2, 6 or 10 for 0, 1, 2 or 3 categories hit. */
  lemma ScoreItemFrequency(item: Item, config: Config)
    ensures var r := ScoreItem(item, config); var text := FullText(item);
      var n := CategoriesHit(|Matches(text, config.painKeywords)|, |Matches(text, config.demandKeywords)|,
        |Matches(text, config.urgencyKeywords)|);
      r.frequency == (if n == 0 then 0 else if n == 1 then 2 else if n == 2 then 6 else 10)
  {
  }

  /** The total is the sum of the four parts, scaled by the source's weight. */
  lemma ScoreItemTotal(item: Item, config: Config)
    ensures var r := ScoreItem(item, config);
      r.total == Scaled(r.pain + r.demand + r.urgency + r.frequency, SourceWeight(config, item))
  {
    var r := ScoreItem(item, config);
    var text := FullText(item);
    var painRaw := Clamp(|Matches(text, config.painKeywords)| * 8, 0, PainMax);
    var demandRaw := Clamp(|Matches(text, config.demandKeywords)| * 10, 0, DemandMax);
    var urgencyRaw := Clamp(|Matches(text, config.urgencyKeywords)| * 10, 0, UrgencyMax);
    var hit: int := CategoriesHit(|Matches(text, config.painKeywords)|, |Matches(text, config.demandKeywords)|,
      |Matches(text, config.urgencyKeywords)|);
    var frequencyRaw := Clamp(hit * 4 - 2, 0, FrequencyMax);
    RoundOfInt(painRaw);
    RoundOfInt(demandRaw);
    RoundOfInt(urgencyRaw);
    RoundOfInt(frequencyRaw);
    assert r.pain == painRaw && r.demand == demandRaw && r.urgency == urgencyRaw && r.frequency == frequencyRaw;
  }

  /** With weight 1 (the default for a source without one) the total is the sum of
    * the four parts. */
  lemma ScoreItemUnitWeight(item: Item, config: Config)
    requires SourceWeight(config, item) == 1.0
    ensures var r := ScoreItem(item, config); r.total == r.pain + r.demand + r.urgency + r.frequency
  {
    var r := ScoreItem(item, config);
    ScoreItemTotal(item, config);
    ScaledUnit(r.pain + r.demand + r.urgency + r.frequency);
  }

  /** A source with weight 0 or less scores 0. */
  lemma ScoreItemNonPositiveWeight(item: Item, config: Config)
    requires SourceWeight(config, item) <= 0.0
    ensures ScoreItem(item, config).total == 0
  {
    var r := ScoreItem(item, config);
    ScoreItemTotal(item, config);
    ScaledNonPositive(r.pain + r.demand + r.urgency + r.frequency, SourceWeight(config, item));
  }

  /** A source that is not configured, or has no weight, is weighted 1. */
  lemma DefaultWeight(item: Item, config: Config)
    requires forall k | 0 <= k < |config.sources| :: config.sources[k].id == item.source ==> config.sources[k].weight.None?
    ensures SourceWeight(config, item) == 1.0
  {
    var s := FindSource(config.sources, item.source);
    if s.Some? {
      var k :| 0 <= k < |config.sources| && config.sources[k] == s.value;
    }
  }
}
