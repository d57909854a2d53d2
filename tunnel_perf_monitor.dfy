/**
 * Frame-time monitoring with hysteresis for the tunnel canvas. Rendering
 * quality steps down one tier after 3 consecutive frames slower than 16 ms and
 * steps back up one tier after 30 consecutive frames faster than 12 ms. The
 * last 10 frame times are kept in a ring. Every operation returns a new record.
 */
module TunnelPerfMonitor {
  import opened Wrappers

  /** Quality tiers in degradation order. */
  datatype QualityTier = Full | NoShadow | No3d | NoAnim

  const DegradeThresholdMs: real := 16.0
  const DegradeCount: nat := 3
  const RecoverThresholdMs: real := 12.0
  const RecoverCount: nat := 30
  const RingSize: nat := 10

  /** The position of a tier in `TIERS`. */
  function TierIndex(t: QualityTier): (i: nat)
    ensures i < 4
  {
    match t
    case Full => 0
    case NoShadow => 1
    case No3d => 2
    case NoAnim => 3
  }

  function TierAt(i: nat): (t: QualityTier)
    requires i < 4
    ensures TierIndex(t) == i
  {
    if i == 0 then Full else if i == 1 then NoShadow else if i == 2 then No3d else NoAnim
  }

  /** The tier's name as the source spells it. */
  function TierName(t: QualityTier): string {
    match t
    case Full => "full"
    case NoShadow => "no-shadow"
    case No3d => "no-3d"
    case NoAnim => "no-anim"
  }

  datatype PerfMonitor = PerfMonitor(
    tier: QualityTier,
    ring: seq<real>,
    ringIndex: nat,
    slowStreak: nat,
    fastStreak: nat)

  /** What every monitor built by `CreatePerfMonitor` and `RecordFrameTime` satisfies:
    * a ring of 10 entries, and no streak left at its threshold unless the tier
    * cannot move further in that direction. */
  predicate Valid(m: PerfMonitor) {
    && |m.ring| == RingSize
    && (m.slowStreak >= DegradeCount ==> m.tier == NoAnim)
    && (m.fastStreak >= RecoverCount ==> m.tier == Full)
  }

  /** `createPerfMonitor`: the given tier (default full), a zeroed ring of 10, no streaks. */
  function CreatePerfMonitor(initialTier: Option<QualityTier>): (m: PerfMonitor)
    ensures Valid(m)
    ensures m.tier == initialTier.GetOr(Full)
    ensures m.ringIndex == 0 && m.slowStreak == 0 && m.fastStreak == 0
    ensures forall k :: 0 <= k < |m.ring| ==> m.ring[k] == 0.0
  {
    PerfMonitor(initialTier.GetOr(Full), seq(RingSize, _ => 0.0), 0, 0, 0)
  }

  /** `recordFrameTime`: store the frame time, update the streaks, and move the tier
    * by at most one step. */
  function RecordFrameTime(m: PerfMonitor, deltaMs: real): (r: PerfMonitor)
    requires |m.ring| == RingSize
    ensures Valid(m) ==> Valid(r)
    // the frame time lands at ringIndex mod 10 and the index advances
    ensures |r.ring| == RingSize && r.ring == m.ring[m.ringIndex % RingSize := deltaMs]
    ensures r.ringIndex == m.ringIndex + 1
    // a slow frame: one more slow frame; the third one in a row steps down unless at no-anim
    ensures deltaMs > DegradeThresholdMs ==>
      r.fastStreak == 0 &&
      if m.slowStreak + 1 >= DegradeCount && m.tier != NoAnim
      then TierIndex(r.tier) == TierIndex(m.tier) + 1 && r.slowStreak == 0
      else r.tier == m.tier && r.slowStreak == m.slowStreak + 1
    // a fast frame: one more fast frame; the thirtieth in a row steps up unless at full
    ensures deltaMs < RecoverThresholdMs ==>
      r.slowStreak == 0 &&
      if m.fastStreak + 1 >= RecoverCount && m.tier != Full
      then TierIndex(r.tier) + 1 == TierIndex(m.tier) && r.fastStreak == 0
      else r.tier == m.tier && r.fastStreak == m.fastStreak + 1
    // a frame between the thresholds resets both streaks and keeps the tier
    ensures RecoverThresholdMs <= deltaMs <= DegradeThresholdMs ==>
      r.tier == m.tier && r.slowStreak == 0 && r.fastStreak == 0
  {
    var ring := m.ring[m.ringIndex % RingSize := deltaMs];
    var (slow, fast) :=
      if deltaMs > DegradeThresholdMs then (m.slowStreak + 1, 0)
      else if deltaMs < RecoverThresholdMs then (0, m.fastStreak + 1)
      else (0, 0);
    var (tier1, slow1, fast1) :=
      if slow >= DegradeCount && TierIndex(m.tier) < 3
      then (TierAt(TierIndex(m.tier) + 1), 0, 0)
      else (m.tier, slow, fast);
    var (tier2, slow2, fast2) :=
      if fast1 >= RecoverCount && TierIndex(tier1) > 0
      then (TierAt(TierIndex(tier1) - 1), 0, 0)
      else (tier1, slow1, fast1);
    PerfMonitor(tier2, ring, m.ringIndex + 1, slow2, fast2)
  }

  /** The monitor after recording each frame time of `deltas` in turn. */
  function Feed(m: PerfMonitor, deltas: seq<real>): (r: PerfMonitor)
    requires |m.ring| == RingSize
    ensures |r.ring| == RingSize
    decreases |deltas|
  {
    if |deltas| == 0 then m else Feed(RecordFrameTime(m, deltas[0]), deltas[1..])
  }

  predicate AllSlow(deltas: seq<real>) {
    forall k :: 0 <= k < |deltas| ==> deltas[k] > DegradeThresholdMs
  }

  predicate AllFast(deltas: seq<real>) {
    forall k :: 0 <= k < |deltas| ==> deltas[k] < RecoverThresholdMs
  }

  /** Three slow frames in a row, from no slow streak, step the tier down by exactly
    * one (and leave no-anim where it is); fewer than three leave it alone. */
  lemma ThreeSlowFramesDegrade(m: PerfMonitor, a: real, b: real, c: real)
    requires |m.ring| == RingSize && m.slowStreak == 0
    requires a > DegradeThresholdMs && b > DegradeThresholdMs && c > DegradeThresholdMs
    ensures Feed(m, [a, b]).tier == m.tier
    ensures m.tier != NoAnim ==>
      TierIndex(Feed(m, [a, b, c]).tier) == TierIndex(m.tier) + 1 && Feed(m, [a, b, c]).slowStreak == 0
    ensures m.tier == NoAnim ==> Feed(m, [a, b, c]).tier == NoAnim
  {
    var m1 := RecordFrameTime(m, a);
    var m2 := RecordFrameTime(m1, b);
    var m3 := RecordFrameTime(m2, c);
    assert [a, b][1..] == [b] && [b][1..] == [];
    assert Feed(m, [a, b]) == m2 by {
      assert Feed(m, [a, b]) == Feed(m1, [b]);
      assert Feed(m1, [b]) == Feed(m2, []);
    }
    assert [a, b, c][1..] == [b, c] && [b, c][1..] == [c] && [c][1..] == [];
    assert Feed(m, [a, b, c]) == m3 by {
      assert Feed(m, [a, b, c]) == Feed(m1, [b, c]);
      assert Feed(m1, [b, c]) == Feed(m2, [c]);
      assert Feed(m2, [c]) == Feed(m3, []);
    }
  }

  /** Fewer than 30 fast frames from no fast streak keep the tier and count up the streak. */
  lemma {:induction false} FastFramesAccumulate(m: PerfMonitor, deltas: seq<real>)
    requires |m.ring| == RingSize && m.fastStreak + |deltas| < RecoverCount
    requires AllFast(deltas)
    ensures Feed(m, deltas).tier == m.tier
    ensures Feed(m, deltas).fastStreak == m.fastStreak + |deltas|
    ensures |deltas| > 0 ==> Feed(m, deltas).slowStreak == 0
    decreases |deltas|
  {
    if |deltas| > 0 {
      FastFramesAccumulate(RecordFrameTime(m, deltas[0]), deltas[1..]);
    }
  }

  /** Thirty fast frames in a row, from no fast streak, step the tier up by exactly
    * one (and leave full where it is). */
  lemma ThirtyFastFramesRecover(m: PerfMonitor, deltas: seq<real>)
    requires |m.ring| == RingSize && m.fastStreak == 0
    requires |deltas| == RecoverCount && AllFast(deltas)
    ensures m.tier != Full ==> TierIndex(Feed(m, deltas).tier) + 1 == TierIndex(m.tier)
    ensures m.tier == Full ==> Feed(m, deltas).tier == Full
  {
    var first := deltas[..RecoverCount - 1];
    var last := deltas[RecoverCount - 1];
    FastFramesAccumulate(m, first);
    FeedAppend(m, first, last);
    assert first + [last] == deltas;
  }

  lemma {:induction false} FeedAppend(m: PerfMonitor, deltas: seq<real>, d: real)
    requires |m.ring| == RingSize
    ensures Feed(m, deltas + [d]) == RecordFrameTime(Feed(m, deltas), d)
    decreases |deltas|
  {
    if |deltas| == 0 {
      assert ([] + [d])[1..] == [];
      assert [] + [d] == [d];
    } else {
      FeedAppend(RecordFrameTime(m, deltas[0]), deltas[1..], d);
      assert (deltas + [d])[1..] == deltas[1..] + [d];
    }
  }

  /** `tierCssClass`: no class at full quality, `perf-<tier>` otherwise. */
  function TierCssClass(tier: QualityTier): (r: string)
    ensures r == "" <==> tier == Full
    ensures tier != Full ==> r == "perf-" + TierName(tier)
  {
    if tier == Full then "" else "perf-" + TierName(tier)
  }

  /** Distinct tiers get distinct CSS classes. */
  lemma TierCssClassInjective(a: QualityTier, b: QualityTier)
    requires TierCssClass(a) == TierCssClass(b)
    ensures a == b
  {
    if a != Full && b != Full {
      var ca, cb := TierCssClass(a), TierCssClass(b);
      assert ca[5..] == TierName(a) && cb[5..] == TierName(b);
      assert TierName(a)[3] == TierName(b)[3];
    }
  }
}
