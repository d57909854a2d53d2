/**
 * The embed-load watchdog: the load of an embedded player starts, and then
 * either completes or is declared timed out once it has been loading for the
 * timeout (7000 ms by default). Times are integer milliseconds supplied by the
 * caller. A state may be absent (`null` / `undefined` in the source), which is
 * `None` here.
 */
module EmbedWatchdog {
  import opened Wrappers

  const EmbedWatchdogTimeoutMs: int := 7000

  datatype EmbedStatus = Idle | Loading | Loaded | TimedOut

  datatype EmbedLoadState = EmbedLoadState(
    status: EmbedStatus,
    timeoutMs: int,
    startedAtMs: Option<int>,
    elapsedMs: int)

  /** `Number(t) || 7000`: a zero timeout falls back to the default. */
  function EffectiveTimeout(t: int): (r: int)
    ensures r != 0
    ensures t != 0 ==> r == t
  {
    if t == 0 then EmbedWatchdogTimeoutMs else t
  }

  /** `Number(state.startedAtMs) || nowMs`: a missing or zero start reads as now. */
  function StartOrNow(s: EmbedLoadState, nowMs: int): int {
    match s.startedAtMs
    case Some(t) => if t == 0 then nowMs else t
    case None => nowMs
  }

  function Max0(x: int): (r: int)
    ensures r >= 0 && r >= x && (r == 0 || r == x)
  {
    if x > 0 then x else 0
  }

  /** `createEmbedLoadState`: idle, no start time, nothing elapsed; the timeout is
    * the one given, or the default when none is given. */
  function CreateEmbedLoadState(timeoutMs: Option<int>): (s: EmbedLoadState)
    ensures s.status == Idle && s.startedAtMs == None && s.elapsedMs == 0
    ensures s.timeoutMs == timeoutMs.GetOr(EmbedWatchdogTimeoutMs)
  {
    EmbedLoadState(Idle, timeoutMs.GetOr(EmbedWatchdogTimeoutMs), None, 0)
  }

  /** `startEmbedLoad`: from any state, even none, a load that started now. */
  function StartEmbedLoad(state: Option<EmbedLoadState>, nowMs: int): (s: EmbedLoadState)
    ensures s.status == Loading && s.startedAtMs == Some(nowMs) && s.elapsedMs == 0
    ensures s.timeoutMs != 0
    ensures state.Some? && state.value.timeoutMs != 0 ==> s.timeoutMs == state.value.timeoutMs
    ensures state.None? ==> s.timeoutMs == EmbedWatchdogTimeoutMs
  {
    var t := match state case Some(st) => st.timeoutMs case None => 0;
    EmbedLoadState(Loading, EffectiveTimeout(t), Some(nowMs), 0)
  }

  /** The end of a load with the given final status: the elapsed time is
    * measured from the start (or from now, when there is none). */
  function Finish(s: EmbedLoadState, status: EmbedStatus, nowMs: int): (r: EmbedLoadState)
    ensures r.status == status && r.elapsedMs >= 0
    ensures r.timeoutMs == s.timeoutMs && r.startedAtMs == s.startedAtMs
  {
    s.(status := status, elapsedMs := Max0(nowMs - StartOrNow(s, nowMs)))
  }

  /** `completeEmbedLoad`: only a loading state changes, to loaded. */
  function CompleteEmbedLoad(state: Option<EmbedLoadState>, nowMs: int): (r: Option<EmbedLoadState>)
    ensures state.None? || state.value.status != Loading ==> r == state
    ensures state.Some? && state.value.status == Loading ==>
      r.Some? && r.value.status == Loaded && r.value.elapsedMs >= 0
      && r.value == state.value.(status := Loaded, elapsedMs := r.value.elapsedMs)
  {
    match state
    case Some(s) => if s.status != Loading then state else Some(Finish(s, Loaded, nowMs))
    case None => state
  }

  /** `timeoutEmbedLoad`: only a loading state changes, to timed out. */
  function TimeoutEmbedLoad(state: Option<EmbedLoadState>, nowMs: int): (r: Option<EmbedLoadState>)
    ensures state.None? || state.value.status != Loading ==> r == state
    ensures state.Some? && state.value.status == Loading ==>
      r.Some? && r.value.status == TimedOut && r.value.elapsedMs >= 0
      && r.value == state.value.(status := TimedOut, elapsedMs := r.value.elapsedMs)
  {
    match state
    case Some(s) => if s.status != Loading then state else Some(Finish(s, TimedOut, nowMs))
    case None => state
  }

  /** `isEmbedTimedOut`. A missing start time reads as 0 (`Number(null)`). */
  function IsEmbedTimedOut(state: Option<EmbedLoadState>, nowMs: int): (r: bool)
    ensures r ==> state.Some? && state.value.status == Loading
  {
    match state
    case None => false
    case Some(s) =>
      if s.status != Loading then false
      else
        var startedAtMs := s.startedAtMs.GetOr(0);
        nowMs - startedAtMs >= EffectiveTimeout(s.timeoutMs)
  }

  /** A load started at `t0` (a non-zero time) and completed at `t1` took
    * `max(0, t1 - t0)`; the same holds when it is timed out instead. */
  lemma ElapsedSinceStart(prev: Option<EmbedLoadState>, t0: int, t1: int)
    requires t0 != 0
    ensures var s := StartEmbedLoad(prev, t0);
      && CompleteEmbedLoad(Some(s), t1) == Some(s.(status := Loaded, elapsedMs := Max0(t1 - t0)))
      && TimeoutEmbedLoad(Some(s), t1) == Some(s.(status := TimedOut, elapsedMs := Max0(t1 - t0)))
  {
  }

  /** A started load is timed out exactly when the effective timeout has passed
    * since it started. */
  lemma TimedOutIffDeadlinePassed(prev: Option<EmbedLoadState>, t0: int, now: int)
    ensures var s := StartEmbedLoad(prev, t0);
      IsEmbedTimedOut(Some(s), now) <==> now - t0 >= s.timeoutMs
  {
  }

  /** Once timed out, a load stays timed out as time goes on. */
  lemma TimedOutMonotone(state: Option<EmbedLoadState>, now: int, later: int)
    requires now <= later && IsEmbedTimedOut(state, now)
    ensures IsEmbedTimedOut(state, later)
  {
  }

  /** Completed and timed-out loads are final: neither completion nor timeout
    * changes them, and they are never reported as timed out. */
  lemma FinishedIsFinal(state: Option<EmbedLoadState>, t1: int, t2: int)
    requires state.Some? && state.value.status == Loading
    ensures var done := CompleteEmbedLoad(state, t1);
      CompleteEmbedLoad(done, t2) == done && TimeoutEmbedLoad(done, t2) == done
      && !IsEmbedTimedOut(done, t2)
    ensures var gone := TimeoutEmbedLoad(state, t1);
      CompleteEmbedLoad(gone, t2) == gone && TimeoutEmbedLoad(gone, t2) == gone
      && !IsEmbedTimedOut(gone, t2)
  {
  }

  /** A load that was just started is not yet timed out when its timeout is positive. */
  lemma FreshLoadNotTimedOut(prev: Option<EmbedLoadState>, t0: int)
    requires StartEmbedLoad(prev, t0).timeoutMs > 0
    ensures !IsEmbedTimedOut(Some(StartEmbedLoad(prev, t0)), t0)
  {
  }
}
