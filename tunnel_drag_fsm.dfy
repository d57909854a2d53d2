/**
 * The drag / layout coordination state machine of the tunnel canvas.
 * A context records the state (idle, dragging, settling), whether automatic
 * layout is locked, whether a reset request is waiting for the drag to end,
 * and which card is being dragged. `Transition` is a pure function from a
 * context and an event to the next context.
 */
module TunnelDragFsm {
  import opened Wrappers

  datatype FsmState = Idle | Dragging | Settling

  datatype FsmEvent =
    | DragStart(cardId: string)
    | DragEnd(cardId: string)
    | SettleComplete
    | ResetRequest

  datatype FsmContext = FsmContext(
    state: FsmState,
    layoutLock: bool,
    pendingReset: bool,
    activeCardId: Option<string>)

  /** The invariant of every reachable context: layout is locked exactly while a
    * drag or its settling is under way, and a card is active exactly while dragging. */
  predicate Consistent(c: FsmContext) {
    && c.layoutLock == (c.state != Idle)
    && (c.activeCardId.Some? <==> c.state == Dragging)
  }

  /** Whether `e` does anything in state `s`; every other event is ignored. */
  predicate Accepts(s: FsmState, e: FsmEvent) {
    match s
    case Idle => e.DragStart? || e.ResetRequest?
    case Dragging => e.ResetRequest? || e.DragEnd?
    case Settling => e.SettleComplete? || e.DragStart?
  }

  /** `createFSMContext`: idle, unlocked, nothing pending, no active card. */
  function CreateFsmContext(): (c: FsmContext)
    ensures Consistent(c) && c.state == Idle && !c.pendingReset
  {
    FsmContext(Idle, false, false, None)
  }

  /** `transition`. */
  function Transition(c: FsmContext, e: FsmEvent): (r: FsmContext)
    // an ignored event returns the context unchanged
    ensures !Accepts(c.state, e) ==> r == c
    // the invariant is preserved
    ensures Consistent(c) ==> Consistent(r)
    // a drag start outside a drag always wins: dragging, locked, that card active
    ensures e.DragStart? && c.state != Dragging ==>
      r.state == Dragging && r.layoutLock && r.activeCardId == Some(e.cardId)
    // the lock is released only when settling completes
    ensures c.layoutLock && !r.layoutLock ==> c.state == Settling && e == SettleComplete
    // a reset is queued only by a reset request during a drag
    ensures !c.pendingReset && r.pendingReset ==> c.state == Dragging && e == ResetRequest
    // a queued reset is dropped only in the idle state (where it is carried out at once or a new drag begins)
    ensures c.pendingReset && !r.pendingReset ==> c.state == Idle
  {
    match c.state
    case Idle =>
      (match e
       case DragStart(id) => FsmContext(Dragging, true, false, Some(id))
       case ResetRequest => c.(pendingReset := false)
       case _ => c)
    case Dragging =>
      (match e
       case ResetRequest => c.(pendingReset := true)
       case DragEnd(_) => c.(state := Settling, activeCardId := None)
       case _ => c)
    case Settling =>
      (match e
       case SettleComplete => FsmContext(Idle, false, c.pendingReset, None)
       case DragStart(id) => FsmContext(Dragging, true, c.pendingReset, Some(id))
       case _ => c)
  }

  /** The context after feeding `events` one by one, starting from `c`. */
  function Run(c: FsmContext, events: seq<FsmEvent>): FsmContext
    decreases |events|
  {
    if |events| == 0 then c else Run(Transition(c, events[0]), events[1..])
  }

  /** Every context reachable from a consistent one is consistent; in particular,
    * in every reachable context the layout is locked exactly when the state is not idle. */
  lemma {:induction false} RunKeepsConsistent(c: FsmContext, events: seq<FsmEvent>)
    requires Consistent(c)
    ensures Consistent(Run(c, events))
    ensures Run(c, events).layoutLock <==> Run(c, events).state != Idle
    decreases |events|
  {
    if |events| > 0 {
      RunKeepsConsistent(Transition(c, events[0]), events[1..]);
    }
  }

  /** The contexts reachable from `createFSMContext` all keep the invariant. */
  lemma ReachableConsistent(events: seq<FsmEvent>)
    ensures Consistent(Run(CreateFsmContext(), events))
  {
    RunKeepsConsistent(CreateFsmContext(), events);
  }

  /** idle + DRAG_START: dragging, locked, nothing pending, the event's card active. */
  lemma IdleDragStart(c: FsmContext, id: string)
    requires c.state == Idle
    ensures Transition(c, DragStart(id)) == FsmContext(Dragging, true, false, Some(id))
  {
  }

  /** dragging + RESET_REQUEST queues a reset; any number of further requests
    * leave the same single pending reset. */
  lemma {:induction false} ResetRequestsCollapse(c: FsmContext, n: nat)
    requires c.state == Dragging
    ensures Run(c, seq(n + 1, _ => ResetRequest)) == c.(pendingReset := true)
    decreases n
  {
    var once := Transition(c, ResetRequest);
    assert once == c.(pendingReset := true);
    var rest := seq(n + 1, _ => ResetRequest)[1..];
    if n > 0 {
      ResetRequestsCollapse(once, n - 1);
      assert rest == seq(n, _ => ResetRequest);
      assert once.(pendingReset := true) == once;
    } else {
      assert rest == [];
    }
  }

  /** dragging + DRAG_END: settling, no active card, lock and pending reset kept. */
  lemma DraggingDragEnd(c: FsmContext, id: string)
    requires c.state == Dragging
    ensures Transition(c, DragEnd(id)) == c.(state := Settling, activeCardId := None)
  {
  }

  /** settling + SETTLE_COMPLETE: idle and unlocked, the pending reset survives. */
  lemma SettlingComplete(c: FsmContext)
    requires c.state == Settling
    ensures Transition(c, SettleComplete) == FsmContext(Idle, false, c.pendingReset, None)
  {
  }

  /** A reset requested during a drag is still pending once the drag has ended
    * and settled: the caller sees it in the idle context. */
  lemma ResetSurvivesDrag(c: FsmContext, other: string)
    requires c.state == Dragging
    ensures var r := Run(c, [ResetRequest, DragEnd(other), SettleComplete]);
      r.state == Idle && !r.layoutLock && r.pendingReset && r.activeCardId == None
  {
    var evs := [ResetRequest, DragEnd(other), SettleComplete];
    var c1 := Transition(c, ResetRequest);
    var c2 := Transition(c1, DragEnd(other));
    var c3 := Transition(c2, SettleComplete);
    assert evs[1..] == [DragEnd(other), SettleComplete];
    assert evs[1..][1..] == [SettleComplete];
    assert Run(c, evs) == Run(c1, evs[1..]);
    assert Run(c1, evs[1..]) == Run(c2, evs[1..][1..]);
    assert Run(c2, [SettleComplete]) == Run(c3, []);
  }
}
