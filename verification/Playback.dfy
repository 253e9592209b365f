/**
  A leased machine and the playing of pad bursts on it
  (crates/orch-fakes/src/hypervisor.rs, crates/orch-sched/src/driver.rs).

  The guest is any state type with any step function; the grid world is one.
 */
module Playback {
  import opened Base

  const ICOUNT_PER_FRAME := 1_000
  const VNS_PER_FRAME := 16_666_667

  datatype Action = Wait | Up | Down | Left | Right | Attack

  datatype ScheduleAt = AtIcount(icount: u64) | AtVns(vns: u64) | AtFrame(frame: u32)

  datatype InputEvent = PadSet(port: u32, buttons: u32) | DeviceEvent(payload: seq<nat>) | NetRx(bytes: seq<nat>)

  datatype ScheduledEvent = ScheduledEvent(at: ScheduleAt, event: InputEvent)

  datatype Pending = Pending(atFrame: u32, order: u64, action: Action)

  datatype Machine<S> = Machine(state: S, icount: u64, frame: u32, vns: u64, pending: seq<Pending>,
                                inputLog: seq<ScheduledEvent>, nextOrder: u64)

  datatype StopReason = BudgetReached | GoalSatisfied | NextSdkEvent | HardCap

  datatype Failure = InvalidRequest | ResourceExhausted | NotFound | FailedPrecondition | Internal

  datatype Segment = Segment(buttons: u32, hold: u32)

  /** The guest's behaviour. */
  type Step<!S> = (S, Action) -> S

  function ApplyActions<S>(step: Step<S>, state: S, actions: seq<Action>): S {
    if actions == [] then state
    else step(ApplyActions(step, state, actions[..|actions| - 1]), actions[|actions| - 1])
  }

  predicate Pressed(buttons: u32, bit: u32)
    requires 0 < bit
  {
    (buttons / bit) % 2 == 1
  }

  function ButtonsToAction(buttons: u32): Action {
    if Pressed(buttons, 0x200) then Right
    else if Pressed(buttons, 0x100) then Left
    else if Pressed(buttons, 0x40) then Up
    else if Pressed(buttons, 0x80) then Down
    else if Pressed(buttons, 0x1) || Pressed(buttons, 0x2) || Pressed(buttons, 0x8) then Attack
    else Wait
  }

  function EventToAction(e: InputEvent): Action {
    if e.PadSet? then ButtonsToAction(e.buttons) else Wait
  }

  function EventFrame(e: ScheduledEvent): u32 {
    match e.at
    case AtFrame(frame) => frame
    case AtIcount(icount) => Min(icount / ICOUNT_PER_FRAME, U32_MAX)
    case AtVns(vns) => Min(vns / VNS_PER_FRAME, U32_MAX)
  }

  predicate InFuture<S>(m: Machine<S>, e: ScheduledEvent) {
    match e.at
    case AtFrame(frame) => frame > m.frame
    case AtIcount(icount) => icount > m.icount
    case AtVns(vns) => vns > m.vns
  }

  // ------------------------------------------------------------------
  // Pending actions, ordered by frame and then by arrival
  // ------------------------------------------------------------------

  predicate NotAfter(p: Pending, q: Pending) {
    p.atFrame < q.atFrame || (p.atFrame == q.atFrame && p.order <= q.order)
  }

  predicate InOrder(s: seq<Pending>) {
    forall i, j :: 0 <= i < j < |s| ==> NotAfter(s[i], s[j])
  }

  function InsertInOrder(s: seq<Pending>, p: Pending): seq<Pending> {
    if s == [] || NotAfter(s[|s| - 1], p) then s + [p]
    else InsertInOrder(s[..|s| - 1], p) + [s[|s| - 1]]
  }

  /** A stable sort by frame and arrival order. */
  function SortPending(s: seq<Pending>): seq<Pending> {
    if s == [] then [] else InsertInOrder(SortPending(s[..|s| - 1]), s[|s| - 1])
  }

  lemma {:induction false} AppendKeepsOrder(front: seq<Pending>, p: Pending, r: seq<Pending>, last: Pending)
    requires InOrder(r) && multiset(r) == multiset(front) + multiset{p}
    requires NotAfter(p, last) && forall i :: 0 <= i < |front| ==> NotAfter(front[i], last)
    ensures InOrder(r + [last])
  {
    forall i | 0 <= i < |r| ensures NotAfter(r[i], last) {
      assert r[i] in multiset(r);
      assert r[i] == p || r[i] in front;
    }
  }

  lemma {:induction false} InsertKeepsOrder(s: seq<Pending>, p: Pending)
    requires InOrder(s)
    ensures var r := InsertInOrder(s, p); InOrder(r) && multiset(r) == multiset(s) + multiset{p}
  {
    if s != [] && !NotAfter(s[|s| - 1], p) {
      var front, last := s[..|s| - 1], s[|s| - 1];
      InsertKeepsOrder(front, p);
      assert s == front + [last];
      AppendKeepsOrder(front, p, InsertInOrder(front, p), last);
    }
  }

  lemma {:induction false} SortPendingSorts(s: seq<Pending>)
    ensures var r := SortPending(s); InOrder(r) && multiset(r) == multiset(s)
  {
    if s == [] {
    } else {
      SortPendingSorts(s[..|s| - 1]);
      InsertKeepsOrder(SortPending(s[..|s| - 1]), s[|s| - 1]);
      assert s == s[..|s| - 1] + [s[|s| - 1]];
    }
  }

  lemma {:induction false} InsertLast(s: seq<Pending>, p: Pending)
    requires s == [] || NotAfter(s[|s| - 1], p)
    ensures InsertInOrder(s, p) == s + [p]
  {
  }

  lemma {:induction false} SortedStays(s: seq<Pending>)
    requires InOrder(s)
    ensures SortPending(s) == s
  {
    if s == [] {
    } else {
      var front, last := s[..|s| - 1], s[|s| - 1];
      SortedStays(front);
      assert SortPending(s) == front + [last] by { InsertLast(front, last); }
    }
  }

  function DueBy(s: seq<Pending>, end: u32): seq<Pending> {
    if s == [] then []
    else
      var last := s[|s| - 1];
      DueBy(s[..|s| - 1], end) + if last.atFrame <= end then [last] else []
  }

  function DueAfter(s: seq<Pending>, end: u32): seq<Pending> {
    if s == [] then []
    else
      var last := s[|s| - 1];
      DueAfter(s[..|s| - 1], end) + if last.atFrame <= end then [] else [last]
  }

  lemma {:induction false} CutLast<T>(s: seq<T>, k: nat)
    requires k < |s|
    ensures s[..|s| - 1][..k] == s[..k] && s[k..] == s[..|s| - 1][k..] + [s[|s| - 1]]
  {
    var front := s[..|s| - 1];
    assert front[..k] == s[..k];
    assert s == front + [s[|s| - 1]];
    assert s[k..] == front[k..] + [s[|s| - 1]];
  }

  lemma {:induction false} AllDue(s: seq<Pending>, end: u32)
    requires forall i :: 0 <= i < |s| ==> s[i].atFrame <= end
    ensures DueBy(s, end) == s && DueAfter(s, end) == []
  {
    if s == [] {
    } else {
      var front, last := s[..|s| - 1], s[|s| - 1];
      AllDue(front, end);
      CutLast(s, 0);
      assert last.atFrame <= end;
      assert DueBy(s, end) == front + [last] == s;
    }
  }

  /** When the frames rise the due actions are a prefix. */
  lemma {:induction false} DueIsPrefix(s: seq<Pending>, end: u32, k: nat)
    requires k <= |s|
    requires forall i :: 0 <= i < |s| ==> (s[i].atFrame <= end <==> i < k)
    ensures DueBy(s, end) == s[..k] && DueAfter(s, end) == s[k..]
  {
    if k == |s| {
      AllDue(s, end);
    } else {
      DueIsPrefix(s[..|s| - 1], end, k);
      CutLast(s, k);
    }
  }

  function ActionsOf(s: seq<Pending>): seq<Action> {
    if s == [] then [] else ActionsOf(s[..|s| - 1]) + [s[|s| - 1].action]
  }

  /** Splits the pending list at `end`; what is due comes back in order. */
  method DrainDueActions(pending: seq<Pending>, end: u32) returns (due: seq<Pending>, remaining: seq<Pending>)
    ensures due == SortPending(DueBy(pending, end)) && remaining == DueAfter(pending, end)
  {
    due, remaining := [], [];
    for k := 0 to |pending|
      invariant due == DueBy(pending[..k], end) && remaining == DueAfter(pending[..k], end)
    {
      assert pending[..k + 1][..k] == pending[..k];
      if pending[k].atFrame <= end { due := due + [pending[k]]; } else { remaining := remaining + [pending[k]]; }
    }
    assert pending[..|pending|] == pending;
    due := SortPending(due);
  }

  // ------------------------------------------------------------------
  // Injecting
  // ------------------------------------------------------------------

  /** The machine once each event has been logged and queued, before the queue is sorted. */
  function Queued<S>(m: Machine<S>, events: seq<ScheduledEvent>): (r: Machine<S>)
    requires m.nextOrder + |events| <= U64_MAX
    ensures r.nextOrder == m.nextOrder + |events|
  {
    if events == [] then m
    else
      var e := events[|events| - 1];
      var q := Queued(m, events[..|events| - 1]);
      q.(pending := q.pending + [Pending(EventFrame(e), q.nextOrder, EventToAction(e.event))],
         inputLog := q.inputLog + [e],
         nextOrder := q.nextOrder + 1)
  }

  predicate Injectable<S>(m: Machine<S>, events: seq<ScheduledEvent>) {
    |events| <= U32_MAX && forall i :: 0 <= i < |events| ==> InFuture(m, events[i])
  }

  /** The machine after the request, and whether it was taken whole. */
  function Injected<S>(m: Machine<S>, events: seq<ScheduledEvent>): (Machine<S>, Result<u32, Failure>) {
    if !Injectable(m, events) then (m, Err(InvalidRequest))
    else if m.nextOrder + |events| > U64_MAX then (Queued(m, events[..U64_MAX - m.nextOrder]), Err(Internal))
    else
      var q := Queued(m, events);
      (q.(pending := SortPending(q.pending)), Ok(|events|))
  }

  method InjectInputs<S>(m: Machine<S>, events: seq<ScheduledEvent>) returns (r: Machine<S>,
                         reply: Result<u32, Failure>)
    ensures (r, reply) == Injected(m, events)
  {
    if |events| > U32_MAX { return m, Err(InvalidRequest); }
    for k := 0 to |events|
      invariant forall i :: 0 <= i < k ==> InFuture(m, events[i])
    {
      if !InFuture(m, events[k]) { return m, Err(InvalidRequest); }
    }
    r := m;
    for k := 0 to |events|
      invariant m.nextOrder + k <= U64_MAX && r == Queued(m, events[..k])
    {
      if r.nextOrder == U64_MAX { return r, Err(Internal); }
      assert events[..k + 1][..k] == events[..k];
      r := r.(pending := r.pending + [Pending(EventFrame(events[k]), r.nextOrder, EventToAction(events[k].event))],
              inputLog := r.inputLog + [events[k]],
              nextOrder := r.nextOrder + 1);
    }
    assert events[..|events|] == events;
    return r.(pending := SortPending(r.pending)), Ok(|events|);
  }

  // ------------------------------------------------------------------
  // Running
  // ------------------------------------------------------------------

  /** How many whole frames the instruction cap leaves. */
  function FramesWithin(icount: u64, requested: u32, cap: Option<u64>): (r: (u32, StopReason))
    ensures r.0 <= requested
    ensures r.1 == BudgetReached <==>
              (cap.None? || (icount < cap.value && icount + requested * ICOUNT_PER_FRAME <= cap.value))
    ensures r.1 == BudgetReached ==> r.0 == requested
    ensures r.1 == HardCap ==>
              if cap.value <= icount then r.0 == 0
              else icount + r.0 * ICOUNT_PER_FRAME <= cap.value < icount + (r.0 + 1) * ICOUNT_PER_FRAME
  {
    match cap
    case None => (requested, BudgetReached)
    case Some(limit) =>
      if limit <= icount then (0, HardCap)
      else if requested * ICOUNT_PER_FRAME > limit - icount then ((limit - icount) / ICOUNT_PER_FRAME, HardCap)
      else (requested, BudgetReached)
  }

  function Played<S>(step: Step<S>, m: Machine<S>, end: u32): Machine<S> {
    m.(state := ApplyActions(step, m.state, ActionsOf(SortPending(DueBy(m.pending, end)))),
       pending := DueAfter(m.pending, end),
       frame := end)
  }

  /** An overflow is noticed late: what was done before it stays done. */
  function AdvancedBy<S>(step: Step<S>, m: Machine<S>, frames: u32): (Machine<S>, Result<u32, Failure>) {
    if m.frame + frames > U32_MAX then (m, Err(Internal))
    else
      var p := Played(step, m, m.frame + frames);
      if m.icount + frames * ICOUNT_PER_FRAME > U64_MAX then (p, Err(Internal))
      else
        var q := p.(icount := m.icount + frames * ICOUNT_PER_FRAME);
        if m.vns + frames * VNS_PER_FRAME > U64_MAX then (q, Err(Internal))
        else (q.(vns := m.vns + frames * VNS_PER_FRAME), Ok(frames))
  }

  lemma {:induction false} ApplyOneMore<S>(step: Step<S>, state: S, due: seq<Pending>, k: nat)
    requires k < |due|
    ensures ApplyActions(step, state, ActionsOf(due[..k + 1]))
         == step(ApplyActions(step, state, ActionsOf(due[..k])), due[k].action)
  {
    assert due[..k + 1][..k] == due[..k];
    var actions := ActionsOf(due[..k]);
    assert (actions + [due[k].action])[..|actions|] == actions;
  }

  method PlayDue<S>(step: Step<S>, m: Machine<S>, end: u32) returns (r: Machine<S>)
    ensures r == Played(step, m, end)
  {
    var due, remaining := DrainDueActions(m.pending, end);
    var state := m.state;
    for k := 0 to |due|
      invariant state == ApplyActions(step, m.state, ActionsOf(due[..k]))
    {
      ApplyOneMore(step, m.state, due, k);
      state := step(state, due[k].action);
    }
    assert due[..|due|] == due;
    r := m.(state := state, pending := remaining, frame := end);
  }

  method AdvanceFrames<S>(step: Step<S>, m: Machine<S>, requested: u32, cap: Option<u64>)
    returns (r: Machine<S>, reply: Result<(u32, StopReason), Failure>)
    ensures var (frames, reason) := FramesWithin(m.icount, requested, cap);
            var (after, outcome) := AdvancedBy(step, m, frames);
            && r == after
            && reply == (if outcome.Ok? then Ok((frames, reason)) else Err(Internal))
  {
    var (frames, reason) := FramesWithin(m.icount, requested, cap);
    r := m;
    if r.frame + frames > U32_MAX { return r, Err(Internal); }
    r := PlayDue(step, r, r.frame + frames);
    if r.icount + frames * ICOUNT_PER_FRAME > U64_MAX { return r, Err(Internal); }
    r := r.(icount := r.icount + frames * ICOUNT_PER_FRAME);
    if r.vns + frames * VNS_PER_FRAME > U64_MAX { return r, Err(Internal); }
    r := r.(vns := r.vns + frames * VNS_PER_FRAME);
    return r, Ok((frames, reason));
  }

  // ------------------------------------------------------------------
  // Bursts
  // ------------------------------------------------------------------

  function TotalHold(segments: seq<Segment>): nat {
    if segments == [] then 0 else TotalHold(segments[..|segments| - 1]) + segments[|segments| - 1].hold
  }

  function SegmentActions(segments: seq<Segment>): seq<Action> {
    if segments == [] then []
    else SegmentActions(segments[..|segments| - 1]) + [ButtonsToAction(segments[|segments| - 1].buttons)]
  }

  /** Each segment starts where the segments before it end, one frame past the parent. */
  function StartFrame(segments: seq<Segment>, parentFrame: u32, i: nat): u32
    requires i <= |segments|
  {
    Min(parentFrame + 1 + TotalHold(segments[..i]), U32_MAX)
  }

  function BurstSchedule(segments: seq<Segment>, parentFrame: u32): (r: seq<ScheduledEvent>)
    ensures |r| == |segments|
  {
    if segments == [] then []
    else
      var n := |segments| - 1;
      BurstSchedule(segments[..n], parentFrame)
      + [ScheduledEvent(AtFrame(StartFrame(segments, parentFrame, n)), PadSet(0, segments[n].buttons))]
  }

  method BurstEvents(segments: seq<Segment>, parentFrame: u32)
    returns (r: Result<(seq<ScheduledEvent>, u32), Failure>)
    ensures r.Ok? <==> TotalHold(segments) > 0
    ensures r.Ok? ==> r.value == (BurstSchedule(segments, parentFrame), Min(TotalHold(segments), U32_MAX))
    ensures r.Err? ==> r.error == InvalidRequest
  {
    if segments == [] { return Err(InvalidRequest); }
    var base := Min(parentFrame + 1, U32_MAX);
    var offset: u32 := 0;
    var events := [];
    for k := 0 to |segments|
      invariant offset == Min(TotalHold(segments[..k]), U32_MAX)
      invariant events == BurstSchedule(segments[..k], parentFrame)
    {
      assert segments[..k + 1][..k] == segments[..k];
      events := events + [ScheduledEvent(AtFrame(Min(base + offset, U32_MAX)), PadSet(0, segments[k].buttons))];
      offset := Min(offset + segments[k].hold, U32_MAX);
    }
    assert segments[..|segments|] == segments;
    if offset == 0 { return Err(InvalidRequest); }
    return Ok((events, offset));
  }

  lemma {:induction false} ScheduleAtIndex(segments: seq<Segment>, parentFrame: u32, i: nat)
    requires i < |segments|
    ensures BurstSchedule(segments, parentFrame)[i]
         == ScheduledEvent(AtFrame(StartFrame(segments, parentFrame, i)), PadSet(0, segments[i].buttons))
  {
    var n := |segments| - 1;
    if i < n {
      ScheduleAtIndex(segments[..n], parentFrame, i);
      assert segments[..n][..i] == segments[..i];
    }
  }

  lemma {:induction false} TotalHoldGrows(segments: seq<Segment>, i: nat, j: nat)
    requires i <= j <= |segments|
    ensures TotalHold(segments[..i]) <= TotalHold(segments[..j])
  {
    if i < j {
      TotalHoldGrows(segments, i, j - 1);
      assert segments[..j][..j - 1] == segments[..j - 1];
    }
  }

  /** The queue a burst leaves on a machine with nothing pending. */
  function BurstQueue(segments: seq<Segment>, parentFrame: u32, order: u64): (r: seq<Pending>)
    requires order + |segments| <= U64_MAX
    ensures |r| == |segments|
  {
    if segments == [] then []
    else
      var n := |segments| - 1;
      BurstQueue(segments[..n], parentFrame, order)
      + [Pending(StartFrame(segments, parentFrame, n), order + n, ButtonsToAction(segments[n].buttons))]
  }

  lemma {:induction false} QueueAtIndex(segments: seq<Segment>, parentFrame: u32, order: u64, i: nat)
    requires order + |segments| <= U64_MAX && i < |segments|
    ensures BurstQueue(segments, parentFrame, order)[i]
         == Pending(StartFrame(segments, parentFrame, i), order + i, ButtonsToAction(segments[i].buttons))
  {
    var n := |segments| - 1;
    if i < n {
      QueueAtIndex(segments[..n], parentFrame, order, i);
      assert segments[..n][..i] == segments[..i];
    }
  }

  lemma {:induction false} QueueInOrder(segments: seq<Segment>, parentFrame: u32, order: u64)
    requires order + |segments| <= U64_MAX
    ensures InOrder(BurstQueue(segments, parentFrame, order))
  {
    var q := BurstQueue(segments, parentFrame, order);
    forall i, j | 0 <= i < j < |q| ensures NotAfter(q[i], q[j]) {
      QueueAtIndex(segments, parentFrame, order, i);
      QueueAtIndex(segments, parentFrame, order, j);
      TotalHoldGrows(segments, i, j);
    }
  }

  lemma {:induction false} BurstIsQueued<S>(m: Machine<S>, segments: seq<Segment>, parentFrame: u32)
    requires m.nextOrder + |segments| <= U64_MAX
    ensures var q := Queued(m, BurstSchedule(segments, parentFrame));
            && q.pending == m.pending + BurstQueue(segments, parentFrame, m.nextOrder)
            && q.inputLog == m.inputLog + BurstSchedule(segments, parentFrame)
            && q == m.(pending := q.pending, inputLog := q.inputLog, nextOrder := m.nextOrder + |segments|)
  {
    if segments == [] {
    } else {
      var n := |segments| - 1;
      var events := BurstSchedule(segments, parentFrame);
      BurstIsQueued(m, segments[..n], parentFrame);
      assert events[..n] == BurstSchedule(segments[..n], parentFrame);
    }
  }

  lemma {:induction false} QueueActions(segments: seq<Segment>, parentFrame: u32, order: u64, k: nat)
    requires order + |segments| <= U64_MAX && k <= |segments|
    ensures ActionsOf(BurstQueue(segments, parentFrame, order)[..k]) == SegmentActions(segments[..k])
  {
    if k == 0 {
    } else {
      QueueActions(segments, parentFrame, order, k - 1);
      QueueAtIndex(segments, parentFrame, order, k - 1);
      var q := BurstQueue(segments, parentFrame, order);
      assert q[..k][..k - 1] == q[..k - 1] && segments[..k][..k - 1] == segments[..k - 1];
    }
  }

  // ------------------------------------------------------------------
  // Playing a burst
  // ------------------------------------------------------------------

  /** Inject the burst, then run for its total hold without a cap. */
  function PlayBurst<S>(step: Step<S>, m: Machine<S>, segments: seq<Segment>): (Machine<S>, Result<u32, Failure>) {
    var (queued, taken) := Injected(m, BurstSchedule(segments, m.frame));
    if taken.Err? then (queued, taken)
    else AdvancedBy(step, queued, Min(TotalHold(segments), U32_MAX))
  }

  /** No counter overflows while the burst plays. */
  ghost predicate Fits<S>(m: Machine<S>, segments: seq<Segment>) {
    var total := TotalHold(segments);
    && |segments| <= U32_MAX && m.nextOrder + |segments| <= U64_MAX
    && m.frame + total <= U32_MAX
    && m.icount + total * ICOUNT_PER_FRAME <= U64_MAX
    && m.vns + total * VNS_PER_FRAME <= U64_MAX
  }

  ghost function ReachedUpTo(segments: seq<Segment>, frame: u32, n: nat): (k: nat)
    requires frame + TotalHold(segments) <= U32_MAX && n <= |segments|
    ensures k <= n
    ensures forall i :: 0 <= i < n ==> (StartFrame(segments, frame, i) <= frame + TotalHold(segments) <==> i < k)
  {
    if n == 0 then 0
    else if StartFrame(segments, frame, n - 1) <= frame + TotalHold(segments) then
      assert forall i :: 0 <= i < n ==> TotalHold(segments[..i]) <= TotalHold(segments[..n - 1]) by {
        forall i | 0 <= i < n ensures TotalHold(segments[..i]) <= TotalHold(segments[..n - 1]) {
          TotalHoldGrows(segments, i, n - 1);
        }
      }
      n
    else ReachedUpTo(segments, frame, n - 1)
  }

  /** How many segments start within the budget: all but the zero-length ones at the end. */
  ghost function Reached(segments: seq<Segment>, frame: u32): (k: nat)
    requires frame + TotalHold(segments) <= U32_MAX
    ensures k <= |segments|
    ensures forall i :: 0 <= i < |segments| ==>
              (StartFrame(segments, frame, i) <= frame + TotalHold(segments) <==> i < k)
  {
    ReachedUpTo(segments, frame, |segments|)
  }

  lemma {:induction false} EventsAreInFuture<S>(m: Machine<S>, segments: seq<Segment>)
    requires TotalHold(segments) > 0 && Fits(m, segments)
    ensures Injectable(m, BurstSchedule(segments, m.frame))
  {
    forall i | 0 <= i < |segments| ensures InFuture(m, BurstSchedule(segments, m.frame)[i]) {
      ScheduleAtIndex(segments, m.frame, i);
    }
  }

  /** The machine once the burst is queued. */
  function WithBurst<S>(m: Machine<S>, segments: seq<Segment>): Machine<S>
    requires m.nextOrder + |segments| <= U64_MAX
  {
    m.(pending := BurstQueue(segments, m.frame, m.nextOrder),
       inputLog := m.inputLog + BurstSchedule(segments, m.frame),
       nextOrder := m.nextOrder + |segments|)
  }

  lemma {:induction false} QueueIsSorted(segments: seq<Segment>, frame: u32, order: u64)
    requires order + |segments| <= U64_MAX
    ensures var queue := BurstQueue(segments, frame, order); SortPending(queue) == queue
  {
    QueueInOrder(segments, frame, order);
    SortedStays(BurstQueue(segments, frame, order));
  }

  lemma {:induction false} BurstIsInjected<S>(m: Machine<S>, segments: seq<Segment>)
    requires TotalHold(segments) > 0 && Fits(m, segments) && m.pending == []
    ensures Injected(m, BurstSchedule(segments, m.frame)) == (WithBurst(m, segments), Ok(|segments|))
  {
    var events, queue := BurstSchedule(segments, m.frame), BurstQueue(segments, m.frame, m.nextOrder);
    EventsAreInFuture(m, segments);
    assert Queued(m, events) == WithBurst(m, segments) by {
      BurstIsQueued(m, segments, m.frame);
      assert m.pending + queue == queue;
    }
    QueueIsSorted(segments, m.frame, m.nextOrder);
  }

  lemma {:induction false} QueueSplits(segments: seq<Segment>, frame: u32, order: u64, k: nat, queue: seq<Pending>,
                                       end: u32)
    requires order + |segments| <= U64_MAX && end == frame + TotalHold(segments)
    requires queue == BurstQueue(segments, frame, order)
    requires k == Reached(segments, frame)
    ensures forall i :: 0 <= i < |queue| ==> (queue[i].atFrame <= end <==> i < k)
  {
    forall i | 0 <= i < |queue| ensures queue[i].atFrame <= end <==> i < k {
      QueueAtIndex(segments, frame, order, i);
    }
  }

  lemma {:induction false} DuePrefixStays(queue: seq<Pending>, end: u32, k: nat)
    requires InOrder(queue) && k <= |queue|
    requires forall i :: 0 <= i < |queue| ==> (queue[i].atFrame <= end <==> i < k)
    ensures DueBy(queue, end) == queue[..k] && DueAfter(queue, end) == queue[k..]
    ensures SortPending(queue[..k]) == queue[..k]
  {
    DueIsPrefix(queue, end, k);
    SortedStays(queue[..k]);
  }

  lemma {:induction false} QueueIsDue(segments: seq<Segment>, frame: u32, order: u64, k: nat, queue: seq<Pending>,
                                      end: u32)
    requires order + |segments| <= U64_MAX && end == frame + TotalHold(segments)
    requires queue == BurstQueue(segments, frame, order) && k == Reached(segments, frame)
    ensures k <= |queue| && DueBy(queue, end) == queue[..k] && DueAfter(queue, end) == queue[k..]
    ensures SortPending(queue[..k]) == queue[..k]
  {
    QueueInOrder(segments, frame, order);
    QueueSplits(segments, frame, order, k, queue, end);
    DuePrefixStays(queue, end, k);
  }

  lemma {:induction false} PlayedPrefix<S>(step: Step<S>, m: Machine<S>, end: u32, k: nat)
    requires k <= |m.pending| && DueBy(m.pending, end) == m.pending[..k] && DueAfter(m.pending, end) == m.pending[k..]
    requires SortPending(m.pending[..k]) == m.pending[..k]
    ensures Played(step, m, end).state == ApplyActions(step, m.state, ActionsOf(m.pending[..k]))
    ensures Played(step, m, end).pending == m.pending[k..]
  {
  }

  /** After a burst: the segments reached are done, the others are pending, and the clocks have moved on. */
  ghost predicate IsAfterBurst<S>(step: Step<S>, m: Machine<S>, segments: seq<Segment>, total: nat, k: nat,
                                  after: Machine<S>)
    requires m.nextOrder + |segments| <= U64_MAX && k <= |segments|
  {
    && after.state == ApplyActions(step, m.state, SegmentActions(segments[..k]))
    && after.pending == BurstQueue(segments, m.frame, m.nextOrder)[k..]
    && after.inputLog == m.inputLog + BurstSchedule(segments, m.frame)
    && after.nextOrder == m.nextOrder + |segments|
    && after.frame == m.frame + total
    && after.icount == m.icount + total * ICOUNT_PER_FRAME
    && after.vns == m.vns + total * VNS_PER_FRAME
  }

  lemma {:induction false} QueuePlays<S>(step: Step<S>, queued: Machine<S>, segments: seq<Segment>, order: u64,
                                         end: u32, k: nat)
    requires order + |segments| <= U64_MAX && end == queued.frame + TotalHold(segments)
    requires queued.pending == BurstQueue(segments, queued.frame, order) && k == Reached(segments, queued.frame)
    ensures Played(step, queued, end).state == ApplyActions(step, queued.state, SegmentActions(segments[..k]))
    ensures Played(step, queued, end).pending == queued.pending[k..]
  {
    QueueIsDue(segments, queued.frame, order, k, queued.pending, end);
    PlayedPrefix(step, queued, end, k);
    QueueActions(segments, queued.frame, order, k);
  }

  lemma {:induction false} BurstAdvances<S>(step: Step<S>, m: Machine<S>, segments: seq<Segment>, queued: Machine<S>)
    requires var (taken, reply) := Injected(m, BurstSchedule(segments, m.frame)); taken == queued && reply.Ok?
    ensures PlayBurst(step, m, segments) == AdvancedBy(step, queued, Min(TotalHold(segments), U32_MAX))
  {
  }

  lemma {:induction false} AdvancedPlays<S>(step: Step<S>, m: Machine<S>, frames: u32, played: Machine<S>)
    requires m.frame + frames <= U32_MAX && played == Played(step, m, m.frame + frames)
    requires m.icount + frames * ICOUNT_PER_FRAME <= U64_MAX && m.vns + frames * VNS_PER_FRAME <= U64_MAX
    ensures var (after, reply) := AdvancedBy(step, m, frames);
            && reply == Ok(frames)
            && after.state == played.state && after.pending == played.pending && after.inputLog == m.inputLog
            && after.nextOrder == m.nextOrder && after.frame == m.frame + frames
            && after.icount == m.icount + frames * ICOUNT_PER_FRAME
            && after.vns == m.vns + frames * VNS_PER_FRAME
  {
  }

  lemma {:induction false} AdvancedQueue<S>(step: Step<S>, queued: Machine<S>, segments: seq<Segment>, order: u64,
                                            total: u32, k: nat)
    requires total == TotalHold(segments) && queued.frame + total <= U32_MAX && k == Reached(segments, queued.frame)
    requires order + |segments| <= U64_MAX && queued.pending == BurstQueue(segments, queued.frame, order)
    requires queued.icount + total * ICOUNT_PER_FRAME <= U64_MAX && queued.vns + total * VNS_PER_FRAME <= U64_MAX
    ensures var (after, reply) := AdvancedBy(step, queued, total);
            && reply == Ok(total)
            && after.state == ApplyActions(step, queued.state, SegmentActions(segments[..k]))
            && after.pending == queued.pending[k..] && after.inputLog == queued.inputLog
            && after.nextOrder == queued.nextOrder && after.frame == queued.frame + total
            && after.icount == queued.icount + total * ICOUNT_PER_FRAME
            && after.vns == queued.vns + total * VNS_PER_FRAME
  {
    AdvancedPlays(step, queued, total, Played(step, queued, queued.frame + total));
    QueuePlays(step, queued, segments, order, queued.frame + total, k);
  }

  /**
    Playing a burst on a machine with nothing pending performs the actions of
    the segments it reaches, once each and in order, leaves the others pending
    and moves the clocks on by the total hold.
   */
  lemma {:induction false} PlayedBurst<S>(step: Step<S>, m: Machine<S>, segments: seq<Segment>)
    requires TotalHold(segments) > 0 && Fits(m, segments) && m.pending == []
    ensures var (after, reply) := PlayBurst(step, m, segments);
            && reply == Ok(TotalHold(segments))
            && IsAfterBurst(step, m, segments, TotalHold(segments), Reached(segments, m.frame), after)
  {
    BurstIsInjected(m, segments);
    BurstAdvances(step, m, segments, WithBurst(m, segments));
    AdvancedQueue(step, WithBurst(m, segments), segments, m.nextOrder, TotalHold(segments), Reached(segments, m.frame));
  }

  lemma {:induction false} LastHoldDecides(segments: seq<Segment>, frame: u32)
    requires segments != [] && frame + TotalHold(segments) <= U32_MAX
    ensures Reached(segments, frame) == |segments| <==>
              segments[|segments| - 1].hold > 0 || frame + TotalHold(segments) == U32_MAX
  {
    var n := |segments| - 1;
    assert StartFrame(segments, frame, n) <= frame + TotalHold(segments) <==> n < Reached(segments, frame);
  }

  /**
    A burst plays whole, exactly as `apply_actions` would run it, when its last
    segment is held at least one frame; a burst that ends in a zero-length
    segment leaves it pending, short of the last frame number.
   */
  lemma {:induction false} BurstPlaysWhole<S>(step: Step<S>, m: Machine<S>, segments: seq<Segment>)
    requires TotalHold(segments) > 0 && Fits(m, segments) && m.pending == []
    ensures var (after, reply) := PlayBurst(step, m, segments);
            && reply == Ok(TotalHold(segments)) && after.frame == m.frame + TotalHold(segments)
            && (after.pending == [] <==>
                  segments[|segments| - 1].hold > 0 || after.frame == U32_MAX)
            && (after.pending == [] ==> after.state == ApplyActions(step, m.state, SegmentActions(segments)))
  {
    PlayedBurst(step, m, segments);
    LastHoldDecides(segments, m.frame);
    assert segments[..|segments|] == segments;
  }
}
