/** The lock-held sections of every task, interleaved: acquirers, permit drops, the drain task and their wake loops. */
module SlotProtocol {
  import opened Base
  import opened SlotTable

  /** Where a task stands between two lock sections. */
  datatype Pc =
    | Check               // head of the wake loop
    | Reserved            // has reserved a permit, has not popped a waiter yet
    | Handing(w: Waiter)  // has popped a waiter, has not sent the permit yet
    | Releasing           // is dropping a permit, has not decremented `reserved` yet
    | Finished

  /** `suspended` counts outer wake loops that resume once a nested permit drop is done. */
  datatype Task = Task(pc: Pc, suspended: nat)

  datatype World = World(capacity: u32, reserved: u32, known: map<SlotId, SlotState>, waiters: seq<Waiter>,
                         alive: set<Waiter>, arrived: seq<Waiter>, served: seq<Waiter>,
                         held: nat, tasks: seq<Task>)
  {
    function FreeSlots(): u32 { Free(capacity, reserved, known) }

    predicate Quiescent() { forall i :: 0 <= i < |tasks| ==> tasks[i].pc.Finished? }

    function Moved(i: nat, t: Task): World
      requires i < |tasks|
    {
      this.(tasks := tasks[i := t])
    }
  }

  datatype Event =
    | Acquire(w: Waiter)
    | TryAcquire
    | Cancel(w: Waiter)
    | DropPermit
    | Drain(updates: seq<(SlotId, SlotState)>, capacity: Option<u32>)
    | Advance(i: nat)

  function Start(capacity: u32, known: map<SlotId, SlotState>): World {
    World(capacity, 0, known, [], {}, [], [], 0, [])
  }

  predicate Enabled(s: World, e: Event) {
    match e
    case Acquire(w) => w !in s.arrived
    case TryAcquire => true
    case Cancel(w) => w in s.alive
    case DropPermit => s.held > 0
    case Drain(_, _) => true
    case Advance(i) => i < |s.tasks| && !s.tasks[i].pc.Finished?
  }

  function Updated(known: map<SlotId, SlotState>, updates: seq<(SlotId, SlotState)>): map<SlotId, SlotState> {
    if updates == [] then known
    else
      var last := updates[|updates| - 1];
      Updated(known, updates[..|updates| - 1])[last.0 := last.1]
  }

  /** One lock section of a running task. */
  function AdvanceTask(s: World, i: nat): World
    requires Enabled(s, Advance(i))
  {
    var t := s.tasks[i];
    match t.pc
    case Check =>
      if s.FreeSlots() == 0 || s.waiters == [] then
        s.Moved(i, if t.suspended > 0 then Task(Check, t.suspended - 1) else Task(Finished, 0))
      else s.(reserved := s.reserved + 1).Moved(i, t.(pc := Reserved))
    case Reserved =>
      if s.waiters == [] then s.Moved(i, t.(pc := Releasing))
      else
        s.(waiters := s.waiters[1..], served := s.served + [s.waiters[0]])
         .Moved(i, t.(pc := Handing(s.waiters[0])))
    case Handing(w) =>
      if w in s.alive then s.(alive := s.alive - {w}, held := s.held + 1).Moved(i, t.(pc := Check))
      else s.Moved(i, Task(Releasing, t.suspended + 1))
    case Releasing =>
      s.(reserved := Max(s.reserved - 1, 0)).Moved(i, t.(pc := Check))
  }

  function Next(s: World, e: Event): World
    requires Enabled(s, e)
  {
    match e
    case Acquire(w) =>
      if s.FreeSlots() > 0 then s.(reserved := s.reserved + 1, held := s.held + 1)
      else s.(waiters := s.waiters + [w], alive := s.alive + {w}, arrived := s.arrived + [w])
    case TryAcquire =>
      if s.FreeSlots() > 0 then s.(reserved := s.reserved + 1, held := s.held + 1) else s
    case Cancel(w) => s.(alive := s.alive - {w})
    case DropPermit => s.(held := s.held - 1, tasks := s.tasks + [Task(Releasing, 0)])
    case Drain(updates, capacity) =>
      s.(known := Updated(s.known, updates),
         capacity := if capacity.Some? then capacity.value else s.capacity,
         tasks := s.tasks + [Task(Check, 0)])
    case Advance(i) => AdvanceTask(s, i)
  }

  function Carries(t: Task): nat { if t.pc.Reserved? || t.pc.Handing? || t.pc.Releasing? then 1 else 0 }

  /** Permits that exist inside tasks rather than in a client's hands. */
  function InTransit(tasks: seq<Task>): nat {
    if tasks == [] then 0 else InTransit(tasks[..|tasks| - 1]) + Carries(tasks[|tasks| - 1])
  }

  lemma {:induction false} InTransitMoves(tasks: seq<Task>, i: nat, t: Task)
    requires i < |tasks|
    ensures InTransit(tasks[i := t]) == InTransit(tasks) - Carries(tasks[i]) + Carries(t)
  {
    var last := |tasks| - 1;
    if i < last {
      InTransitMoves(tasks[..last], i, t);
      assert tasks[i := t][..last] == tasks[..last][i := t];
    } else {
      assert tasks[i := t][..last] == tasks[..last];
    }
  }

  lemma {:induction false} InTransitAdds(tasks: seq<Task>, t: Task)
    ensures InTransit(tasks + [t]) == InTransit(tasks) + Carries(t)
  {
    assert (tasks + [t])[..|tasks|] == tasks;
  }

  ghost predicate Awaited(s: World, w: Waiter) {
    w in s.waiters || exists i :: 0 <= i < |s.tasks| && s.tasks[i].pc == Handing(w)
  }

  ghost predicate Inv(s: World) {
    // every reservation is a permit somewhere
    && s.reserved == s.held + InTransit(s.tasks)
    // no lost wake-up
    && (s.FreeSlots() > 0 && s.waiters != [] ==> !s.Quiescent())
    // first come, first popped
    && s.arrived == s.served + s.waiters && NoRepeats(s.arrived)
    // a live waiter is queued or about to be handed a permit
    && (forall w :: w in s.alive ==> Awaited(s, w))
  }

  lemma {:induction false} HandingStays(s: World, t: World, i: nat, moved: Task, w: Waiter)
    requires i < |s.tasks| && t.tasks == s.tasks[i := moved]
    requires exists j :: 0 <= j < |s.tasks| && s.tasks[j].pc == Handing(w)
    requires s.tasks[i].pc != Handing(w)
    ensures exists j :: 0 <= j < |t.tasks| && t.tasks[j].pc == Handing(w)
  {
    var j :| 0 <= j < |s.tasks| && s.tasks[j].pc == Handing(w);
    assert t.tasks[j].pc == Handing(w);
  }

  lemma {:induction false} AdvanceKeepsCount(s: World, i: nat)
    requires Inv(s) && Enabled(s, Advance(i))
    ensures var t := AdvanceTask(s, i); t.reserved == t.held + InTransit(t.tasks)
  {
    InTransitMoves(s.tasks, i, AdvanceTask(s, i).tasks[i]);
    InTransitMoves(s.tasks, i, Task(Finished, 0));
  }

  lemma {:induction false} AdvanceKeepsWaiters(s: World, i: nat)
    requires Inv(s) && Enabled(s, Advance(i))
    ensures var t := AdvanceTask(s, i);
            && t.arrived == t.served + t.waiters && t.arrived == s.arrived
            && (forall w :: w in t.alive ==> Awaited(t, w))
  {
    var t := AdvanceTask(s, i);
    if s.tasks[i].pc.Reserved? && s.waiters != [] {
      assert s.waiters == [s.waiters[0]] + s.waiters[1..];
      assert t.tasks[i].pc == Handing(s.waiters[0]);
    }
    forall w | w in t.alive ensures Awaited(t, w) {
      assert Awaited(s, w);
      if w !in s.waiters { HandingStays(s, t, i, t.tasks[i], w); }
    }
  }

  lemma {:induction false} AdvanceKeepsWakeups(s: World, i: nat)
    requires Inv(s) && Enabled(s, Advance(i))
    ensures var t := AdvanceTask(s, i); t.FreeSlots() > 0 && t.waiters != [] ==> !t.Quiescent()
  {
    var t := AdvanceTask(s, i);
    if t.FreeSlots() > 0 && t.waiters != [] { assert !t.tasks[i].pc.Finished?; }
  }

  lemma {:induction false} ExternalKeepsWaiters(s: World, e: Event)
    requires Inv(s) && Enabled(s, e) && !e.Advance?
    ensures var t := Next(s, e);
            && t.arrived == t.served + t.waiters && NoRepeats(t.arrived)
            && (forall w :: w in t.alive ==> Awaited(t, w))
  {
    var t := Next(s, e);
    forall w | w in t.alive ensures Awaited(t, w) {
      if w in s.alive {
        assert Awaited(s, w);
        if w !in s.waiters {
          var j :| 0 <= j < |s.tasks| && s.tasks[j].pc == Handing(w);
          assert t.tasks[j].pc == Handing(w);
        }
      }
    }
  }

  lemma {:induction false} ExternalKeepsWakeups(s: World, e: Event)
    requires Inv(s) && Enabled(s, e) && !e.Advance?
    ensures var t := Next(s, e); t.FreeSlots() > 0 && t.waiters != [] ==> !t.Quiescent()
  {
    var t := Next(s, e);
    if t.FreeSlots() > 0 && t.waiters != [] {
      if e.DropPermit? || e.Drain? {
        assert !t.tasks[|s.tasks|].pc.Finished?;
      } else {
        assert t.tasks == s.tasks;
      }
    }
  }

  /** Every lock section of every task keeps the invariant. */
  lemma {:induction false} StepKeepsInv(s: World, e: Event)
    requires Inv(s) && Enabled(s, e)
    ensures Inv(Next(s, e))
  {
    if e.Advance? {
      AdvanceKeepsCount(s, e.i);
      AdvanceKeepsWaiters(s, e.i);
      AdvanceKeepsWakeups(s, e.i);
    } else {
      ExternalKeepsWaiters(s, e);
      ExternalKeepsWakeups(s, e);
      InTransitAdds(s.tasks, Task(Releasing, 0));
      InTransitAdds(s.tasks, Task(Check, 0));
    }
  }

  /** A reservation is only taken while it fits under the capacity and the worker's own slots do too. */
  lemma {:induction false} GrantsRespectCapacity(s: World, e: Event)
    requires Enabled(s, e)
    ensures Next(s, e).reserved > s.reserved ==>
              Next(s, e).reserved <= Next(s, e).capacity && Busy(s.reserved, s.known) < s.capacity
  {
  }

  /** The world after an interleaving, if each step was possible. */
  function Run(s: World, events: seq<Event>): Option<World> {
    if events == [] then Some(s)
    else
      match Run(s, events[..|events| - 1])
      case None => None
      case Some(t) =>
        if Enabled(t, events[|events| - 1]) then Some(Next(t, events[|events| - 1])) else None
  }

  /**
    Over every interleaving: `reserved` equals the outstanding permits, and a
    free slot with a queued waiter means some wake loop has yet to finish.
   */
  lemma {:induction false} NoLostWakeup(capacity: u32, known: map<SlotId, SlotState>, events: seq<Event>)
    ensures var r := Run(Start(capacity, known), events); r.Some? ==> Inv(r.value)
  {
    if events == [] {
    } else {
      var init := events[..|events| - 1];
      NoLostWakeup(capacity, known, init);
      var before := Run(Start(capacity, known), init);
      if before.Some? && Enabled(before.value, events[|events| - 1]) {
        StepKeepsInv(before.value, events[|events| - 1]);
      }
    }
  }

  // ------------------------------------------------------------------
  // The wake loops finish
  // ------------------------------------------------------------------

  /** Work left in one task; an emptied queue makes a held reservation worth more than a fresh check. */
  function Work(t: Task, queueEmpty: bool): nat {
    match t.pc
    case Check => (if queueEmpty then 1 else 2) + t.suspended
    case Reserved => (if queueEmpty then 3 else 1) + t.suspended
    case Releasing => (if queueEmpty then 2 else 3) + t.suspended
    case Handing(_) => 5 + t.suspended
    case Finished => 0
  }

  function TotalWork(tasks: seq<Task>, queueEmpty: bool): nat {
    if tasks == [] then 0
    else TotalWork(tasks[..|tasks| - 1], queueEmpty) + Work(tasks[|tasks| - 1], queueEmpty)
  }

  lemma {:induction false} TotalWorkMoves(tasks: seq<Task>, i: nat, t: Task, queueEmpty: bool)
    requires i < |tasks|
    ensures TotalWork(tasks[i := t], queueEmpty)
         == TotalWork(tasks, queueEmpty) - Work(tasks[i], queueEmpty) + Work(t, queueEmpty)
  {
    var last := |tasks| - 1;
    if i < last {
      TotalWorkMoves(tasks[..last], i, t, queueEmpty);
      assert tasks[i := t][..last] == tasks[..last][i := t];
    } else {
      assert tasks[i := t][..last] == tasks[..last];
    }
  }

  /** Each lock section shortens the queue or leaves less work. */
  lemma {:induction false} AdvanceShrinks(s: World, i: nat)
    requires Enabled(s, Advance(i))
    ensures var t := AdvanceTask(s, i);
            || |t.waiters| < |s.waiters|
            || (t.waiters == s.waiters && TotalWork(t.tasks, t.waiters == []) < TotalWork(s.tasks, s.waiters == []))
  {
    var t := AdvanceTask(s, i);
    TotalWorkMoves(s.tasks, i, t.tasks[i], s.waiters == []);
  }

  /** Running tasks, chosen by any scheduler, until none is left. */
  ghost function Settle(s: World, scheduler: World -> nat): World
    requires forall w: World :: !w.Quiescent() ==> Enabled(w, Advance(scheduler(w)))
    decreases |s.waiters|, TotalWork(s.tasks, s.waiters == [])
  {
    if s.Quiescent() then s
    else
      AdvanceShrinks(s, scheduler(s));
      Settle(AdvanceTask(s, scheduler(s)), scheduler)
  }

  lemma {:induction false} NothingInTransit(tasks: seq<Task>)
    requires forall i :: 0 <= i < |tasks| ==> tasks[i].pc.Finished?
    ensures InTransit(tasks) == 0
  {
    if tasks == [] {
    } else {
      NothingInTransit(tasks[..|tasks| - 1]);
    }
  }

  /**
    If no new request arrives, every schedule comes to rest, and at rest no live
    waiter is left behind while a slot is free.
   */
  lemma {:induction false} SettledServesWaiters(s: World, scheduler: World -> nat)
    requires Inv(s)
    requires forall w: World :: !w.Quiescent() ==> Enabled(w, Advance(scheduler(w)))
    ensures var t := Settle(s, scheduler);
            && t.Quiescent() && Inv(t)
            && (t.FreeSlots() > 0 ==> t.waiters == [] && t.alive == {})
            && t.reserved == t.held
    decreases |s.waiters|, TotalWork(s.tasks, s.waiters == [])
  {
    if s.Quiescent() {
      forall w | w in s.alive ensures w in s.waiters { assert Awaited(s, w); }
      NothingInTransit(s.tasks);
    } else {
      var i := scheduler(s);
      assert Enabled(s, Advance(i));
      AdvanceShrinks(s, i);
      StepKeepsInv(s, Advance(i));
      SettledServesWaiters(AdvanceTask(s, i), scheduler);
    }
  }
}
