/** The wake loop run alone, in place. */
module SlotQueue {
  import opened Base
  import opened SlotTable
  import Protocol = SlotProtocol

  /** The view's fields, the waiters still listening, and who was granted a permit, in order. */
  datatype Queue = Queue(capacity: u32, reserved: u32, known: map<SlotId, SlotState>, waiters: seq<Waiter>,
                         alive: set<Waiter>, granted: seq<Waiter>)
  {
    function FreeSlots(): u32 { Free(capacity, reserved, known) }
  }

  /** An undisturbed wake loop: serve from the front, skipping cancelled waiters, while a slot is free. */
  ghost function Woken(q: Queue): (r: Queue)
    ensures |r.waiters| <= |q.waiters|
    decreases |q.waiters|
  {
    if q.FreeSlots() == 0 || q.waiters == [] then q
    else
      var w := q.waiters[0];
      var popped := q.(waiters := q.waiters[1..]);
      if w in q.alive then
        Woken(popped.(reserved := q.reserved + 1, alive := q.alive - {w}, granted := q.granted + [w]))
      else Woken(popped)
  }

  function Listening(waiters: seq<Waiter>, alive: set<Waiter>): seq<Waiter> {
    if waiters == [] then []
    else (if waiters[0] in alive then [waiters[0]] else []) + Listening(waiters[1..], alive)
  }

  lemma {:induction false} ListeningIgnoresOthers(waiters: seq<Waiter>, alive: set<Waiter>, w: Waiter)
    requires w !in waiters
    ensures Listening(waiters, alive - {w}) == Listening(waiters, alive)
  {
    if waiters == [] {
    } else {
      ListeningIgnoresOthers(waiters[1..], alive, w);
    }
  }

  /** How many permits one wake can hand out. */
  function Room(q: Queue): nat {
    if Live(q.known) < q.capacity then Max(q.capacity - q.reserved, 0) else 0
  }

  lemma {:induction false} TakeOneMore<T>(granted: seq<T>, head: T, rest: seq<T>, n: nat)
    ensures granted + [head] + rest[..Min(n, |rest|)] == granted + ([head] + rest)[..Min(n + 1, |rest| + 1)]
  {
    assert ([head] + rest)[..Min(n + 1, |rest| + 1)] == [head] + rest[..Min(n, |rest|)];
  }

  /** Serving the first waiter leaves the rest to be served in order. */
  lemma {:induction false} ServedFirst(q: Queue, next: Queue)
    requires NoRepeats(q.waiters) && q.FreeSlots() != 0 && q.waiters != [] && q.waiters[0] in q.alive
    requires next == q.(waiters := q.waiters[1..], reserved := q.reserved + 1, alive := q.alive - {q.waiters[0]},
                        granted := q.granted + [q.waiters[0]])
    ensures var live, rest := Listening(q.waiters, q.alive), Listening(next.waiters, next.alive);
            next.granted + rest[..Min(Room(next), |rest|)] == q.granted + live[..Min(Room(q), |live|)]
  {
    var w, rest := q.waiters[0], Listening(next.waiters, next.alive);
    assert w !in next.waiters;
    ListeningIgnoresOthers(next.waiters, q.alive, w);
    assert Room(q) == Room(next) + 1;
    assert Listening(q.waiters, q.alive) == [w] + rest;
    TakeOneMore(q.granted, w, rest, Room(next));
  }

  /** A wake grants exactly the first live waiters in arrival order, as many as there is room for. */
  lemma {:induction false} WokenServesInOrder(q: Queue)
    requires NoRepeats(q.waiters)
    ensures var live := Listening(q.waiters, q.alive);
            && Woken(q).granted == q.granted + live[..Min(Room(q), |live|)]
            && (Woken(q).FreeSlots() == 0 || Woken(q).waiters == [])
    decreases |q.waiters|
  {
    if q.FreeSlots() != 0 && q.waiters != [] {
      var w := q.waiters[0];
      var popped := q.(waiters := q.waiters[1..]);
      if w in q.alive {
        var next := popped.(reserved := q.reserved + 1, alive := q.alive - {w}, granted := q.granted + [w]);
        WokenServesInOrder(next);
        ServedFirst(q, next);
      } else {
        WokenServesInOrder(popped);
      }
    }
  }

  /** Slot-time of `n` slots over `dt` instants, one instant at a time. */
  ghost function Area(n: nat, dt: nat): nat { if dt == 0 then 0 else Area(n, dt - 1) + n }

  lemma {:induction false} AreaIsProduct(n: nat, dt: nat)
    ensures Area(n, dt) == dt * n
  {
    if dt == 0 {
    } else {
      AreaIsProduct(n, dt - 1);
    }
  }

  lemma {:induction false} AreaAdds(n: nat, a: nat, b: nat)
    ensures Area(n, a + b) == Area(n, a) + Area(n, b)
  {
    if b == 0 {
    } else {
      AreaAdds(n, a, b - 1);
    }
  }

  lemma {:induction false} AreaMonotone(a: nat, b: nat, dt: nat)
    requires a <= b
    ensures Area(a, dt) <= Area(b, dt)
  {
    if dt == 0 {
    } else {
      AreaMonotone(a, b, dt - 1);
    }
  }

  class SlotView {
    var capacity: u32
    var reserved: u32
    var known: map<SlotId, SlotState>
    var waiters: seq<Waiter>
    var alive: set<Waiter>
    var granted: seq<Waiter>
    var clock: nat
    var lastAdvance: nat
    var busyIntegral: nat
    var capacityIntegral: nat
    /** Busy and available slot-time since the start, counted instant by instant. */
    ghost var busyArea: nat
    ghost var capacityArea: nat

    ghost function View(): Queue
      reads this
    {
      Queue(capacity, reserved, known, waiters, alive, granted)
    }

    function Counted(): nat
      reads this
    {
      Min(Busy(reserved, known), capacity)
    }

    /** The stored integrals lag behind by exactly the time since the last update. */
    ghost predicate Valid()
      reads this
    {
      && lastAdvance <= clock
      && busyArea == busyIntegral + Area(Counted(), clock - lastAdvance)
      && capacityArea == capacityIntegral + Area(capacity, clock - lastAdvance)
      && busyIntegral <= capacityIntegral
      && NoRepeats(waiters)
    }

    constructor (capacity: u32, known: map<SlotId, SlotState>)
      ensures Valid() && View() == Queue(capacity, 0, known, [], {}, [])
      ensures busyArea == capacityArea == 0
    {
      this.capacity, this.known := capacity, known;
      reserved, waiters, alive, granted := 0, [], {}, [];
      clock, lastAdvance, busyIntegral, capacityIntegral := 0, 0, 0, 0;
      busyArea, capacityArea := 0, 0;
    }

    /** Time passes; nothing else changes. */
    method Elapse(dt: nat)
      requires Valid()
      modifies `clock, `busyArea, `capacityArea
      ensures Valid()
      ensures busyArea == old(busyArea) + Area(Counted(), dt) && capacityArea == old(capacityArea) + Area(capacity, dt)
    {
      AreaAdds(Counted(), clock - lastAdvance, dt);
      AreaAdds(capacity, clock - lastAdvance, dt);
      busyArea := busyArea + Area(Counted(), dt);
      capacityArea := capacityArea + Area(capacity, dt);
      clock := clock + dt;
    }

    method AdvanceIntegrals()
      requires Valid()
      modifies `lastAdvance, `busyIntegral, `capacityIntegral
      ensures Valid() && lastAdvance == clock
    {
      var dt := clock - lastAdvance;
      if dt > 0 {
        AreaMonotone(Counted(), capacity, dt);
        AreaIsProduct(Counted(), dt);
        AreaIsProduct(capacity, dt);
        busyIntegral := busyIntegral + dt * Counted();
        capacityIntegral := capacityIntegral + dt * capacity;
        lastAdvance := clock;
      }
    }

    /** Terminates because every round pops a waiter, including the rounds nested in a permit drop. */
    method WakeFreeWaiters()
      requires Valid()
      modifies `reserved, `waiters, `alive, `granted, `lastAdvance, `busyIntegral, `capacityIntegral
      ensures Valid() && View() == Woken(old(View()))
      decreases |waiters|, 1
    {
      while true
        invariant Valid() && Woken(View()) == Woken(old(View()))
        invariant |waiters| <= |old(waiters)|
        decreases |waiters|
      {
        if Free(capacity, reserved, known) == 0 || waiters == [] { return; }
        WakeFirst();
      }
    }

    /** One round: reserve, pop, hand over; a send to a cancelled waiter drops the permit again. */
    method WakeFirst()
      requires Valid() && Free(capacity, reserved, known) > 0 && waiters != []
      modifies `reserved, `waiters, `alive, `granted, `lastAdvance, `busyIntegral, `capacityIntegral
      ensures Valid() && Woken(View()) == Woken(old(View())) && |waiters| < |old(waiters)|
      decreases |waiters|, 0
    {
      Reserve();
      var waiter := PopFront();
      WokenRound(old(View()), waiter);
      if waiter in alive {
        alive := alive - {waiter};
        granted := granted + [waiter];
        assert View() == old(View()).(waiters := old(waiters)[1..], reserved := old(reserved) + 1,
                                      alive := old(alive) - {waiter}, granted := old(granted) + [waiter]);
      } else {
        ReleasePermit();
      }
    }

    method Reserve()
      requires Valid() && Free(capacity, reserved, known) > 0
      modifies `reserved, `lastAdvance, `busyIntegral, `capacityIntegral
      ensures Valid() && reserved == old(reserved) + 1
    {
      AdvanceIntegrals();
      reserved := reserved + 1;
    }

    method PopFront() returns (waiter: Waiter)
      requires Valid() && waiters != []
      modifies `waiters
      ensures Valid() && [waiter] + waiters == old(waiters)
    {
      waiter := waiters[0];
      waiters := waiters[1..];
    }

    static lemma WokenRound(q: Queue, w: Waiter)
      requires q.FreeSlots() > 0 && q.waiters != [] && w == q.waiters[0]
      ensures var popped := q.(waiters := q.waiters[1..]);
              if w in q.alive then
                Woken(q)
                == Woken(popped.(reserved := q.reserved + 1, alive := q.alive - {w}, granted := q.granted + [w]))
              else
                Woken(q) == Woken(popped) == Woken(Woken(popped))
    {
      WokenIsFinal(q.(waiters := q.waiters[1..]));
    }

    static lemma {:induction false} WokenIsFinal(q: Queue)
      ensures Woken(Woken(q)) == Woken(q)
      decreases |q.waiters|
    {
      if q.FreeSlots() != 0 && q.waiters != [] {
        var w := q.waiters[0];
        var popped := q.(waiters := q.waiters[1..]);
        WokenIsFinal(popped.(reserved := q.reserved + 1, alive := q.alive - {w}, granted := q.granted + [w]));
        WokenIsFinal(popped);
      }
    }

    /** Dropping a permit gives the reservation back and wakes the next waiters. */
    method ReleasePermit()
      requires Valid() && reserved > 0
      modifies `reserved, `waiters, `alive, `granted, `lastAdvance, `busyIntegral, `capacityIntegral
      ensures Valid() && View() == Woken(old(View().(reserved := reserved - 1)))
      decreases |waiters|, 2
    {
      AdvanceIntegrals();
      reserved := Max(reserved - 1, 0);
      WakeFreeWaiters();
    }

    /** The fast path takes a slot; otherwise the caller joins the back of the queue. */
    method Acquire(w: Waiter) returns (now: bool)
      requires Valid() && w !in waiters
      modifies `reserved, `waiters, `alive, `lastAdvance, `busyIntegral, `capacityIntegral
      ensures Valid() && now == (old(View()).FreeSlots() > 0)
      ensures View() == if now then old(View().(reserved := reserved + 1))
                        else old(View().(waiters := waiters + [w], alive := alive + {w}))
    {
      now := Free(capacity, reserved, known) > 0;
      if now {
        Reserve();
      } else {
        waiters := waiters + [w];
        alive := alive + {w};
      }
    }

    method Drain(updates: seq<(SlotId, SlotState)>, reported: Option<u32>)
      requires Valid()
      modifies `capacity, `known, `reserved, `waiters, `alive, `granted,
               `lastAdvance, `busyIntegral, `capacityIntegral
      ensures Valid()
      ensures View() == Woken(old(View()).(known := Protocol.Updated(old(known), updates),
                                           capacity := if reported.Some? then reported.value else old(capacity)))
    {
      AdvanceIntegrals();
      for k := 0 to |updates|
        invariant Valid() && lastAdvance == clock
        invariant View() == old(View()).(known := Protocol.Updated(old(known), updates[..k]))
      {
        assert updates[..k + 1][..k] == updates[..k];
        known := known[updates[k].0 := updates[k].1];
      }
      assert updates[..|updates|] == updates;
      if reported.Some? { capacity := reported.value; }
      WakeFreeWaiters();
    }

    /** Exact slot-time up to now; the busy share never exceeds the available share. */
    method Utilization() returns (busy: nat, available: nat)
      requires Valid()
      modifies `lastAdvance, `busyIntegral, `capacityIntegral
      ensures Valid() && busy == busyArea && available == capacityArea && busy <= available
    {
      AdvanceIntegrals();
      return busyIntegral, capacityIntegral;
    }
  }
}
