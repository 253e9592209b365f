/**
  The drop-oldest telemetry ring (crates/orch-server/src/events.rs) in front of a
  sink that may accept or refuse any attempt.
 */
module EventRing {
  import opened Base

  datatype Envelope = Envelope(seqNo: nat, body: nat)

  datatype Fate = Delivered | Dropped

  /** The sink's answer to its n-th call. */
  type Sink = nat -> bool

  /**
    The emitter, plus what an observer outside could record: every envelope ever
    made, what became of those no longer in the ring, and what the sink received.
   */
  datatype Emitter = Emitter(nextSeq: nat, ring: seq<Envelope>, capacity: nat, droppedTotal: nat, calls: nat,
                             received: seq<Envelope>, made: seq<Envelope>, fates: seq<Fate>)

  function FreshEmitter(capacity: nat): Emitter { Emitter(1, [], Max(capacity, 1), 0, 0, [], [], []) }

  function DeliverOldest(e: Emitter): Emitter
    requires e.ring != []
  {
    e.(ring := e.ring[1..], received := e.received + [e.ring[0]], fates := e.fates + [Delivered], calls := e.calls + 1)
  }

  /** Offers the ring oldest first until it is empty or the sink refuses. */
  function Flush(e: Emitter, sink: Sink): Emitter
    decreases |e.ring|
  {
    if e.ring == [] then e
    else if sink(e.calls) then Flush(DeliverOldest(e), sink)
    else e.(calls := e.calls + 1)
  }

  function DropOldest(e: Emitter): Emitter {
    if e.ring == [] || |e.ring| != e.capacity then e
    else e.(ring := e.ring[1..], droppedTotal := e.droppedTotal + 1, fates := e.fates + [Dropped])
  }

  function Push(e: Emitter, body: nat): Emitter {
    var envelope := Envelope(e.nextSeq, body);
    e.(nextSeq := e.nextSeq + 1, ring := e.ring + [envelope], made := e.made + [envelope])
  }

  function Emit(e: Emitter, sink: Sink, body: nat): Emitter {
    Flush(Push(DropOldest(Flush(e, sink)), body), sink)
  }

  function Run(e: Emitter, sink: Sink, bodies: seq<nat>): Emitter {
    if bodies == [] then e else Emit(Run(e, sink, bodies[..|bodies| - 1]), sink, bodies[|bodies| - 1])
  }

  /** The envelopes with a given fate, in the order they were made. */
  function Chosen(made: seq<Envelope>, fates: seq<Fate>, f: Fate): seq<Envelope>
    requires |fates| <= |made|
  {
    if fates == [] then []
    else
      var last := |fates| - 1;
      Chosen(made, fates[..last], f) + if fates[last] == f then [made[last]] else []
  }

  /**
    Every envelope is in exactly one place: the sink has those marked delivered,
    in order; the counter has those marked dropped; the ring has the rest, which
    are the newest.
   */
  ghost predicate Inv(e: Emitter) {
    && 1 <= e.capacity && |e.ring| <= e.capacity
    && |e.made| == e.nextSeq - 1 && (forall i :: 0 <= i < |e.made| ==> e.made[i].seqNo == i + 1)
    && |e.fates| <= |e.made| && e.ring == e.made[|e.fates|..]
    && e.received == Chosen(e.made, e.fates, Delivered)
    && e.droppedTotal == |Chosen(e.made, e.fates, Dropped)|
  }

  lemma {:induction false} ChosenIgnoresNewer(made: seq<Envelope>, more: seq<Envelope>, fates: seq<Fate>, f: Fate)
    requires |fates| <= |made|
    ensures Chosen(made + more, fates, f) == Chosen(made, fates, f)
  {
    if fates == [] {
    } else {
      ChosenIgnoresNewer(made, more, fates[..|fates| - 1], f);
    }
  }

  lemma {:induction false} FlushKeepsInv(e: Emitter, sink: Sink)
    requires Inv(e)
    ensures Inv(Flush(e, sink))
    decreases |e.ring|
  {
    if e.ring != [] && sink(e.calls) {
      assert (e.fates + [Delivered])[..|e.fates|] == e.fates;
      FlushKeepsInv(DeliverOldest(e), sink);
    }
  }

  lemma {:induction false} FlushKeepsMade(e: Emitter, sink: Sink)
    ensures Flush(e, sink).(ring := [], received := [], fates := [], calls := 0)
         == e.(ring := [], received := [], fates := [], calls := 0)
    decreases |e.ring|
  {
    if e.ring != [] && sink(e.calls) { FlushKeepsMade(DeliverOldest(e), sink); }
  }

  /** Flushing does not look at the number given to the next event. */
  lemma {:induction false} FlushIgnoresCounter(e: Emitter, sink: Sink, n: nat)
    ensures Flush(e.(nextSeq := n), sink) == Flush(e, sink).(nextSeq := n)
    decreases |e.ring|
  {
    if e.ring != [] && sink(e.calls) { FlushIgnoresCounter(DeliverOldest(e), sink, n); }
  }

  lemma {:induction false} DropKeepsInv(e: Emitter)
    requires Inv(e)
    ensures Inv(DropOldest(e)) && |DropOldest(e).ring| < e.capacity
  {
    if |e.ring| == e.capacity {
      assert (e.fates + [Dropped])[..|e.fates|] == e.fates;
    }
  }

  lemma {:induction false} PushKeepsInv(e: Emitter, body: nat)
    requires Inv(e) && |e.ring| < e.capacity
    ensures Inv(Push(e, body))
  {
    var envelope := Envelope(e.nextSeq, body);
    ChosenIgnoresNewer(e.made, [envelope], e.fates, Delivered);
    ChosenIgnoresNewer(e.made, [envelope], e.fates, Dropped);
  }

  lemma {:induction false} EmitKeepsInv(e: Emitter, sink: Sink, body: nat)
    requires Inv(e)
    ensures Inv(Emit(e, sink, body))
  {
    FlushKeepsInv(e, sink);
    DropKeepsInv(Flush(e, sink));
    PushKeepsInv(DropOldest(Flush(e, sink)), body);
    FlushKeepsInv(Push(DropOldest(Flush(e, sink)), body), sink);
  }

  lemma {:induction false} ChosenCounts(made: seq<Envelope>, fates: seq<Fate>)
    requires |fates| <= |made|
    ensures |Chosen(made, fates, Delivered)| + |Chosen(made, fates, Dropped)| == |fates|
  {
    if fates == [] {
    } else {
      ChosenCounts(made, fates[..|fates| - 1]);
    }
  }

  /** A selection keeps the order, and a number below `bound` is chosen with at most one fate. */
  lemma {:induction false} ChosenAscends(made: seq<Envelope>, fates: seq<Fate>, f: Fate)
    requires |fates| <= |made| && forall i :: 0 <= i < |made| ==> made[i].seqNo == i + 1
    ensures forall i, j :: 0 <= i < j < |Chosen(made, fates, f)| ==>
              Chosen(made, fates, f)[i].seqNo < Chosen(made, fates, f)[j].seqNo
    ensures forall i :: 0 <= i < |Chosen(made, fates, f)| ==>
              var n := Chosen(made, fates, f)[i].seqNo; 1 <= n <= |fates| && fates[n - 1] == f
  {
    if fates == [] {
    } else {
      ChosenAscends(made, fates[..|fates| - 1], f);
    }
  }

  lemma {:induction false} EmitMakesOne(e: Emitter, sink: Sink, body: nat)
    ensures var n := Emit(e, sink, body);
            n.capacity == e.capacity && n.made == e.made + [Envelope(e.nextSeq, body)]
  {
    FlushKeepsMade(e, sink);
    FlushKeepsMade(Push(DropOldest(Flush(e, sink)), body), sink);
  }

  function Numbered(bodies: seq<nat>): (r: seq<Envelope>)
    ensures |r| == |bodies|
  {
    if bodies == [] then [] else Numbered(bodies[..|bodies| - 1]) + [Envelope(|bodies|, bodies[|bodies| - 1])]
  }

  /** A run makes one envelope per event, in order. */
  lemma {:induction false} RunMakes(capacity: nat, sink: Sink, bodies: seq<nat>)
    ensures var e := Run(FreshEmitter(capacity), sink, bodies);
            && Inv(e) && e.capacity == Max(capacity, 1)
            && e.made == Numbered(bodies)
  {
    if bodies == [] {
    } else {
      var init, last := bodies[..|bodies| - 1], bodies[|bodies| - 1];
      RunMakes(capacity, sink, init);
      var e := Run(FreshEmitter(capacity), sink, init);
      assert Run(FreshEmitter(capacity), sink, bodies) == Emit(e, sink, last);
      EmitKeepsInv(e, sink, last);
      EmitMakesOne(e, sink, last);
    }
  }

  /**
    Delivered plus pending plus dropped is everything made; delivered sequence
    numbers strictly increase; the ring is the newest contiguous run; nothing is
    both delivered and dropped.
   */
  ghost predicate Conserves(e: Emitter) {
    && |e.fates| <= |e.made|
    && |e.received| + |e.ring| + e.droppedTotal == |e.made|
    && (forall i, j :: 0 <= i < j < |e.received| ==> e.received[i].seqNo < e.received[j].seqNo)
    && (forall i :: 0 <= i < |e.ring| ==> e.ring[i].seqNo == |e.made| - |e.ring| + i + 1)
    && (var dropped := Chosen(e.made, e.fates, Dropped);
        && e.droppedTotal == |dropped|
        && forall i, j :: 0 <= i < |e.received| && 0 <= j < |dropped| ==> e.received[i] != dropped[j])
  }

  lemma {:induction false} InvConserves(e: Emitter)
    requires Inv(e)
    ensures Conserves(e)
  {
    ChosenCounts(e.made, e.fates);
    ChosenAscends(e.made, e.fates, Delivered);
    ChosenAscends(e.made, e.fates, Dropped);
  }

  /** For every sink behaviour and every sequence of events nothing is lost track of, in a bounded ring. */
  lemma {:induction false} RingConserves(capacity: nat, sink: Sink, bodies: seq<nat>)
    ensures var e := Run(FreshEmitter(capacity), sink, bodies);
            Conserves(e) && |e.made| == |bodies| && |e.ring| <= Max(capacity, 1)
  {
    RunMakes(capacity, sink, bodies);
    InvConserves(Run(FreshEmitter(capacity), sink, bodies));
  }
}
