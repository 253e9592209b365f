/** The emitter itself, updated in place. */
module EventEmitterState {
  import opened Base
  import opened EventRing
  import Spec = EventRing

  class EventEmitter {
    const sink: Sink
    var nextSeq: nat
    var ring: seq<Envelope>
    var capacity: nat
    var droppedTotal: nat
    var calls: nat
    var received: seq<Envelope>
    ghost var made: seq<Envelope>
    ghost var fates: seq<Fate>

    ghost function View(): Emitter
      reads this
    {
      Emitter(nextSeq, ring, capacity, droppedTotal, calls, received, made, fates)
    }

    constructor (sink: Sink, capacity: nat)
      ensures this.sink == sink && View() == FreshEmitter(capacity)
    {
      this.sink := sink;
      nextSeq, ring, droppedTotal, calls, received := 1, [], 0, 0, [];
      this.capacity := Max(capacity, 1);
      made, fates := [], [];
    }

    /** The sink call: it either takes the envelope or refuses it. */
    method SinkEmit(envelope: Envelope) returns (ok: bool)
      modifies `calls, `received
      ensures ok == sink(old(calls)) && calls == old(calls) + 1
      ensures received == old(received) + if ok then [envelope] else []
    {
      ok := sink(calls);
      calls := calls + 1;
      if ok { received := received + [envelope]; }
    }

    method Flush()
      modifies `ring, `calls, `received, `fates
      ensures View() == Spec.Flush(old(View()), sink)
    {
      while ring != []
        invariant Spec.Flush(View(), sink) == Spec.Flush(old(View()), sink)
        decreases |ring|
      {
        var ok := SinkEmit(ring[0]);
        if !ok { break; }
        ring := ring[1..];
        fates := fates + [Delivered];
      }
    }

    method Emit(body: nat)
      requires 1 <= capacity
      modifies `nextSeq, `ring, `droppedTotal, `calls, `received, `made, `fates
      ensures View() == Spec.Emit(old(View()), sink, body)
    {
      var envelope := Envelope(nextSeq, body);
      nextSeq := nextSeq + 1;
      FlushIgnoresCounter(old(View()), sink, nextSeq);
      FlushKeepsMade(old(View()), sink);
      Flush();
      Enqueue(envelope);
      Flush();
    }

    /** Makes room by dropping the oldest, then appends. */
    method Enqueue(envelope: Envelope)
      requires 1 <= capacity
      modifies `ring, `droppedTotal, `made, `fates
      ensures View() == DropOldest(old(View())).(ring := DropOldest(old(View())).ring + [envelope],
                                                 made := old(made) + [envelope])
    {
      if |ring| == capacity {
        ring := ring[1..];
        droppedTotal := droppedTotal + 1;
        fates := fates + [Dropped];
      }
      ring := ring + [envelope];
      made := made + [envelope];
    }
  }
}
