/**
  Stall detection and the escalation ladder (crates/orch-core/src/plateau.rs).
  Scores are reals; the counters saturate where the code saturates them.
 */
module PlateauRules {
  import opened Base

  type Level = x: int | 0 <= x <= 4

  datatype Detector = Detector(windowN: u32, epsilon: real, observations: u64, best: Option<real>,
                               since: u64, windows: u64)

  datatype Observation = Observation(index: u64, score: real, best: real, improved: bool, since: u64,
                                     windows: u64, stalled: bool, completedNewWindow: bool)

  datatype Ladder = Ladder(maxLevel: Level, level: Level, version: u32)

  function Add64(a: u64, b: u64): u64 { Min(a + b, U64_MAX) }

  function FreshDetector(windowN: u32, epsilon: real): Detector { Detector(windowN, epsilon, 0, None, 0, 0) }

  function FreshLadder(maxLevel: Level): Ladder { Ladder(maxLevel, 0, 0) }

  predicate Improves(d: Detector, score: real) { d.best.None? || score > d.best.value + d.epsilon }

  function Observe(d: Detector, score: real): Detector {
    var counted := d.(observations := Add64(d.observations, 1));
    if d.best.None? then counted.(best := Some(score))
    else if Improves(d, score) then counted.(best := Some(score), since := 0, windows := 0)
    else
      var since := Add64(d.since, 1);
      counted.(since := since, windows := if d.windowN == 0 then 0 else since / d.windowN)
  }

  /** What `observe` reports about the step from `d`. */
  function Report(d: Detector, score: real): Observation {
    var after := Observe(d, score);
    Observation(Max(after.observations - 1, 0), score, after.best.value, Improves(d, score), after.since, after.windows,
                after.windows > 0,
                !Improves(d, score) && d.windowN > 0 && after.since > 0 && after.since % d.windowN == 0)
  }

  function SetLevel(l: Ladder, requested: Level): Ladder {
    var next := Max(l.level, Min(requested, l.maxLevel));
    l.(level := next, version := if l.level < 4 && next >= 4 then Min(l.version + 1, U32_MAX) else l.version)
  }

  function SetCompletedWindows(l: Ladder, windows: u64): Ladder { SetLevel(l, Min(windows, l.maxLevel)) }

  function ApplyObservation(l: Ladder, o: Observation): Ladder {
    if o.improved then l.(level := 0)
    else if o.completedNewWindow then SetCompletedWindows(l, o.windows)
    else l
  }

  datatype Plateau = Plateau(detector: Detector, ladder: Ladder)

  function Step(p: Plateau, score: real): Plateau {
    Plateau(Observe(p.detector, score), ApplyObservation(p.ladder, Report(p.detector, score)))
  }

  function Run(p: Plateau, scores: seq<real>): Plateau {
    if scores == [] then p else Step(Run(p, scores[..|scores| - 1]), scores[|scores| - 1])
  }

  function Fresh(windowN: u32, epsilon: real, maxLevel: Level): Plateau {
    Plateau(FreshDetector(windowN, epsilon), FreshLadder(maxLevel))
  }

  // ------------------------------------------------------------------
  // Whole runs
  // ------------------------------------------------------------------

  /** The level follows the completed windows. */
  ghost predicate CountersAgree(p: Plateau)
    requires 1 <= p.detector.windowN
  {
    && (p.detector.best.None? ==> p.detector.since == 0)
    && p.detector.windows == p.detector.since / p.detector.windowN
    && p.ladder.level == Min(p.detector.windows, p.ladder.maxLevel)
  }

  /** The best score was seen, and nothing seen beats it by more than epsilon. */
  ghost predicate BestOf(d: Detector, scores: seq<real>) {
    && d.observations == Min(|scores|, U64_MAX)
    && (d.best.None? <==> scores == [])
    && (d.best.Some? ==> d.best.value in scores)
    && (forall i :: 0 <= i < |scores| ==> d.best.Some? && scores[i] <= d.best.value + d.epsilon)
  }

  ghost predicate Inv(p: Plateau, windowN: u32, epsilon: real, maxLevel: Level, scores: seq<real>)
    requires 1 <= windowN
  {
    && p.detector.windowN == windowN && p.detector.epsilon == epsilon && p.ladder.maxLevel == maxLevel
    && CountersAgree(p)
    && BestOf(p.detector, scores)
  }

  lemma {:induction false} MultipleIsLarge(x: int, w: nat)
    requires x != 0
    ensures x * w <= 0 - w || w <= x * w
  {
    if x > 0 { assert 0 <= (x - 1) * w; } else { assert 0 <= (-x - 1) * w; }
  }

  lemma {:induction false} DivisionRemainder(q: nat, w: nat, r: nat)
    requires r < w
    ensures (q * w + r) / w == q && (q * w + r) % w == r
  {
    var n := q * w + r;
    var a, b := n / w, n % w;
    assert n == a * w + b;
    assert (a - q) * w == r - b;
    if a != q {
      MultipleIsLarge(a - q, w);
      assert false;
    }
  }

  lemma {:induction false} DivisionExact(q: nat, w: nat)
    requires 0 < w
    ensures (q * w) / w == q && (q * w) % w == 0
  {
    DivisionRemainder(q, w, 0);
  }

  lemma {:induction false} DivisionSteps(since: nat, w: nat)
    requires 0 < w
    ensures (since + 1) / w == since / w + if (since + 1) % w == 0 then 1 else 0
  {
    var q, r := since / w, since % w;
    assert since == q * w + r;
    if r == w - 1 {
      assert since + 1 == (q + 1) * w;
      DivisionExact(q + 1, w);
    } else {
      assert since + 1 == q * w + (r + 1);
      DivisionRemainder(q, w, r + 1);
    }
  }

  lemma {:induction false} StepKeepsCounters(p: Plateau, score: real)
    requires 1 <= p.detector.windowN && CountersAgree(p)
    ensures CountersAgree(Step(p, score))
  {
    DivisionSteps(p.detector.since, p.detector.windowN);
  }

  lemma {:induction false} ObserveKeepsBest(d: Detector, scores: seq<real>, score: real)
    requires 0.0 <= d.epsilon && BestOf(d, scores)
    ensures BestOf(Observe(d, score), scores + [score])
  {
    var n := Observe(d, score);
    assert (scores + [score])[|scores|] == score;
    forall i | 0 <= i < |scores| + 1 ensures (scores + [score])[i] <= n.best.value + d.epsilon {
      if i < |scores| { assert scores[i] <= d.best.value + d.epsilon; }
    }
  }

  /**
    Fed every observation from the start: the level is the completed stall
    windows capped at the maximum, the best score was really seen, and every
    score seen is at most `best + epsilon`.
   */
  lemma {:induction false} LadderTracksStalls(windowN: u32, epsilon: real, maxLevel: Level, scores: seq<real>)
    requires 1 <= windowN && 0.0 <= epsilon
    ensures Inv(Run(Fresh(windowN, epsilon, maxLevel), scores), windowN, epsilon, maxLevel, scores)
  {
    if scores == [] {
      assert 0 / windowN == 0;
    } else {
      var init := scores[..|scores| - 1];
      LadderTracksStalls(windowN, epsilon, maxLevel, init);
      var p := Run(Fresh(windowN, epsilon, maxLevel), init);
      StepKeepsCounters(p, scores[|scores| - 1]);
      ObserveKeepsBest(p.detector, init, scores[|scores| - 1]);
      assert scores == init + [scores[|scores| - 1]];
    }
  }

  /** Observations not yet paid for a map version: a climb in progress is worth its length plus its improvement. */
  function Spent(p: Plateau): nat {
    if p.detector.best.Some? && p.ladder.level < 4 then p.detector.since + 1 else 0
  }

  lemma {:induction false} FourWindows(since: nat, w: nat)
    requires 0 < w && 4 <= since / w
    ensures 4 * w <= since
  {
    var q, r := since / w, since % w;
    assert since == q * w + r;
    assert 4 * w <= q * w;
  }

  lemma {:induction false} VersionStep(p: Plateau, n: nat, price: nat, windowN: u32, epsilon: real, maxLevel: Level,
                                       scores: seq<real>, score: real)
    requires 1 <= windowN && 0.0 <= epsilon
    requires Inv(p, windowN, epsilon, maxLevel, scores)
    requires price == 4 * windowN + 1
    requires p.ladder.version * price + Spent(p) <= n
    ensures Step(p, score).ladder.version * price + Spent(Step(p, score)) <= n + 1
  {
    var d, next := p.detector, Step(p, score);
    DivisionSteps(d.since, windowN);
    if next.ladder.version != p.ladder.version {
      assert next.ladder.version * price == p.ladder.version * price + price;
      assert d.since / windowN < 4 && next.detector.since / windowN >= 4;
      assert d.since < U64_MAX;
      FourWindows(next.detector.since, windowN);
    }
  }

  /** A map version costs at least four full stall windows and the improvement before them. */
  lemma {:induction false} VersionBound(windowN: u32, epsilon: real, maxLevel: Level, scores: seq<real>)
    requires 1 <= windowN && 0.0 <= epsilon
    ensures var p := Run(Fresh(windowN, epsilon, maxLevel), scores);
            p.ladder.version * (4 * windowN + 1) + Spent(p) <= |scores|
  {
    if scores == [] {
    } else {
      var init := scores[..|scores| - 1];
      VersionBound(windowN, epsilon, maxLevel, init);
      LadderTracksStalls(windowN, epsilon, maxLevel, init);
      VersionStep(Run(Fresh(windowN, epsilon, maxLevel), init), |init|, 4 * windowN + 1,
                  windowN, epsilon, maxLevel, init, scores[|scores| - 1]);
    }
  }

  // ------------------------------------------------------------------
  // Through a checkpoint
  // ------------------------------------------------------------------

  datatype Checkpoint = Checkpoint(observations: u64, best: Option<real>, since: u64, windows: u64,
                                   level: Level, version: u32)

  function Save(p: Plateau): Checkpoint {
    Checkpoint(p.detector.observations, p.detector.best, p.detector.since, p.detector.windows,
               p.ladder.level, p.ladder.version)
  }

  /** The knobs come from the configuration, the counters from the checkpoint. */
  function Restore(windowN: u32, epsilon: real, maxLevel: Level, c: Checkpoint): Plateau {
    Plateau(Detector(windowN, epsilon, c.observations, c.best, c.since, c.windows),
            Ladder(maxLevel, c.level, c.version))
  }

  lemma {:induction false} RunComposes(p: Plateau, a: seq<real>, b: seq<real>)
    ensures Run(p, a + b) == Run(Run(p, a), b)
  {
    if b == [] {
      assert a + b == a;
    } else {
      assert (a + b)[..|a + b| - 1] == a + b[..|b| - 1];
      RunComposes(p, a, b[..|b| - 1]);
    }
  }

  lemma {:induction false} RunKeepsKnobs(p: Plateau, scores: seq<real>)
    ensures var q := Run(p, scores);
            && q.detector.windowN == p.detector.windowN && q.detector.epsilon == p.detector.epsilon
            && q.ladder.maxLevel == p.ladder.maxLevel
  {
    if scores == [] {
    } else {
      RunKeepsKnobs(p, scores[..|scores| - 1]);
    }
  }

  /** Cutting a run anywhere and resuming from the saved counters changes nothing. */
  lemma {:induction false} ResumeChangesNothing(windowN: u32, epsilon: real, maxLevel: Level, before: seq<real>,
                                                after: seq<real>)
    ensures var whole := Run(Fresh(windowN, epsilon, maxLevel), before + after);
            var cut := Save(Run(Fresh(windowN, epsilon, maxLevel), before));
            Run(Restore(windowN, epsilon, maxLevel, cut), after) == whole
  {
    RunComposes(Fresh(windowN, epsilon, maxLevel), before, after);
    RunKeepsKnobs(Fresh(windowN, epsilon, maxLevel), before);
  }
}
