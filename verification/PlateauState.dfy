/** The detector and the ladder as the objects the experiment loop updates. */
module PlateauState {
  import opened Base
  import opened PlateauRules
  import Spec = PlateauRules

  class StallDetector {
    var windowN: u32
    var epsilon: real
    var observations: u64
    var bestScore: Option<real>
    var sinceImprovement: u64
    var completedWindows: u64

    ghost function View(): Detector
      reads this
    {
      Detector(windowN, epsilon, observations, bestScore, sinceImprovement, completedWindows)
    }

    constructor (windowN: u32, epsilon: real)
      ensures View() == FreshDetector(windowN, epsilon)
    {
      this.windowN, this.epsilon := windowN, epsilon;
      observations, bestScore, sinceImprovement, completedWindows := 0, None, 0, 0;
    }

    method Observe(score: real) returns (o: Observation)
      modifies this
      ensures View() == Spec.Observe(old(View()), score)
      ensures o == Report(old(View()), score)
    {
      observations := Min(observations + 1, U64_MAX);
      var index := observations - 1;
      var improved := false;
      match bestScore {
        case Some(best) =>
          if score > best + epsilon {
            bestScore := Some(score);
            sinceImprovement := 0;
            completedWindows := 0;
            improved := true;
          } else {
            sinceImprovement := Min(sinceImprovement + 1, U64_MAX);
            if windowN == 0 {
              completedWindows := 0;
            } else {
              completedWindows := sinceImprovement / windowN;
            }
          }
        case None =>
          bestScore := Some(score);
          improved := true;
      }
      var completedNewWindow :=
        !improved && windowN > 0 && sinceImprovement > 0 && sinceImprovement % windowN == 0;
      o := Observation(index, score, bestScore.value, improved, sinceImprovement, completedWindows,
                       completedWindows > 0, completedNewWindow);
    }
  }

  class EscalationLadder {
    const maxLevel: Level
    var level: Level
    var featureMapVersion: u32

    ghost function View(): Ladder
      reads this
    {
      Ladder(maxLevel, level, featureMapVersion)
    }

    constructor (maxLevel: Level)
      ensures View() == FreshLadder(maxLevel)
    {
      this.maxLevel := maxLevel;
      level, featureMapVersion := 0, 0;
    }

    method ApplyStallObservation(o: Observation)
      modifies this
      ensures View() == ApplyObservation(old(View()), o)
    {
      if o.improved {
        level := 0;
      } else if o.completedNewWindow {
        var capped := Min(o.windows, maxLevel);
        SetLevel(capped);
      }
    }

    method SetLevel(requested: Level)
      modifies this
      ensures View() == Spec.SetLevel(old(View()), requested)
    {
      var next := Max(level, Min(requested, maxLevel));
      if level < 4 && next >= 4 { featureMapVersion := Min(featureMapVersion + 1, U32_MAX); }
      level := next;
    }
  }
}
