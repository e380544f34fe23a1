/** The anomaly detector driven by `detect_anomalies_with_visualization`
    (main.py:97-302), with the widgets, the plot, the timer and the console
    output removed: the argument check, and the bookkeeping that the `update`
    closure does for each new value of the stream. */
module Detection {
  import opened Results
  import opened Reals
  import opened Statistics

  datatype Config = Config(windowSize: int, threshold: real)

  /** A configuration that the check of main.py:109-110 accepts. */
  type ValidConfig = c: Config | c.windowSize >= 1 && c.threshold > 0.0 witness Config(1, 1.0)

  const ConfigMessage := "Window size and Z-score threshold must be positive values."

  /** main.py:109-110: a non-positive window size or threshold raises
      `ValueError`; otherwise the arguments are accepted unchanged. */
  function CheckConfig(windowSize: int, threshold: real): (r: Result<ValidConfig, ArgError>)
    ensures r.Success? <==> windowSize > 0 && threshold > 0.0
    ensures r.Success? ==> r.value == Config(windowSize, threshold)
    ensures r.Failure? ==> r.error == InvalidArgument(ConfigMessage)
  {
    if windowSize <= 0 || threshold <= 0.0 then Failure(InvalidArgument(ConfigMessage))
    else Success(Config(windowSize, threshold))
  }

  /** An entry of `anomaly_points`: the time index, the value and the z-score
      of a point found anomalous. */
  datatype Anomaly = Anomaly(frame: nat, value: real, z: real)

  /** What one tick passes to the data table: the time index, the value, the
      z-score (absent while data is still being collected) and the anomaly flag. */
  datatype Tick = Tick(frame: nat, value: real, z: Option<real>, isAnomaly: bool)

  /** The z-score of the newest point of the history `h`, computed against the
      trailing window of `h`, which contains that point; None while `h` holds
      no more than window-size points. */
  function Score(h: seq<real>, cfg: ValidConfig, root: real -> real): (z: Option<real>)
    ensures z.Some? <==> |h| > cfg.windowSize
  {
    if |h| <= cfg.windowSize then None
    else
      var mean := MovingAverage(h, cfg.windowSize).value;
      var sd := StandardDeviation(h, cfg.windowSize, root).value;
      Some(ZScore(h[|h| - 1], mean, sd))
  }

  /** Once the history is longer than the window, the newest point is scored
      against exactly the last window-size points, which end with that point. */
  lemma ScoreWindow(h: seq<real>, cfg: ValidConfig, root: real -> real)
    requires |h| > cfg.windowSize
    ensures var w := h[|h| - cfg.windowSize..];
            && TrailingWindow(h, cfg.windowSize) == w
            && |w| == cfg.windowSize && w[|w| - 1] == h[|h| - 1]
            && Score(h, cfg, root) ==
               Some(ZScore(h[|h| - 1], Mean(w).value, root(Variance(w).value)))
  {
    var w := h[|h| - cfg.windowSize..];
    assert TrailingWindow(h, cfg.windowSize) == w;
  }

  /** The detector's scoring rule as a function of the history. */
  function ScoreRule(cfg: ValidConfig, root: real -> real): seq<real> -> Option<real>
  {
    h => Score(h, cfg, root)
  }

  // The anomaly list is built the same way for any scoring rule `score` that
  // gives the z-score (or None) of the newest point of a history; the lemmas
  // below are stated for such a rule, and the detector uses `ScoreRule`.

  /** The entry recorded for the newest point of `h`, whose score is `z`. */
  function NewEntry(h: seq<real>, threshold: real, z: Option<real>): seq<Anomaly>
    requires |h| > 0
  {
    if z.Some? && IsAnomaly(z.value, threshold) then [Anomaly(|h| - 1, h[|h| - 1], z.value)] else []
  }

  /** The anomaly list that feeding the values of `h` one by one produces:
      the reference that the detector's state is proved against. */
  function Collect(h: seq<real>, threshold: real, score: seq<real> -> Option<real>): seq<Anomaly>
    decreases |h|
  {
    if |h| == 0 then [] else Collect(h[..|h| - 1], threshold, score) + NewEntry(h, threshold, score(h))
  }

  /** Appending one value adds at most the entry for that value. */
  lemma CollectStep(h: seq<real>, x: real, threshold: real, score: seq<real> -> Option<real>)
    ensures Collect(h + [x], threshold, score) ==
            Collect(h, threshold, score) + NewEntry(h + [x], threshold, score(h + [x]))
  {
    assert (h + [x])[..|h|] == h;
  }

  /** Point `i` of `h` is an anomaly: it is scored against the history up to
      and including it, and its |z| exceeds the threshold. */
  ghost predicate FlaggedAt(h: seq<real>, i: int, threshold: real, score: seq<real> -> Option<real>)
  {
    0 <= i < |h| && score(h[..i + 1]).Some? && IsAnomaly(score(h[..i + 1]).value, threshold)
  }

  /** `e` records a flagged point of `h` with that point's own time index,
      value and z-score. */
  ghost predicate EntryOf(h: seq<real>, e: Anomaly, threshold: real, score: seq<real> -> Option<real>)
  {
    && e.frame < |h| && e.value == h[e.frame]
    && score(h[..e.frame + 1]) == Some(e.z)
    && IsAnomaly(e.z, threshold)
  }

  /** Nothing is recorded while no prefix of the history is scored. */
  lemma {:induction false} CollectUnscored(h: seq<real>, threshold: real, score: seq<real> -> Option<real>)
    requires forall k :: 0 < k <= |h| ==> score(h[..k]).None?
    ensures Collect(h, threshold, score) == []
  {
    if |h| > 0 {
      var h' := h[..|h| - 1];
      forall k | 0 < k <= |h'| ensures score(h'[..k]).None? {
        assert h'[..k] == h[..k];
      }
      CollectUnscored(h', threshold, score);
      assert h[..|h|] == h;
    }
  }

  /** While the history holds no more than window-size points the detector
      records nothing. */
  lemma DetectedDuringFill(h: seq<real>, cfg: ValidConfig, root: real -> real)
    requires |h| <= cfg.windowSize
    ensures Collect(h, cfg.threshold, ScoreRule(cfg, root)) == []
  {
    CollectUnscored(h, cfg.threshold, ScoreRule(cfg, root));
  }

  /** Entries, once recorded, are never altered: the anomalies of a prefix of
      the history are a prefix of the anomalies of the whole history. */
  lemma {:induction false} CollectPrefix(h: seq<real>, k: nat, threshold: real, score: seq<real> -> Option<real>)
    requires k <= |h|
    ensures |Collect(h[..k], threshold, score)| <= |Collect(h, threshold, score)|
    ensures Collect(h, threshold, score)[..|Collect(h[..k], threshold, score)|] == Collect(h[..k], threshold, score)
    decreases |h|
  {
    if k < |h| {
      var h' := h[..|h| - 1];
      CollectPrefix(h', k, threshold, score);
      assert h'[..k] == h[..k];
      var d', d := Collect(h', threshold, score), Collect(h, threshold, score);
      assert d[..|d'|] == d';
    } else {
      assert h[..k] == h;
    }
  }

  lemma EntryOfExtends(h: seq<real>, e: Anomaly, threshold: real, score: seq<real> -> Option<real>)
    requires |h| > 0 && EntryOf(h[..|h| - 1], e, threshold, score)
    ensures EntryOf(h, e, threshold, score)
  {
    assert h[..|h| - 1][..e.frame + 1] == h[..e.frame + 1];
  }

  /** Every recorded entry is a flagged point of the history, with that
      point's time index, value and z-score. */
  lemma {:induction false} CollectSound(h: seq<real>, threshold: real, score: seq<real> -> Option<real>)
    ensures forall j :: 0 <= j < |Collect(h, threshold, score)| ==>
              EntryOf(h, Collect(h, threshold, score)[j], threshold, score)
    decreases |h|
  {
    if |h| > 0 {
      var h' := h[..|h| - 1];
      CollectSound(h', threshold, score);
      var d', d := Collect(h', threshold, score), Collect(h, threshold, score);
      assert h[..|h|] == h;
      forall j | 0 <= j < |d| ensures EntryOf(h, d[j], threshold, score) {
        if j < |d'| {
          EntryOfExtends(h, d'[j], threshold, score);
        }
      }
    }
  }

  /** The entries are in strictly increasing time order. */
  lemma {:induction false} CollectOrdered(h: seq<real>, threshold: real, score: seq<real> -> Option<real>)
    ensures forall i, j :: 0 <= i < j < |Collect(h, threshold, score)| ==>
              Collect(h, threshold, score)[i].frame < Collect(h, threshold, score)[j].frame
    decreases |h|
  {
    if |h| > 0 {
      var h' := h[..|h| - 1];
      CollectOrdered(h', threshold, score);
      CollectSound(h', threshold, score);
      var d', d := Collect(h', threshold, score), Collect(h, threshold, score);
      forall i, j | 0 <= i < j < |d| ensures d[i].frame < d[j].frame {
        if j >= |d'| {
          assert EntryOf(h', d'[i], threshold, score);
        }
      }
    }
  }

  /** Every flagged point of the history has an entry. */
  lemma {:induction false} CollectComplete(h: seq<real>, i: int, threshold: real, score: seq<real> -> Option<real>)
    requires FlaggedAt(h, i, threshold, score)
    ensures exists j :: 0 <= j < |Collect(h, threshold, score)| && Collect(h, threshold, score)[j].frame == i
    decreases |h|
  {
    var h' := h[..|h| - 1];
    var d', d := Collect(h', threshold, score), Collect(h, threshold, score);
    if i == |h| - 1 {
      assert h[..i + 1] == h;
      assert d[|d| - 1].frame == i;
    } else {
      assert h'[..i + 1] == h[..i + 1];
      CollectComplete(h', i, threshold, score);
      var j :| 0 <= j < |d'| && d'[j].frame == i;
      assert d[j] == d'[j];
    }
  }

  /** Every time index equals its position: 0, 1, 2, ... */
  ghost predicate Indexed(t: seq<nat>)
  {
    forall i :: 0 <= i < |t| ==> t[i] == i
  }

  lemma IndexedAppend(t: seq<nat>)
    requires Indexed(t)
    ensures Indexed(t + [|t|])
  {
  }

  /** The detector's state: `time_points`, `data_points` and `anomaly_points`
      of main.py:158-160, with the accepted configuration and the square root
      used for the standard deviation. */
  class Detector {
    const config: ValidConfig
    const root: real -> real
    var timePoints: seq<nat>
    var dataPoints: seq<real>
    var anomalyPoints: seq<Anomaly>

    /** Each time index is the position of its value, and the anomaly list is
        exactly what the history so far produces. */
    ghost predicate Valid()
      reads this
    {
      && IsSqrt(root)
      && |timePoints| == |dataPoints|
      && Indexed(timePoints)
      && anomalyPoints == Collect(dataPoints, config.threshold, ScoreRule(config, root))
    }

    constructor (config: ValidConfig, root: real -> real)
      requires IsSqrt(root)
      ensures Valid()
      ensures this.config == config && this.root == root
      ensures timePoints == [] && dataPoints == [] && anomalyPoints == []
    {
      this.config := config;
      this.root := root;
      timePoints, dataPoints, anomalyPoints := [], [], [];
    }

    /** One tick of `update` (main.py:226-255) for the value `x` drawn from the
        stream: the value gets the next time index and is appended; once the
        history is longer than the window it is scored against the trailing
        window, which includes it, and recorded when |z| exceeds the threshold. */
    method Update(x: real) returns (tick: Tick)
      requires Valid()
      modifies this
      ensures Valid()
      ensures dataPoints == old(dataPoints) + [x]
      ensures timePoints == old(timePoints) + [|old(dataPoints)|]
      ensures tick.frame == |old(dataPoints)| && tick.value == x
      ensures tick.z == Score(dataPoints, config, root)
      ensures tick.z.None? <==> |dataPoints| <= config.windowSize
      ensures tick.isAnomaly <==> tick.z.Some? && IsAnomaly(tick.z.value, config.threshold)
      ensures anomalyPoints ==
                old(anomalyPoints) + (if tick.isAnomaly then [Anomaly(tick.frame, x, tick.z.value)] else [])
    {
      var frame := |dataPoints|;
      var h := dataPoints + [x];
      var z := Score(h, config, root);
      CollectStep(dataPoints, x, config.threshold, ScoreRule(config, root));
      assert ScoreRule(config, root)(h) == z;
      IndexedAppend(timePoints);
      var flagged := z.Some? && IsAnomaly(z.value, config.threshold);
      timePoints := timePoints + [frame];
      dataPoints := h;
      if flagged {
        anomalyPoints := anomalyPoints + [Anomaly(frame, x, z.value)];
      }
      tick := Tick(frame, x, z, flagged);
    }
  }

  /** main.py:109-112 and 158-160: the configuration is checked before any
      state exists; on success a detector with empty lists is created. */
  method Start(windowSize: int, threshold: real, root: real -> real)
    returns (r: Result<Detector, ArgError>)
    requires IsSqrt(root)
    ensures r.Success? <==> windowSize > 0 && threshold > 0.0
    ensures r.Failure? ==> r.error == InvalidArgument(ConfigMessage)
    ensures r.Success? ==>
              && fresh(r.value) && r.value.Valid()
              && r.value.config == Config(windowSize, threshold) && r.value.root == root
              && r.value.timePoints == [] && r.value.dataPoints == [] && r.value.anomalyPoints == []
  {
    var checked := CheckConfig(windowSize, threshold);
    match checked
    case Failure(e) =>
      r := Failure(e);
    case Success(cfg) =>
      var d := new Detector(cfg, root);
      r := Success(d);
  }
}
