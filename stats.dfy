/** The browser-side session statistics (static/js/stats.js): counters of
    detections and distances, a newest-first history capped at fifty
    entries, the read-only views derived from them, and the MM:SS formatter. */
module Stats {
  import opened Optional
  import opened Text
  import History

  const HISTORY_LIMIT: nat := 50

  /** A detection as the server sends it: the gesture may be missing, and
      the distance may be missing or not a number. */
  datatype Detection = Detection(gesture: Option<string>, distance: Option<real>)

  /** A history entry, stamped with the session time in seconds. */
  datatype StatEntry = StatEntry(gesture: string, distance: Option<real>, timestamp: nat)

  /** The object getStats returns. */
  datatype Snapshot = Snapshot(
    totalDetections: nat,
    sessionTime: nat,
    averageDistance: Option<int>,
    gestureHistory: seq<StatEntry>)

  /** recordDetection ignores a missing detection and a falsy gesture (a
      missing one or the empty string). */
  predicate Recordable(detection: Option<Detection>) {
    detection.Some? && detection.value.gesture.Some? && detection.value.gesture.value != ""
  }

  /** The history after one entry is recorded: unshift, then pop the last
      element if the list has grown past the limit. */
  function PushFront<T>(history: seq<T>, e: T): (r: seq<T>)
    ensures |history| <= HISTORY_LIMIT ==> |r| == History.Min(|history| + 1, HISTORY_LIMIT)
    ensures 1 <= |r| <= |history| + 1 && r[0] == e
    ensures r == ([e] + history)[..|r|]
  {
    var grown := [e] + history;
    if |grown| > HISTORY_LIMIT then grown[..|grown| - 1] else grown
  }

  function Reversed<T>(s: seq<T>): (r: seq<T>)
    ensures |r| == |s|
  {
    seq(|s|, i requires 0 <= i < |s| => s[|s| - 1 - i])
  }

  /** The browser's newest-first history is the server's oldest-first history
      read backwards: one unshift-and-pop is one append-and-pop(0) on the
      reversed list, since both caps are fifty. */
  lemma PushFrontMirrorsAppendEvict<T>(history: seq<T>, e: T)
    ensures Reversed(PushFront(history, e)) == History.AppendEvict(Reversed(history), e)
  {
    var lhs, rhs := Reversed(PushFront(history, e)), History.AppendEvict(Reversed(history), e);
    assert |lhs| == |rhs|;
    forall i | 0 <= i < |lhs|
      ensures lhs[i] == rhs[i]
    {
      var grown := [e] + history;
      if |grown| > HISTORY_LIMIT {
        assert rhs == (Reversed(history) + [e])[1..];
      }
    }
  }

  /** Math.round: the nearest integer, halves rounded up. */
  function RoundHalfUp(x: real): (r: int)
    ensures r as real - 0.5 <= x < r as real + 0.5
  {
    (x + 0.5).Floor
  }

  /** JavaScript's % on integers: the remainder takes the sign of the dividend. */
  function JsRemainder(a: int, b: int): int
    requires b > 0
  {
    if a >= 0 then a % b else -((-a) % b)
  }

  /** String.prototype.padStart(2, '0'). */
  function PadStart2(t: string): (r: string)
    decreases 2 - |t|
  {
    if |t| >= 2 then t else PadStart2("0" + t)
  }

  lemma {:induction false} PadStart2Digits(t: string)
    requires AllDigits(t)
    ensures AllDigits(PadStart2(t)) && DigitsValue(PadStart2(t)) == DigitsValue(t)
    ensures |PadStart2(t)| == if |t| >= 2 then |t| else 2
    decreases 2 - |t|
  {
    if |t| < 2 {
      DigitsValueLeadingZero(t);
      PadStart2Digits("0" + t);
    }
  }

  /** formatTime: whole minutes (Math.floor) and the remaining seconds, each
      padded to two characters. */
  function FormatTime(totalSeconds: int): string {
    PadStart2(IntText(totalSeconds / 60)) + ":" + PadStart2(IntText(JsRemainder(totalSeconds, 60)))
  }

  /** For a non-negative count of seconds the text is a minutes field of at
      least two digits, a colon, and a seconds field of exactly two digits;
      the fields read back as the minutes and the seconds below sixty, and
      together as the original count. */
  lemma FormatTimeFields(totalSeconds: nat)
    ensures var r := FormatTime(totalSeconds);
      |r| >= 5 && r[|r| - 3] == ':' &&
      var minutes, seconds := r[..|r| - 3], r[|r| - 2..];
      AllDigits(minutes) && |minutes| >= 2 && DigitsValue(minutes) == totalSeconds / 60 &&
      AllDigits(seconds) && |seconds| == 2 && DigitsValue(seconds) == totalSeconds % 60 &&
      DigitsValue(minutes) * 60 + DigitsValue(seconds) == totalSeconds
  {
    var m, s := totalSeconds / 60, totalSeconds % 60;
    var mm, ss := PadStart2(NatText(m)), PadStart2(NatText(s));
    PadStart2Digits(NatText(m));
    PadStart2Digits(NatText(s));
    DigitsValueOfNatText(m);
    DigitsValueOfNatText(s);
    var r := FormatTime(totalSeconds);
    assert r == mm + ":" + ss;
    assert r[..|r| - 3] == mm;
    assert r[|r| - 2..] == ss;
  }

  /** The module-level state of stats.js. */
  class SessionStats {
    var totalDetections: nat
    var sessionTime: nat
    var totalDistance: real
    var distanceSamples: nat
    var gestureHistory: seq<StatEntry>

    /** Every sample and every history entry came from a counted detection,
        and the history is within its limit. */
    ghost predicate Valid()
      reads this
    {
      && |gestureHistory| <= HISTORY_LIMIT
      && distanceSamples <= totalDetections
      && |gestureHistory| <= totalDetections
    }

    predicate Cleared()
      reads this
    {
      && totalDetections == 0 && sessionTime == 0
      && totalDistance == 0.0 && distanceSamples == 0
      && gestureHistory == []
    }

    /** The initial values of the module's variables. */
    constructor ()
      ensures Valid() && Cleared()
    {
      totalDetections, sessionTime := 0, 0;
      totalDistance, distanceSamples := 0.0, 0;
      gestureHistory := [];
    }

    /** resetState: every counter back to zero and the history emptied. */
    method ResetState()
      modifies this
      ensures Valid() && Cleared()
    {
      totalDetections := 0;
      sessionTime := 0;
      totalDistance := 0.0;
      distanceSamples := 0;
      gestureHistory := [];
    }

    /** recordDetection. */
    method RecordDetection(detection: Option<Detection>)
      requires Valid()
      modifies this
      ensures Valid()
      ensures !Recordable(detection) ==> unchanged(this)
      ensures Recordable(detection) ==>
        var d := detection.value;
        && totalDetections == old(totalDetections) + 1
        && sessionTime == old(sessionTime)
        && (d.distance.Some? ==>
              totalDistance == old(totalDistance) + d.distance.value &&
              distanceSamples == old(distanceSamples) + 1)
        && (d.distance.None? ==>
              totalDistance == old(totalDistance) && distanceSamples == old(distanceSamples))
        && gestureHistory ==
             PushFront(old(gestureHistory), StatEntry(d.gesture.value, d.distance, old(sessionTime)))
    {
      if detection.None? || detection.value.gesture.None? || detection.value.gesture.value == "" {
        return;
      }
      var d := detection.value;
      totalDetections := totalDetections + 1;
      if d.distance.Some? {
        totalDistance := totalDistance + d.distance.value;
        distanceSamples := distanceSamples + 1;
      }
      var entry := StatEntry(d.gesture.value, d.distance, sessionTime);
      gestureHistory := [entry] + gestureHistory;
      if |gestureHistory| > HISTORY_LIMIT {
        gestureHistory := gestureHistory[..|gestureHistory| - 1];
      }
    }

    /** calculateAverageDistance: null without samples, otherwise the mean
        rounded to the nearest integer. */
    function AverageDistance(): (avg: Option<int>)
      reads this
      ensures avg.None? <==> distanceSamples == 0
      ensures avg.Some? ==>
        var mean := totalDistance / (distanceSamples as real);
        avg.value as real - 0.5 <= mean < avg.value as real + 0.5
    {
      if distanceSamples == 0 then None
      else Some(RoundHalfUp(totalDistance / (distanceSamples as real)))
    }

    /** getStats: the counters, the average and the history. The history is
        a sequence value, so nothing done to the returned copy reaches the
        state. */
    function GetStats(): (s: Snapshot)
      reads this
      ensures s.totalDetections == totalDetections && s.sessionTime == sessionTime
      ensures s.gestureHistory == gestureHistory
      ensures s.averageDistance.None? <==> distanceSamples == 0
    {
      Snapshot(totalDetections, sessionTime, AverageDistance(), gestureHistory)
    }
  }
}
