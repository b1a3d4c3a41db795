/** The request path of the web API (api/flask_app.py): classify the first
    hand the tracker reports and record real detections in the history. */
module FlaskApi {
  import opened Gestures
  import opened History
  import opened Results

  /** What process_image returns for the hands found in one image: the
      no-hand sentinel; the caught IndexError of a first hand too short for
      the wrist and middle-finger MCP reads; or the first hand's gesture,
      distance and skeleton. */
  function ProcessResult(hands: seq<Hand>): DetectResult {
    if hands == [] then NoHand
    else if !DistancePointsReadable(hands[0].landmarks) then Failed(INDEX_ERROR)
    else Found(GestureOf(hands[0].landmarks), hands[0].distance, hands[0].landmarks)
  }

  method ProcessImage(hands: seq<Hand>) returns (r: DetectResult)
    ensures r == ProcessResult(hands)
    ensures r.NoHand? <==> hands == []
    ensures r.Failed? <==> hands != [] && |hands[0].landmarks| <= MIDDLE_FINGER_MCP
    ensures r.Found? ==> r.gesture in GESTURE_LABELS && r.handLandmarks == hands[0].landmarks
  {
    if hands != [] {
      var hand := hands[0];
      if !(WRIST < |hand.landmarks| && MIDDLE_FINGER_MCP < |hand.landmarks|) {
        return Failed(INDEX_ERROR);
      }
      var gesture := DetectGesture(hand.landmarks);
      GestureOfClosed(hand.landmarks);
      return Found(gesture, hand.distance, hand.landmarks);
    }
    return NoHand;
  }

  /** The route's admission rule: a truthy result with a gesture other than
      the no-hand sentinel. Error dictionaries carry no gesture. */
  predicate Admits(r: DetectResult) {
    r.Truthy() && r.GestureKey().Some? && r.GestureKey().value != NO_HAND_DETECTED
  }

  /** Exactly the images whose first hand has at least ten points are
      recorded, whatever gesture (including the fallback, for ten to twenty
      points) the hand was given. */
  lemma AdmitsIffHandFound(hands: seq<Hand>)
    ensures Admits(ProcessResult(hands)) <==> hands != [] && MIDDLE_FINGER_MCP < |hands[0].landmarks|
    ensures Admits(ProcessResult(hands)) && |hands[0].landmarks| <= PINKY_TIP ==>
      ProcessResult(hands).gesture == UNKNOWN_GESTURE
  {
    if hands != [] && DistancePointsReadable(hands[0].landmarks) {
      GestureOfClosed(hands[0].landmarks);
    }
  }

  /** Recorded entries carry a classifier label, so a row of the export never
      gains an extra field from the gesture. */
  lemma RecordedEntryIsPlain(hands: seq<Hand>, timestamp: string)
    requires Admits(ProcessResult(hands))
    requires ',' !in timestamp && '\n' !in timestamp
    ensures EntryOf(ProcessResult(hands), timestamp).gesture in GESTURE_LABELS
    ensures PlainFields(EntryOf(ProcessResult(hands), timestamp))
  {
    GestureOfClosed(hands[0].landmarks);
    GestureOfHasNoSeparator(hands[0].landmarks);
  }

  /** The detect route after the image is decoded: process it, then append a
      history entry for an admitted result. */
  method Detect(log: Log, hands: seq<Hand>, timestamp: string) returns (r: DetectResult)
    requires log.Valid()
    modifies log
    ensures log.Valid()
    ensures r == ProcessResult(hands)
    ensures log.entries ==
      if Admits(r) then AppendEvict(old(log.entries), EntryOf(r, timestamp)) else old(log.entries)
  {
    r := ProcessImage(hands);
    if r.Truthy() && r.GestureKey().Some? && r.GestureKey().value != NO_HAND_DETECTED {
      log.Append(EntryOf(r, timestamp));
    }
  }
}
