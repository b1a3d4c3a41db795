/** The request path of the Socket.IO server (app.py): its gesture step is a
    placeholder, and every result that carries a gesture is recorded. */
module DesktopApp {
  import opened Gestures
  import opened History
  import opened Results

  const GESTURE_DETECTED := "Gesture Detected"

  /** The placeholder classifier: the same label for every hand. */
  function DetectGesture(landmarks: seq<Point>): string {
    GESTURE_DETECTED
  }

  /** What process_image returns: an empty dictionary when no hand is found;
      the uncaught IndexError when the first hand is too short for the wrist
      and middle-finger MCP reads; otherwise the first hand's result. */
  function ProcessResult(hands: seq<Hand>): DetectResult {
    if hands == [] then Empty
    else if !DistancePointsReadable(hands[0].landmarks) then Failed(INDEX_ERROR)
    else Found(DetectGesture(hands[0].landmarks), hands[0].distance, hands[0].landmarks)
  }

  method ProcessImage(hands: seq<Hand>) returns (r: DetectResult)
    ensures r == ProcessResult(hands)
    ensures r.Empty? <==> hands == []
    ensures r.Failed? <==> hands != [] && |hands[0].landmarks| <= MIDDLE_FINGER_MCP
  {
    if hands != [] {
      var hand := hands[0];
      if !(WRIST < |hand.landmarks| && MIDDLE_FINGER_MCP < |hand.landmarks|) {
        return Failed(INDEX_ERROR);
      }
      return Found(DetectGesture(hand.landmarks), hand.distance, hand.landmarks);
    }
    return Empty;
  }

  /** The admission rule: a truthy result that has a 'gesture' key. */
  predicate Admits(r: DetectResult) {
    r.Truthy() && r.GestureKey().Some?
  }

  /** A hand of at least ten points means one entry labelled "Gesture
      Detected", whatever the skeleton; no hand, or a shorter one whose
      exception ends the request, means nothing is recorded. */
  lemma AdmitsIffHandFound(hands: seq<Hand>, timestamp: string)
    ensures Admits(ProcessResult(hands)) <==> hands != [] && MIDDLE_FINGER_MCP < |hands[0].landmarks|
    ensures Admits(ProcessResult(hands)) ==> EntryOf(ProcessResult(hands), timestamp).gesture == GESTURE_DETECTED
  {
  }

  /** The detect route after the image is decoded. A Failed result stands for
      the exception that ends the request before the history is touched. */
  method Detect(log: Log, hands: seq<Hand>, timestamp: string) returns (r: DetectResult)
    requires log.Valid()
    modifies log
    ensures log.Valid()
    ensures r == ProcessResult(hands)
    ensures log.entries ==
      if Admits(r) then AppendEvict(old(log.entries), EntryOf(r, timestamp)) else old(log.entries)
  {
    r := ProcessImage(hands);
    if r.Truthy() && r.GestureKey().Some? {
      log.Append(EntryOf(r, timestamp));
    }
  }
}
