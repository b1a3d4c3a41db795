/** The dictionaries process_image hands back to the detect route, in both
    versions of the server, and the two keys the route reads from them. */
module Results {
  import opened Optional
  import opened Gestures
  import opened History

  const NO_HAND_DETECTED := "No hand detected"

  /** One hand as the hand tracker reports it: its skeleton, together with the
      distance calculate_distance derives from it (that computation is not
      part of this model). */
  datatype Hand = Hand(landmarks: seq<Point>, distance: Distance)

  datatype DetectResult =
    | Found(gesture: string, distance: Distance, handLandmarks: seq<Point>)
      // {'gesture': ..., 'distance': ..., 'hand_landmarks': [...]}
    | NoHand
      // {'gesture': 'No hand detected', 'distance': 0}
    | Empty
      // {}
    | Failed(error: string)
      // {'error': str(e)} in api/flask_app.py; in app.py, the exception that
      // escapes process_image and ends the request
  {
    /** An empty dictionary is falsy in Python. */
    predicate Truthy() {
      !Empty?
    }

    /** The 'gesture' key, when present. */
    function GestureKey(): (g: Option<string>)
      ensures g.Some? <==> Found? || NoHand?
    {
      match this
      case Found(gesture, _, _) => Some(gesture)
      case NoHand => Some(NO_HAND_DETECTED)
      case _ => None
    }

    /** results.get('distance', 0). */
    function DistanceOrZero(): Distance {
      if Found? then distance else NoEstimate
    }
  }

  /** The text of the IndexError a too-short skeleton raises. Nothing in the
      model depends on its wording. */
  const INDEX_ERROR := "list index out of range"

  /** process_image reads the wrist and the middle-finger MCP of the first hand
      before classifying it; a skeleton without both makes that read raise. */
  predicate DistancePointsReadable(landmarks: seq<Point>) {
    WRIST < |landmarks| && MIDDLE_FINGER_MCP < |landmarks|
  }

  /** The history entry a result becomes when it is recorded. */
  function EntryOf(r: DetectResult, timestamp: string): Entry
    requires r.GestureKey().Some?
  {
    Entry(r.GestureKey().value, r.DistanceOrZero(), timestamp)
  }
}
