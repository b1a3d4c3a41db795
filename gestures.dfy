/** The landmark-to-gesture classifier of the web API (detect_gesture in
    api/flask_app.py): five finger flags read off a 21-point hand skeleton,
    then a label chosen by how many flags are set and which. */
module Gestures {
  import opened Text

  /** One tracked hand point. Coordinates are only ever compared with strict
      order, so they are kept as exact reals. */
  datatype Point = Point(x: real, y: real, z: real)

  // Indices into the hand skeleton (MediaPipe's HandLandmark numbering).
  const WRIST: nat := 0
  const THUMB_MCP: nat := 2
  const THUMB_TIP: nat := 4
  const INDEX_FINGER_PIP: nat := 6
  const INDEX_FINGER_TIP: nat := 8
  const MIDDLE_FINGER_MCP: nat := 9
  const MIDDLE_FINGER_PIP: nat := 10
  const MIDDLE_FINGER_TIP: nat := 12
  const RING_FINGER_PIP: nat := 14
  const RING_FINGER_TIP: nat := 16
  const PINKY_PIP: nat := 18
  const PINKY_TIP: nat := 20

  /** (tip, pip) of index, middle, ring and pinky, in the order they are flagged. */
  const FINGER_JOINTS: seq<(nat, nat)> := [
    (INDEX_FINGER_TIP, INDEX_FINGER_PIP), (MIDDLE_FINGER_TIP, MIDDLE_FINGER_PIP),
    (RING_FINGER_TIP, RING_FINGER_PIP), (PINKY_TIP, PINKY_PIP)]

  const FIST := "Fist"
  const THUMBS_UP := "Thumbs Up"
  const POINTING := "Pointing"
  const ONE_FINGER := "One Finger"
  const PEACE_SIGN := "Peace Sign"
  const TWO_FINGERS := "Two Fingers"
  const THREE_FINGERS := "3 Fingers"
  const FOUR_FINGERS := "4 Fingers"
  const OPEN_HAND := "Open Hand"
  const UNKNOWN_GESTURE := "Unknown Gesture"

  /** Every label the classifier can produce. */
  const GESTURE_LABELS: set<string> := {
    FIST, THUMBS_UP, POINTING, ONE_FINGER, PEACE_SIGN, TWO_FINGERS,
    THREE_FINGERS, FOUR_FINGERS, OPEN_HAND, UNKNOWN_GESTURE}

  /** Every index the classifier reads (THUMB_IP, index 3, among them, though
      its value is unused) is present; the largest is PINKY_TIP. A shorter
      skeleton makes one of the reads raise. */
  predicate Readable(landmarks: seq<Point>) {
    PINKY_TIP < |landmarks|
  }

  /** The flag vector: thumb, index, middle, ring, pinky, each 0 or 1. */
  predicate FlagVector(fingers: seq<int>) {
    |fingers| == 5 && forall i :: 0 <= i < 5 ==> fingers[i] == 0 || fingers[i] == 1
  }

  /** A finger other than the thumb is up when its tip lies strictly above
      (smaller y than) its PIP joint. */
  function FingerFlag(landmarks: seq<Point>, tip: nat, pip: nat): int
    requires tip < |landmarks| && pip < |landmarks|
  {
    if landmarks[tip].y < landmarks[pip].y then 1 else 0
  }

  /** The flags detect_gesture builds, as a function of the skeleton. */
  function FlagsOf(landmarks: seq<Point>): seq<int>
    requires Readable(landmarks)
  {
    [if landmarks[THUMB_TIP].x > landmarks[THUMB_MCP].x then 1 else 0,
     FingerFlag(landmarks, INDEX_FINGER_TIP, INDEX_FINGER_PIP),
     FingerFlag(landmarks, MIDDLE_FINGER_TIP, MIDDLE_FINGER_PIP),
     FingerFlag(landmarks, RING_FINGER_TIP, RING_FINGER_PIP),
     FingerFlag(landmarks, PINKY_TIP, PINKY_PIP)]
  }

  /** Python's sum over a list of integers. */
  function Sum(s: seq<int>): int {
    if s == [] then 0 else s[0] + Sum(s[1..])
  }

  lemma {:induction false} SumOfFlags(fingers: seq<int>)
    requires FlagVector(fingers)
    ensures Sum(fingers) == fingers[0] + fingers[1] + fingers[2] + fingers[3] + fingers[4]
    ensures 0 <= Sum(fingers) <= 5
  {
    var f := fingers;
    assert f[1..][1..][1..][1..][1..] == [];
    calc {
      Sum(f);
      f[0] + Sum(f[1..]);
      f[0] + f[1] + Sum(f[1..][1..]);
      f[0] + f[1] + f[2] + Sum(f[1..][1..][1..]);
      f[0] + f[1] + f[2] + f[3] + Sum(f[1..][1..][1..][1..]);
      f[0] + f[1] + f[2] + f[3] + f[4] + Sum(f[1..][1..][1..][1..][1..]);
    }
  }

  lemma FlagsAsList(fingers: seq<int>)
    requires FlagVector(fingers)
    ensures fingers == [fingers[0], fingers[1], fingers[2], fingers[3], fingers[4]]
  {
  }

  /** The count-then-pattern branch on the flags. */
  function Label(fingers: seq<int>): string
    requires FlagVector(fingers)
  {
    var total := Sum(fingers);
    if total == 0 then FIST
    else if total == 1 then
      if fingers[0] == 1 then THUMBS_UP
      else if fingers[1] == 1 then POINTING
      else ONE_FINGER
    else if total == 2 then
      if fingers[1] == 1 && fingers[2] == 1 then PEACE_SIGN else TWO_FINGERS
    else if total == 5 then OPEN_HAND
    else IntText(total) + " Fingers"
  }

  /** What detect_gesture returns for a skeleton, including the caught
      exception of a skeleton too short to read. */
  function GestureOf(landmarks: seq<Point>): string {
    if Readable(landmarks) then Label(FlagsOf(landmarks)) else UNKNOWN_GESTURE
  }

  /** Builds the flag vector the way the source does: the thumb flag first,
      then one flag per remaining finger, appended in a loop. */
  method FingersUp(landmarks: seq<Point>) returns (fingers: seq<int>)
    requires Readable(landmarks)
    ensures FlagVector(fingers) && fingers == FlagsOf(landmarks)
    ensures fingers[0] == 1 <==> landmarks[THUMB_TIP].x > landmarks[THUMB_MCP].x
    ensures forall k :: 0 <= k < 4 ==>
      (fingers[k + 1] == 1 <==> landmarks[FINGER_JOINTS[k].0].y < landmarks[FINGER_JOINTS[k].1].y)
  {
    fingers := [];
    if landmarks[THUMB_TIP].x > landmarks[THUMB_MCP].x {
      fingers := fingers + [1];
    } else {
      fingers := fingers + [0];
    }
    var k := 0;
    while k < |FINGER_JOINTS|
      invariant 0 <= k <= |FINGER_JOINTS|
      invariant fingers == FlagsOf(landmarks)[..k + 1]
    {
      var (tip, pip) := FINGER_JOINTS[k];
      if landmarks[tip].y < landmarks[pip].y {
        fingers := fingers + [1];
      } else {
        fingers := fingers + [0];
      }
      k := k + 1;
    }
  }

  /** detect_gesture: read the skeleton, build the flags, classify them; a
      skeleton too short to read yields the fallback label. */
  method DetectGesture(landmarks: seq<Point>) returns (gesture: string)
    ensures gesture == GestureOf(landmarks)
    ensures gesture == UNKNOWN_GESTURE <==> |landmarks| <= PINKY_TIP
  {
    if !Readable(landmarks) {
      return UNKNOWN_GESTURE;
    }
    var fingers := FingersUp(landmarks);
    gesture := Label(fingers);
    LabelClosed(fingers);
  }

  /** The labels of equal length are told apart (by their first character). */
  lemma LabelsDistinct()
    ensures OPEN_HAND != THUMBS_UP && OPEN_HAND != THREE_FINGERS && OPEN_HAND != FOUR_FINGERS
    ensures THUMBS_UP != THREE_FINGERS && THUMBS_UP != FOUR_FINGERS && THREE_FINGERS != FOUR_FINGERS
    ensures ONE_FINGER != PEACE_SIGN
  {
  }

  /** The flags always map to one of nine labels, never the fallback. */
  lemma LabelClosed(fingers: seq<int>)
    requires FlagVector(fingers)
    ensures Label(fingers) in GESTURE_LABELS - {UNKNOWN_GESTURE}
  {
    SumOfFlags(fingers);
    assert IntText(3) + " Fingers" == THREE_FINGERS;
    assert IntText(4) + " Fingers" == FOUR_FINGERS;
  }

  lemma GestureOfClosed(landmarks: seq<Point>)
    ensures GestureOf(landmarks) in GESTURE_LABELS
  {
    if Readable(landmarks) {
      LabelClosed(FlagsOf(landmarks));
    }
  }

  /** No flag set is a fist and all five set an open hand. */
  lemma LabelFistAndOpenHand(fingers: seq<int>)
    requires FlagVector(fingers)
    ensures Label(fingers) == FIST <==> fingers == [0, 0, 0, 0, 0]
    ensures Label(fingers) == OPEN_HAND <==> fingers == [1, 1, 1, 1, 1]
  {
    LabelClosed(fingers);
    LabelsDistinct();
    SumOfFlags(fingers);
    FlagsAsList(fingers);
  }

  /** Exactly one flag set: the thumb alone is a thumbs-up, the index alone
      pointing, and any of the other three alone one finger. */
  lemma LabelOneFlag(fingers: seq<int>)
    requires FlagVector(fingers)
    ensures Label(fingers) == THUMBS_UP <==> fingers == [1, 0, 0, 0, 0]
    ensures Label(fingers) == POINTING <==> fingers == [0, 1, 0, 0, 0]
    ensures Label(fingers) == ONE_FINGER <==>
      fingers[0] == fingers[1] == 0 && fingers[2] + fingers[3] + fingers[4] == 1
  {
    LabelClosed(fingers);
    LabelsDistinct();
    SumOfFlags(fingers);
    FlagsAsList(fingers);
  }

  /** Exactly two flags set: index and middle is the peace sign, any other
      pair two fingers; three or four set are labelled by their count. */
  lemma LabelSeveralFlags(fingers: seq<int>)
    requires FlagVector(fingers)
    ensures Label(fingers) == PEACE_SIGN <==> fingers == [0, 1, 1, 0, 0]
    ensures Label(fingers) == TWO_FINGERS <==>
      Sum(fingers) == 2 && !(fingers[1] == 1 && fingers[2] == 1)
    ensures Label(fingers) == THREE_FINGERS <==> Sum(fingers) == 3
    ensures Label(fingers) == FOUR_FINGERS <==> Sum(fingers) == 4
  {
    LabelClosed(fingers);
    LabelsDistinct();
    SumOfFlags(fingers);
    FlagsAsList(fingers);
  }

  /** A label never contains the CSV field or row separator. */
  lemma GestureOfHasNoSeparator(landmarks: seq<Point>)
    ensures ',' !in GestureOf(landmarks) && '\n' !in GestureOf(landmarks)
  {
    GestureOfClosed(landmarks);
  }

  function MirrorPoint(p: Point, axis: real): Point {
    Point(2.0 * axis - p.x, p.y, p.z)
  }

  /** The thumb rule depends on which way the hand faces: mirroring the
      skeleton left-to-right flips the thumb flag (unless tip and MCP share an
      x coordinate) and leaves the other four flags as they were. */
  lemma MirrorFlipsOnlyThumb(landmarks: seq<Point>, axis: real)
    requires Readable(landmarks)
    ensures var mirrored := seq(|landmarks|, i requires 0 <= i < |landmarks| => MirrorPoint(landmarks[i], axis));
      var f, g := FlagsOf(landmarks), FlagsOf(mirrored);
      f[1..] == g[1..] &&
      (landmarks[THUMB_TIP].x != landmarks[THUMB_MCP].x ==> f[0] + g[0] == 1)
  {
  }
}
