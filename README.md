# Hand-sign detection core, modelled in Dafny

The repository is a hand-gesture recogniser. A hand tracker turns each webcam
frame into a 21-point hand skeleton. The server turns the first hand it sees
into a gesture label and a distance. It keeps the last fifty detections in a
process-wide history that can be downloaded as CSV. The browser keeps its own
session statistics.

This project models three parts of it:

- **The classifier of the web API** (`api/flask_app.py`, `detect_gesture`). It
  reads eleven skeleton points and builds five 0/1 finger flags in a loop. The
  thumb is up when its tip is strictly right of its MCP joint. Every other
  finger is up when its tip is strictly above its PIP joint. A count-then-pattern
  branch then picks one of nine labels. A skeleton too short to read gives
  `"Unknown Gesture"`. On the request path, `process_image` first reads the
  wrist and the middle-finger MCP (index 9), so a hand of at most 9 points
  ends in the error result and is not recorded; only hands of 10 to 20 points
  reach the `"Unknown Gesture"` fallback. Coordinates are exact reals, because
  the code only compares them with strict order. (`gestures.dfy`, module `Gestures`.)
- **The server-side history and its CSV export**, in both server versions
  (`api/flask_app.py` and `app.py`). The history is a class holding a sequence.
  Appending adds at the tail, and a list over fifty entries drops its head.
  The export loop writes the header `timestamp,gesture,distance` and then one
  unquoted row per entry, oldest first. The two servers admit results under
  different rules. The web API skips the no-hand sentinel and error results.
  `app.py` records every result that has a `gesture` key, and its classifier is
  the constant `"Gesture Detected"`. (`history.dfy`, `results.dfy`,
  `flask_api.dfy`, `desktop_app.dfy`.)
- **The browser statistics** (`static/js/stats.js`). A class holds the
  detection counter, the distance sum and sample count, the session time, and
  a newest-first history capped at fifty (`unshift`, then `pop`). The model
  also covers the average distance, the snapshot `getStats` returns, and the
  `MM:SS` formatter. (`stats.dfy`.)

`text.dfy` holds decimal text of integers, reading digit strings back, and
splitting on a separator. `optional.dfy` holds `Option`.

Main results:

- The label table is stated as if-and-only-if facts about the flag vector.
- The label set is closed, and no label contains a comma or a line break.
- The history bound holds after any number of appends. Recording any sequence
  of entries leaves exactly the newest fifty.
- The CSV export splits back into the header plus one three-field row per
  entry, in history order.
- One browser `unshift`/`pop` step is one server `append`/`pop(0)` step on the
  reversed list.
- `formatTime` output reads back as minutes and seconds.

The classifier is the count-then-pattern branch above, with the thumb tested
on x. `detect_gesture` falls back to `"Unknown Gesture"` only for skeletons of
at most 20 points; longer ones are classified from their first 21.

## Model

| member | source | states |
|---|---|---|
| Gestures.FingersUp | api/flask_app.py:152-168 | the flag vector has five entries, each 0 or 1, in the order thumb, index, middle, ring, pinky; the thumb flag is 1 iff tip x > MCP x; each other flag is 1 iff tip y < PIP y (strictly, so equal coordinates count as closed) |
| Gestures.DetectGesture | api/flask_app.py:133-193 | the label is the classification of the skeleton's flags, and it is "Unknown Gesture" iff the skeleton has at most 20 points (the caught IndexError) |
| Gestures.LabelClosed | api/flask_app.py:170-189 | every flag vector maps to one of the nine classifier labels, never the fallback |
| Gestures.GestureOfClosed | api/flask_app.py:133-193 | every skeleton yields one of the ten labels |
| Gestures.LabelFistAndOpenHand | api/flask_app.py:170-187 | "Fist" iff no flag is set; "Open Hand" iff all five are |
| Gestures.LabelOneFlag | api/flask_app.py:174-180 | with exactly one flag: "Thumbs Up" iff it is the thumb, "Pointing" iff the index, "One Finger" iff middle, ring or pinky |
| Gestures.LabelSeveralFlags | api/flask_app.py:181-189 | "Peace Sign" iff exactly index and middle; "Two Fingers" iff two flags and not both index and middle; "3 Fingers" / "4 Fingers" iff three / four flags |
| Gestures.GestureOfHasNoSeparator | api/flask_app.py:172-193 | no label contains a comma or a line break |
| Gestures.MirrorFlipsOnlyThumb | api/flask_app.py:154-168 | mirroring the hand left-to-right keeps the four finger flags and flips the thumb flag when tip and MCP x differ: the thumb rule depends on hand orientation |
| History.DistanceText | api/flask_app.py:202 | the rendered distance contains neither a comma nor a line break |
| History.AppendEvict | api/flask_app.py:73-80 | one record appends the entry at the tail and drops only the head, and only when the length would exceed 50; a history within the cap stays within it |
| History.AppendAllKeepsNewest | app.py:43-51 | recording any sequence of entries into a history within the cap leaves exactly the newest 50 of them, oldest first |
| History.SixtyIntoFifty | api/flask_app.py:40-41 | sixty entries recorded into the empty history leave the last fifty |
| History.RowFields | api/flask_app.py:202 | a row whose timestamp and gesture have no comma splits into exactly three fields: timestamp, gesture, distance |
| History.CsvRoundTrip | app.py:104-108 | the export splits into the header line, one line per entry in history order (as many rows as entries), and a final empty piece; every entry line splits back into that entry's fields |
| History.Log.constructor | app.py:23-25 | the history starts empty |
| History.Log.Append | app.py:44-51 | the new history is the append-then-evict of the old one, and it stays within 50 |
| History.Log.Export | api/flask_app.py:195-202 | the text built by the loop is the header followed by each entry's row, oldest first; the history is not changed |
| FlaskApi.ProcessImage | api/flask_app.py:89-117 | no hand gives the no-hand sentinel; a first hand of at most 9 points gives the caught IndexError's error result; otherwise the first hand's label, distance and skeleton |
| FlaskApi.AdmitsIffHandFound | api/flask_app.py:73 | a result is recorded iff a hand of at least 10 points was found; the sentinel and the error result are never recorded, every classifier label is, and a hand of 10 to 20 points is recorded as "Unknown Gesture" |
| FlaskApi.RecordedEntryIsPlain | api/flask_app.py:73-78 | a recorded entry's gesture is a classifier label, so its export row has exactly three fields |
| FlaskApi.Detect | api/flask_app.py:68-82 | the history gains exactly one entry, by append-and-evict, for an admitted result, and is unchanged for the sentinel and the error result |
| DesktopApp.ProcessImage | app.py:55-80 | no hand gives the empty result; a first hand of at most 9 points raises at the wrist / middle-finger MCP reads; otherwise the first hand's placeholder label, distance and skeleton |
| DesktopApp.AdmitsIffHandFound | app.py:98-101 | a result is recorded iff a hand of at least 10 points was found, always with the gesture "Gesture Detected" |
| DesktopApp.Detect | app.py:31-53 | the history gains exactly one entry, by append-and-evict, for a result with a gesture key, and is unchanged for the empty result and when process_image raises |
| Stats.PushFront | static/js/stats.js:84-89 | the new entry is element 0; a history within 50 stays within 50; only the last (oldest) element is ever dropped |
| Stats.PushFrontMirrorsAppendEvict | static/js/stats.js:79-89 | reversed, the newest-first browser history evolves exactly as the server's oldest-first history |
| Stats.RoundHalfUp | static/js/stats.js:119 | the result is the integer within one half of the mean, halves going up |
| Stats.PadStart2Digits | static/js/stats.js:130-131 | padding a digit string to two characters keeps it digits and keeps its value |
| Stats.FormatTimeFields | static/js/stats.js:129-133 | for s >= 0: at least two minute digits with value s / 60, a colon, exactly two second digits with value s % 60; the fields read back as s |
| Stats.SessionStats.constructor | static/js/stats.js:1-8 | all counters start at zero and the history empty |
| Stats.SessionStats.ResetState | static/js/stats.js:45-57 | all counters return to zero and the history is emptied |
| Stats.SessionStats.RecordDetection | static/js/stats.js:64-95 | a missing detection or falsy gesture changes nothing; otherwise the count rises by one; sum and samples change only for a numeric distance; the entry is pushed at the front; samples <= detections and the history bound hold |
| Stats.SessionStats.AverageDistance | static/js/stats.js:115-120 | null iff there are no samples; otherwise the rounded mean |
| Stats.SessionStats.GetStats | static/js/stats.js:102-109 | the snapshot carries the counters, the history as a value copy, and a null average iff there are no samples |

## Left out

- `calculate_distance` in both servers (floating-point square root, a 0.1 scale factor and rounding): each hand arrives with its distance already computed. A distance is the count of tenths of `round(cm, 1)`, or the integer 0 used when there is no estimate.
- History.DistanceText: renders a one-decimal float as `digits.digit`. This matches Python's repr only below 10^16, which real pixel distances never reach.
- In `app.py`, the wrist and middle-finger MCP reads (app.py:67-68) run outside any `try`. For a hand of at most 9 points the exception ends the request with a server error; the model represents that as the error result, and the HTTP response itself is not modelled.
- Stats.SessionStats.RecordDetection: a distance is modelled as a number or absent. A non-numeric value other than `undefined` (a string, say), which stats.js:81 stores in the history entry as it is, is modelled as absent.
- HTTP routing, the upload checks, `jsonify`/`Response` and the 400/500 error responses.
- Image decoding, colour conversion, hand tracking and landmark drawing. These are foreign library calls: hands enter as a sequence of skeletons.
- `datetime.now().isoformat()`: timestamps are opaque strings supplied by the caller. The CSV field lemmas assume they contain no comma or line break, as ISO-8601 text never does.
- The session clock in `stats.js` (`startSession`, `stopSession`, the one-second interval): `sessionTime` is a field that only the reset touches here.
- The `window.updateAllUI` / `updateStatsUI` callbacks: they are UI updates.
- Stats.SessionStats.AverageDistance: float division is modelled as exact real division. Non-finite distances (NaN, Infinity), which JavaScript also counts as numbers, are not modelled.
- Stats.FormatTimeFields: states the format only for non-negative whole seconds. `FormatTime` itself follows JavaScript for negative integers too (floor division, truncating remainder). Non-integer inputs are not modelled.
- Concurrent requests touching the shared history are not modelled: each operation is one atomic step.
- `main.js`, `ui.js`, `webcam.js`, `script.js` (DOM, webcam, network) and `train_model.py` (a scikit-learn classifier) are not part of this model.
