/** The alphabet transcriber (AlphabetDetection/app.py): the module-level
    state that `process_frame`, `get_text`, `clear_text` and `add_space`
    update, with each handler as a method. The camera, MediaPipe and the
    Keras model are outside the model; a frame arrives as what they report:
    whether a hand was found, how many landmarks it has, and the index and
    confidence of the classifier's best class. */
module AlphabetApp {
  import opened Wrappers
  import opened History
  import opened Strings
  import opened AlphabetTables

  /** `DEBOUNCE_DELAY`, in seconds. */
  const DebounceDelay: real := 2.0
  /** `prediction_confidence_threshold`. */
  const ConfidenceThreshold: real := 0.90
  /** `REQUIRED_CONSECUTIVE_PREDICTIONS`. */
  const RequiredConsecutive: nat := 4
  /** The number of landmarks MediaPipe reports for a whole hand. */
  const LandmarkCount: nat := 21

  /** What the hand tracker and the classifier report for the hand in one
      frame: the number of landmarks, `argmax` of the prediction and its
      `max`. */
  datatype HandReading = HandReading(landmarkCount: nat, labelIndex: nat, confidence: real)

  /** The gates a frame with a hand must clear before its prediction is
      counted: the debounce delay since the last append, a complete hand,
      an index that names a label (a larger one raises an `IndexError` that
      the handler catches) and a high enough confidence. */
  predicate Confident(hand: HandReading, now: real, lastPredictionTime: real)
  {
    && now - lastPredictionTime >= DebounceDelay
    && hand.landmarkCount == LandmarkCount
    && hand.labelIndex < |Alphabet|
    && hand.confidence >= ConfidenceThreshold
  }

  /** The text with its spaces taken out. */
  function Letters(s: string): string
  {
    if s == [] then []
    else Letters(s[..|s| - 1]) + (if s[|s| - 1] == ' ' then [] else [s[|s| - 1]])
  }

  lemma {:induction false} LettersConcat(a: string, b: string)
    ensures Letters(a + b) == Letters(a) + Letters(b)
    decreases |b|
  {
    if b == [] {
      assert a + b == a;
    } else {
      var b' := b[..|b| - 1];
      assert (a + b)[..|a + b| - 1] == a + b';
      LettersConcat(a, b');
    }
  }

  /** A one-letter label and its trailing space leave just the label's
      letter. */
  lemma LettersOfLabel(text: string, sign: string)
    requires |sign| == 1 && sign[0] != ' '
    ensures Letters(text + sign + " ") == Letters(text) + sign
  {
    LettersConcat(text + sign, " ");
    LettersConcat(text, sign);
    assert sign[..0] == [];
    assert Letters(" ") == Letters(" "[..0]);
  }

  /** What the appended labels guarantee about the text: each is a label of
      the alphabet, none was appended twice in a row, `lastAdded` is the
      most recent one, and the letters of the text are exactly the labels,
      in order. */
  ghost predicate Recorded(text: string, lastAdded: Option<string>, history: seq<string>)
  {
    && (forall i :: 0 <= i < |history| ==> history[i] in Alphabet)
    && NoAdjacentRepeats(history)
    && lastAdded == Last(history)
    && Letters(text) == Concat(history)
  }

  /** Appending a label other than the last one added, with its space,
      keeps the record. */
  lemma AppendRecorded(text: string, history: seq<string>, sign: string)
    requires Recorded(text, Last(history), history)
    requires sign in Alphabet && Last(history) != Some(sign)
    ensures Recorded(text + sign + " ", Some(sign), history + [sign])
  {
    LabelIsLetter(sign);
    LettersOfLabel(text, sign);
    ConcatAppend(history, [sign]);
    AppendKeepsNoRepeats(history, sign);
    assert Concat([sign]) == Concat([]) + sign;
  }

  class AlphabetTranscriber {
    var detectedText: string
    var hindiText: string
    var lastPredictionTime: real
    var lastPredictedLabel: Option<string>
    var consecutiveSamePredictions: nat
    var lastAddedText: Option<string>
    /** The labels appended since the text was last cleared, in order. */
    ghost var appended: seq<string>

    /** The counter never rests at the required count; a counter above 0
        belongs to a label; `last_added_text` is the most recently appended
        label; no label was appended twice in a row; and the letters of the
        text are exactly the appended labels. */
    ghost predicate Valid()
      reads this
    {
      && consecutiveSamePredictions < RequiredConsecutive
      && (lastPredictedLabel == None ==> consecutiveSamePredictions == 0)
      && (lastPredictedLabel.Some? ==> lastPredictedLabel.value in Alphabet)
      && Recorded(detectedText, lastAddedText, appended)
    }

    /** The state at start-up. */
    constructor ()
      ensures Valid()
      ensures detectedText == [] && hindiText == [] && lastPredictionTime == 0.0
      ensures lastPredictedLabel == None && consecutiveSamePredictions == 0 && lastAddedText == None
      ensures appended == []
    {
      detectedText, hindiText := [], [];
      lastPredictionTime := 0.0;
      lastPredictedLabel := None;
      consecutiveSamePredictions := 0;
      lastAddedText := None;
      appended := [];
    }

    /** The state update of `process_frame` for one frame taken at `now`.
        Without a hand the run of equal predictions is forgotten. A hand that
        fails a gate changes nothing. A confident prediction extends the run
        of its label or starts a new run; a run that reaches the required
        length is reset, and its label is appended, with a space, unless it
        is the label appended last. */
    method ProcessFrame(hand: Option<HandReading>, now: real)
      requires Valid()
      modifies this
      ensures Valid()
      ensures hindiText == old(hindiText)
      ensures old(detectedText) <= detectedText
      ensures hand.None? ==>
        && consecutiveSamePredictions == 0 && lastPredictedLabel == None
        && detectedText == old(detectedText) && lastAddedText == old(lastAddedText)
        && lastPredictionTime == old(lastPredictionTime) && appended == old(appended)
      ensures hand.Some? && !Confident(hand.value, now, old(lastPredictionTime)) ==>
        unchanged(this)
      ensures hand.Some? && Confident(hand.value, now, old(lastPredictionTime)) ==>
        var sign := Alphabet[hand.value.labelIndex];
        var run := if old(lastPredictedLabel) == Some(sign) then old(consecutiveSamePredictions) + 1 else 1;
        && lastPredictedLabel == Some(sign)
        && (if run < RequiredConsecutive then consecutiveSamePredictions == run
            else consecutiveSamePredictions == 0)
        && (if run >= RequiredConsecutive && old(lastAddedText) != Some(sign) then
              && detectedText == old(detectedText) + sign + " "
              && lastAddedText == Some(sign) && lastPredictionTime == now
              && appended == old(appended) + [sign]
            else
              && detectedText == old(detectedText) && lastAddedText == old(lastAddedText)
              && lastPredictionTime == old(lastPredictionTime) && appended == old(appended))
    {
      match hand
      case None =>
        consecutiveSamePredictions := 0;
        lastPredictedLabel := None;
      case Some(h) =>
        if now - lastPredictionTime >= DebounceDelay {
          if h.landmarkCount == LandmarkCount {
            // Past the end of the alphabet the lookup raises an IndexError,
            // which the handler's `except` swallows.
            if h.labelIndex < |Alphabet| {
              var current := Alphabet[h.labelIndex];
              if h.confidence >= ConfidenceThreshold {
                CountPrediction(current, now);
              }
            }
          }
        }
    }

    /** The body of `process_frame` once a prediction has passed every gate:
        the run of `current` grows by one, or starts at 1 for a new label;
        a run of the required length is reset and appends the label, with a
        space, unless it is the label appended last. */
    method CountPrediction(current: string, now: real)
      requires Valid() && current in Alphabet
      modifies this
      ensures Valid()
      ensures hindiText == old(hindiText)
      ensures var run := if old(lastPredictedLabel) == Some(current) then old(consecutiveSamePredictions) + 1 else 1;
        && lastPredictedLabel == Some(current)
        && (if run < RequiredConsecutive then consecutiveSamePredictions == run
            else consecutiveSamePredictions == 0)
        && (if run >= RequiredConsecutive && old(lastAddedText) != Some(current) then
              && detectedText == old(detectedText) + current + " "
              && lastAddedText == Some(current) && lastPredictionTime == now
              && appended == old(appended) + [current]
            else
              && detectedText == old(detectedText) && lastAddedText == old(lastAddedText)
              && lastPredictionTime == old(lastPredictionTime) && appended == old(appended))
    {
      if Some(current) == lastPredictedLabel {
        consecutiveSamePredictions := consecutiveSamePredictions + 1;
      } else {
        consecutiveSamePredictions := 1;
        lastPredictedLabel := Some(current);
      }
      if consecutiveSamePredictions >= RequiredConsecutive {
        if Some(current) != lastAddedText {
          AppendRecorded(detectedText, appended, current);
          detectedText := detectedText + current + " ";
          lastAddedText := Some(current);
          lastPredictionTime := now;
          appended := appended + [current];
        }
        consecutiveSamePredictions := 0;
      }
    }

    /** `get_text`: brings `hindi_text` up to date and returns both texts. */
    method GetText() returns (text: string, hindi: string)
      requires Valid()
      modifies this`hindiText
      ensures Valid()
      ensures text == detectedText && hindi == hindiText
      ensures hindiText == Transliteration(detectedText)
    {
      hindiText := TranslateToHindi(detectedText);
      text, hindi := detectedText, hindiText;
    }

    /** `clear_text`: empties both texts and forgets every label, but keeps
        the time of the last append. */
    method ClearText()
      requires Valid()
      modifies this
      ensures Valid()
      ensures detectedText == [] && hindiText == []
      ensures lastPredictedLabel == None && consecutiveSamePredictions == 0 && lastAddedText == None
      ensures lastPredictionTime == old(lastPredictionTime)
      ensures appended == []
    {
      detectedText := [];
      hindiText := [];
      lastPredictedLabel := None;
      consecutiveSamePredictions := 0;
      lastAddedText := None;
      appended := [];
    }

    /** `add_space`: appends one space and re-translates the text; the
        translation gains exactly one space, since the table maps the space
        to itself. */
    method AddSpace()
      requires Valid()
      modifies this
      ensures Valid()
      ensures detectedText == old(detectedText) + " "
      ensures hindiText == Transliteration(detectedText)
      ensures hindiText == Transliteration(old(detectedText)) + " "
      ensures lastPredictedLabel == old(lastPredictedLabel) && lastAddedText == old(lastAddedText)
      ensures consecutiveSamePredictions == old(consecutiveSamePredictions)
      ensures lastPredictionTime == old(lastPredictionTime) && appended == old(appended)
    {
      LettersConcat(detectedText, " ");
      assert Letters(" ") == Letters(" "[..0]);
      TransliterationConcat(detectedText, " ");
      assert Transliteration(" ") == Transliteration(" "[..0]) + CharImage(' ');
      detectedText := detectedText + " ";
      hindiText := TranslateToHindi(detectedText);
    }
  }
}
