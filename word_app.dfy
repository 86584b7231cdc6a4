/** The word transcriber (WordsDetection/app_word.py): the module-level
    state that the frame loop of `gen_frames`, `get_text`, `clear_text` and
    `add_space` read and update, with each as a method. The camera, the
    cvzone hand detector and classifier and the resize onto the white square
    are outside the model; a frame arrives as what they report: the hand's
    bounding box, the classifier's index and the confidence at that index. */
module WordApp {
  import opened Wrappers
  import opened History
  import opened Strings
  import opened WordTables
  import opened Crop

  /** `DEBOUNCE_DELAY`, in seconds. */
  const DebounceDelay: real := 1.0
  /** The confidence a prediction must exceed. */
  const ConfidenceThreshold: real := 0.9

  /** The hand found in a frame: its bounding box `(x, y, w, h)`, and what
      the classifier returns for the crop around it. */
  datatype WordHand = WordHand(x: int, y: int, w: nat, h: nat, labelIndex: nat, confidence: real)

  /** The crop around the hand in an image of the given size. */
  function HandCrop(hand: WordHand, height: nat, width: nat): Box
  {
    CropBox(hand.x, hand.y, hand.w, hand.h, height, width)
  }

  /** The hand's crop is not empty, so the classifier is run on it. */
  predicate Classified(hand: WordHand, height: nat, width: nat)
  {
    !CropEmpty(HandCrop(hand, height, width), height, width)
  }

  /** The debounce delay has passed and the prediction is confident: the
      label is looked up. */
  predicate Confident(hand: WordHand, height: nat, width: nat, now: real, lastPredictionTime: real)
  {
    && Classified(hand, height, width)
    && now - lastPredictionTime >= DebounceDelay
    && hand.confidence > ConfidenceThreshold
  }

  /** The label is looked up, exists, and differs from the last one: it is
      appended. */
  predicate Accepted(hand: WordHand, height: nat, width: nat, now: real,
                     lastPredictionTime: real, lastPredictedLabel: Option<string>)
  {
    && Confident(hand, height, width, now, lastPredictionTime)
    && hand.labelIndex < |Labels|
    && Some(Labels[hand.labelIndex]) != lastPredictedLabel
  }

  /** The words of the appended labels, in order. */
  function LabelWords(history: seq<string>): seq<string>
  {
    if history == [] then [] else LabelWords(history[..|history| - 1]) + Split(history[|history| - 1])
  }

  /** The invariant of the transcriber's state: the translation is the
      translation of the text; the text is empty or ends in a space; its
      words are those of the appended labels; the last label is the most
      recently appended one, and no label was appended twice in a row. */
  ghost predicate Consistent(text: string, hindi: string, last: Option<string>, history: seq<string>)
  {
    && hindi == HindiOf(text)
    && (text == [] || text[|text| - 1] == ' ')
    && Split(text) == LabelWords(history)
    && NoAdjacentRepeats(history)
    && last == Last(history)
  }

  /** Appending a label other than the last one, with its space, keeps the
      invariant, and the translation grows by the label's own translation. */
  lemma AppendConsistent(text: string, history: seq<string>, sign: string)
    requires Consistent(text, HindiOf(text), Last(history), history)
    requires Last(history) != Some(sign)
    ensures Consistent(text + sign + " ", HindiOf(text + sign + " "), Some(sign), history + [sign])
    ensures HindiOf(text + sign + " ") == JoinNonEmpty(HindiOf(text), HindiOf(sign))
  {
    HindiOfAppend(text, sign);
    AppendKeepsNoRepeats(history, sign);
    assert (history + [sign])[..|history|] == history;
  }

  /** A space keeps the invariant and the translation. */
  lemma SpaceConsistent(text: string, last: Option<string>, history: seq<string>)
    requires Consistent(text, HindiOf(text), last, history)
    ensures Consistent(text + " ", HindiOf(text + " "), last, history)
    ensures HindiOf(text + " ") == HindiOf(text)
  {
    HindiOfTrailingSpace(text);
    SplitTrailingSpace(text, ' ');
  }

  class WordTranscriber {
    var detectedText: string
    var detectedHindi: string
    var lastPredictionTime: real
    var lastPredictedLabel: Option<string>
    /** The labels appended since the text was last cleared, in order. */
    ghost var appended: seq<string>

    /** The object invariant: see Consistent. */
    ghost predicate Valid()
      reads this
    {
      Consistent(detectedText, detectedHindi, lastPredictedLabel, appended)
    }

    /** The state at start-up. */
    constructor ()
      ensures Valid()
      ensures detectedText == [] && detectedHindi == []
      ensures lastPredictionTime == 0.0 && lastPredictedLabel == None && appended == []
    {
      detectedText, detectedHindi := [], [];
      lastPredictionTime := 0.0;
      lastPredictedLabel := None;
      appended := [];
    }

    /** One pass of the frame loop of `gen_frames`, on an image of `height`
        rows and `width` columns taken at `now`. Nothing changes without a
        hand, with an empty crop, before the debounce delay, without enough
        confidence, or when the label is the last one appended. Otherwise the
        label and a space are appended, the translation is recomputed, and
        the label and time are remembered. An index past the label list
        raises an `IndexError` that nothing catches: the loop stops, which
        `alive` reports. */
    method ProcessFrame(hand: Option<WordHand>, height: nat, width: nat, now: real)
      returns (alive: bool)
      requires Valid()
      modifies this
      ensures Valid()
      ensures old(detectedText) <= detectedText
      ensures !alive <==>
        hand.Some? && Confident(hand.value, height, width, now, old(lastPredictionTime))
        && hand.value.labelIndex >= |Labels|
      ensures (hand.None? || !Accepted(hand.value, height, width, now, old(lastPredictionTime),
                                       old(lastPredictedLabel))) ==>
        unchanged(this)
      ensures hand.Some? && Accepted(hand.value, height, width, now, old(lastPredictionTime),
                                     old(lastPredictedLabel)) ==>
        var sign := Labels[hand.value.labelIndex];
        && detectedText == old(detectedText) + sign + " "
        && detectedHindi == JoinNonEmpty(old(detectedHindi), HindiOf(sign))
        && lastPredictedLabel == Some(sign) && lastPredictionTime == now
        && appended == old(appended) + [sign]
    {
      alive := true;
      if hand.None? {
        return;
      }
      var h := hand.value;
      var box := CropBox(h.x, h.y, h.w, h.h, height, width);
      if CropEmpty(box, height, width) {
        return;
      }
      if now - lastPredictionTime >= DebounceDelay {
        if h.confidence > ConfidenceThreshold {
          if h.labelIndex >= |Labels| {
            alive := false;
            return;
          }
          var current := Labels[h.labelIndex];
          OfferLabel(current, now);
        }
      }
    }

    /** The innermost step of the frame loop: a confident label other than
        the last one is appended with a space, the translation is recomputed
        and the label and time are remembered; the last label again changes
        nothing. */
    method OfferLabel(current: string, now: real)
      requires Valid()
      modifies this
      ensures Valid()
      ensures Some(current) == old(lastPredictedLabel) ==> unchanged(this)
      ensures Some(current) != old(lastPredictedLabel) ==>
        && detectedText == old(detectedText) + current + " "
        && detectedHindi == JoinNonEmpty(old(detectedHindi), HindiOf(current))
        && lastPredictedLabel == Some(current) && lastPredictionTime == now
        && appended == old(appended) + [current]
    {
      if Some(current) != lastPredictedLabel {
        var text := detectedText + current + " ";
        var history := appended + [current];
        AppendConsistent(detectedText, appended, current);
        detectedText := text;
        detectedHindi := HindiOf(text);
        lastPredictedLabel := Some(current);
        lastPredictionTime := now;
        appended := history;
      }
    }

    /** `get_text`: both texts, the second always the translation of the
        first. */
    method GetText() returns (text: string, hindi: string)
      requires Valid()
      ensures text == detectedText && hindi == detectedHindi
      ensures hindi == HindiOf(text)
    {
      text, hindi := detectedText, detectedHindi;
    }

    /** `clear_text`: empties both texts and forgets the last label, but
        keeps the time of the last append. */
    method ClearText()
      requires Valid()
      modifies this
      ensures Valid()
      ensures detectedText == [] && detectedHindi == [] && lastPredictedLabel == None
      ensures lastPredictionTime == old(lastPredictionTime) && appended == []
    {
      detectedText := [];
      detectedHindi := [];
      lastPredictedLabel := None;
      appended := [];
    }

    /** `add_space`: appends one space and recomputes the translation, whose
        value does not change because `split()` ignores trailing
        whitespace. The last label is kept, so the same label still cannot
        follow itself across the space. */
    method AddSpace()
      requires Valid()
      modifies this
      ensures Valid()
      ensures detectedText == old(detectedText) + " "
      ensures detectedHindi == old(detectedHindi)
      ensures lastPredictedLabel == old(lastPredictedLabel)
      ensures lastPredictionTime == old(lastPredictionTime) && appended == old(appended)
    {
      SpaceConsistent(detectedText, lastPredictedLabel, appended);
      detectedText := detectedText + " ";
      detectedHindi := HindiOf(detectedText);
    }
  }
}
