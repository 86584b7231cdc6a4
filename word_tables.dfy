/** The label set of the word detector and its word-by-word Hindi
    translation (WordsDetection/app_word.py). */
module WordTables {
  import opened Strings

  /** The classifier's 31 output classes, in index order. Four of them are
      phrases of several words. */
  const Labels: seq<string> := [
    "Bye", "Night", "Afternoon", "Morning", "Eat", "She", "He",
    "Pray", "Work", "Study", "Truth", "Small",
    "Congratulations", "Sleep", "Water", "Need", "You",
    "I", "Good", "Hate", "Hello", "Hurts a lot",
    "I Love You", "Love", "Receive", "Thank you",
    "Call Me", "Crime", "Peace", "Happy", "Promise"]

  /** One Hindi rendering per label, phrases included. */
  const HindiTable: map<string, string> := map[
    "Bye" := "अलविदा",
    "Night" := "रात",
    "Afternoon" := "दोपहर",
    "Morning" := "सुबह",
    "Eat" := "खाना",
    "She" := "वह(लड़की)",
    "He" := "वह(लड़का)",
    "Pray" := "प्रार्थना",
    "Work" := "काम",
    "Study" := "पढ़ाई",
    "Truth" := "सच",
    "Small" := "छोटा",
    "Congratulations" := "बधाई",
    "Sleep" := "सोना",
    "Water" := "पानी",
    "Need" := "जरूरत",
    "You" := "आप",
    "I" := "मैं",
    "Good" := "अच्छी",
    "Hate" := "नफरत",
    "Hello" := "नमस्ते",
    "Hurts a lot" := "बहुत दर्द होता है",
    "I Love You" := "मैं तुमसे प्यार करता हूँ",
    "Love" := "प्यार",
    "Receive" := "प्राप्त करना",
    "Thank you" := "धन्यवाद",
    "Call Me" := "मुझे कॉल करें",
    "Crime" := "अपराध",
    "Peace" := "शांति",
    "Happy" := "खुश",
    "Promise" := "वादा"
  ]

  /** `hindi_translation.get(word, word)`: an unknown word stands for
      itself. */
  function Lookup(word: string): (r: string)
    ensures word !in HindiTable ==> r == word
    ensures word != [] ==> r != []
  {
    if word in HindiTable then HindiTable[word] else word
  }

  /** Every word looked up on its own, in order. */
  function LookupAll(words: seq<string>): (r: seq<string>)
    ensures |r| == |words|
    ensures forall i :: 0 <= i < |words| ==> r[i] == Lookup(words[i])
  {
    if words == [] then [] else [Lookup(words[0])] + LookupAll(words[1..])
  }

  /** The value `detected_hindi` is given from `detected_text`:
      `" ".join(hindi_translation.get(w, w) for w in text.split())`. */
  function HindiOf(text: string): (r: string)
    ensures r == [] <==> Split(text) == []
  {
    var looked := LookupAll(Split(text));
    LookupAllNonEmpty(text);
    JoinEmpty(" ", looked);
    Join(" ", looked)
  }

  /** `a` and `b` joined with one space, or whichever is not empty. */
  function JoinNonEmpty(a: string, b: string): string
  {
    if a == [] then b else if b == [] then a else a + " " + b
  }

  /** The table covers the labels: 31 labels, each a key. */
  lemma LabelsCovered()
    ensures |Labels| == 31
    ensures forall i :: 0 <= i < |Labels| ==> Labels[i] in HindiTable
  {
  }

  /** Every label is a non-empty string that starts and ends with a letter. */
  lemma LabelsTrimmed()
    ensures forall i :: 0 <= i < |Labels| ==>
      Labels[i] != [] && !IsSpace(Labels[i][0]) && !IsSpace(Labels[i][|Labels[i]| - 1])
  {
  }

  lemma LookupAllAppend(a: seq<string>, b: seq<string>)
    ensures LookupAll(a + b) == LookupAll(a) + LookupAll(b)
  {
    var joined, parts := LookupAll(a + b), LookupAll(a) + LookupAll(b);
    forall i | 0 <= i < |joined|
      ensures joined[i] == parts[i]
    {
      if i < |a| {
        assert (a + b)[i] == a[i];
      } else {
        assert (a + b)[i] == b[i - |a|];
      }
    }
  }

  /** No looked-up word is empty: table values are not, and an unknown word
      comes from `split()`, which yields no empty words. */
  lemma LookupAllNonEmpty(text: string)
    ensures forall i :: 0 <= i < |LookupAll(Split(text))| ==> LookupAll(Split(text))[i] != []
  {
    var words := Split(text);
    forall i | 0 <= i < |words| ensures Lookup(words[i]) != [] {
      assert words[i] in words;
    }
  }

  /** A trailing space changes nothing: `add_space` leaves the value of
      `detected_hindi` as it was. */
  lemma HindiOfTrailingSpace(text: string)
    ensures HindiOf(text + " ") == HindiOf(text)
  {
    SplitTrailingSpace(text, ' ');
  }

  /** Appending a label and a space to a text that is empty or ends in
      whitespace appends the label's translation, space-separated. */
  lemma HindiOfAppend(text: string, sign: string)
    requires text == [] || IsSpace(text[|text| - 1])
    ensures Split(text + sign + " ") == Split(text) + Split(sign)
    ensures HindiOf(text + sign + " ") == JoinNonEmpty(HindiOf(text), HindiOf(sign))
  {
    assert text + sign + " " == text + (sign + " ");
    SplitConcat(text, sign + " ");
    SplitTrailingSpace(sign, ' ');
    var a, b := LookupAll(Split(text)), LookupAll(Split(sign));
    LookupAllAppend(Split(text), Split(sign));
    if a == [] {
      assert a + b == b;
    } else if b == [] {
      assert a + b == a;
    } else {
      JoinAppend(" ", a, b);
    }
  }

  /** A label of one word is translated by its own table entry. */
  lemma SingleWordLabel(sign: string)
    requires sign in HindiTable && sign != [] && !HasSpace(sign)
    ensures HindiOf(sign + " ") == HindiTable[sign]
  {
    SplitWord(sign);
  }

  /** The lookup is per word, so no string containing a space, such as the
      table's four phrase keys, is ever looked up, whatever the text. */
  lemma PhraseKeysUnreachable(text: string, key: string)
    requires HasSpace(key)
    ensures key !in Split(text)
  {
  }

  /** A phrase none of whose words is a key, followed by a space, comes
      back unchanged: each word passes through on its own. */
  lemma PhraseUntranslated(phrase: string, words: seq<string>)
    requires forall i :: 0 <= i < |words| ==> UnknownWord(words[i])
    requires phrase == Join(" ", words)
    ensures HindiOf(phrase + " ") == phrase
  {
    SplitRoundTrip(words);
    UnknownWords(words);
  }

  /** The phrase labels are never translated as phrases: "Thank you",
      "Call Me" and "Hurts a lot" come back word for word. */
  lemma PhraseLabelsUntranslated(sign: string)
    requires sign == "Thank you" || sign == "Call Me" || sign == "Hurts a lot"
    ensures sign in Labels && HindiOf(sign + " ") == sign
  {
    var words: seq<string>;
    if sign == "Thank you" {
      words := ThankYouWords();
    } else if sign == "Call Me" {
      words := CallMeWords();
    } else {
      words := HurtsALotWords();
    }
    PhraseUntranslated(sign, words);
  }

  /** The words of "Thank you", none of them a key. */
  lemma ThankYouWords() returns (words: seq<string>)
    ensures Join(" ", words) == "Thank you"
    ensures forall i :: 0 <= i < |words| ==> UnknownWord(words[i])
  {
    words := ["Thank", "you"];
    UnknownLetters(words[0]);
    UnknownLetters(words[1]);
    Join2(words);
  }

  /** The words of "Call Me", none of them a key. */
  lemma CallMeWords() returns (words: seq<string>)
    ensures Join(" ", words) == "Call Me"
    ensures forall i :: 0 <= i < |words| ==> UnknownWord(words[i])
  {
    words := ["Call", "Me"];
    UnknownLetters(words[0]);
    UnknownLetters(words[1]);
    Join2(words);
  }

  /** The words of "Hurts a lot", none of them a key. */
  lemma HurtsALotWords() returns (words: seq<string>)
    ensures Join(" ", words) == "Hurts a lot"
    ensures forall i :: 0 <= i < |words| ==> UnknownWord(words[i])
  {
    words := ["Hurts", "a", "lot"];
    UnknownLetters(words[0]);
    UnknownLetters(words[1]);
    UnknownLetters(words[2]);
    Join3(words);
  }

  /** "I Love You" is translated one word at a time, which differs from its
      own entry. */
  lemma ILoveYouWordByWord(sign: string)
    requires sign == "I Love You"
    ensures sign in Labels
    ensures HindiOf(sign + " ") == HindiTable["I"] + " " + HindiTable["Love"] + " " + HindiTable["You"]
    ensures HindiOf(sign + " ") != HindiTable[sign]
  {
    var words := ILoveYouWords();
    SplitRoundTrip(words);
    var looked := LookupAll(words);
    assert looked == [HindiTable["I"], HindiTable["Love"], HindiTable["You"]];
    Join3(looked);
    assert |HindiTable["I"] + " " + HindiTable["Love"] + " " + HindiTable["You"]| < |HindiTable[sign]|;
  }

  /** The words of "I Love You", each of them a key. */
  lemma ILoveYouWords() returns (words: seq<string>)
    ensures words == ["I", "Love", "You"]
    ensures Join(" ", words) == "I Love You"
    ensures forall i :: 0 <= i < |words| ==> words[i] != [] && !HasSpace(words[i])
  {
    words := ["I", "Love", "You"];
    LetterWord(words[0]);
    LetterWord(words[1]);
    LetterWord(words[2]);
    Join3(words);
  }

  /** A word of its own that has no entry. */
  predicate UnknownWord(w: string)
  {
    w != [] && !HasSpace(w) && w !in HindiTable
  }

  /** A non-empty run of ASCII letters is one word. */
  lemma LetterWord(w: string)
    requires w != [] && forall i :: 0 <= i < |w| ==> 'A' <= w[i] <= 'Z' || 'a' <= w[i] <= 'z'
    ensures w != [] && !HasSpace(w)
  {
    forall i | 0 <= i < |w| ensures !IsSpace(w[i]) {
      assert 'A' <= w[i] <= 'z';
    }
  }

  /** A run of ASCII letters without an entry is an unknown word. */
  lemma UnknownLetters(w: string)
    requires w != [] && forall i :: 0 <= i < |w| ==> 'A' <= w[i] <= 'Z' || 'a' <= w[i] <= 'z'
    requires w !in HindiTable
    ensures UnknownWord(w)
  {
    LetterWord(w);
  }

  /** Words none of which is a key stand for themselves. */
  lemma UnknownWords(words: seq<string>)
    requires forall i :: 0 <= i < |words| ==> UnknownWord(words[i])
    ensures LookupAll(words) == words
  {
  }

  lemma Join2(parts: seq<string>)
    requires |parts| == 2
    ensures Join(" ", parts) == parts[0] + " " + parts[1]
  {
    assert |parts[1..]| == 1;
  }

  lemma Join3(parts: seq<string>)
    requires |parts| == 3
    ensures Join(" ", parts) == parts[0] + " " + parts[1] + " " + parts[2]
  {
    Join2(parts[1..]);
  }
}
