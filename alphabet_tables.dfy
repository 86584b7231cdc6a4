/** The label set of the alphabet detector and its character-by-character
    Hindi transliteration (AlphabetDetection/app.py). */
module AlphabetTables {
  import opened Strings

  /** The classifier's 35 output classes, in index order: the digits 1 to 9,
      then the upper-case letters A to Z. */
  const Alphabet: seq<string> := [
    "1", "2", "3", "4", "5", "6", "7", "8", "9",
    "A", "B", "C", "D", "E", "F", "G", "H", "I", "J", "K", "L", "M",
    "N", "O", "P", "Q", "R", "S", "T", "U", "V", "W", "X", "Y", "Z"]

  /** Hindi number words for the digits, Hindi letter names for the
      letters, and the space mapped to itself. */
  const HindiTable: map<char, string> := map[
    '1' := "एक",
    '2' := "दो",
    '3' := "तीन",
    '4' := "चार",
    '5' := "पाँच",
    '6' := "छह",
    '7' := "सात",
    '8' := "आठ",
    '9' := "नौ",
    'A' := "ए",
    'B' := "बी",
    'C' := "सी",
    'D' := "डी",
    'E' := "ई",
    'F' := "एफ़",
    'G' := "जी",
    'H' := "एच्च",
    'I' := "आई",
    'J' := "जे",
    'K' := "के",
    'L' := "एल",
    'M' := "एम",
    'N' := "एन",
    'O' := "ओ",
    'P' := "पी",
    'Q' := "क्यू",
    'R' := "आर",
    'S' := "एस",
    'T' := "टी",
    'U' := "यू",
    'V' := "वी",
    'W' := "डबल्यू",
    'X' := "एक्स",
    'Y' := "वाय",
    'Z' := "ज़ेड",
    ' ' := " "
  ]

  /** `hindi_translation.get(c, c)`: a character missing from the table
      stands for itself. */
  function CharImage(c: char): (r: string)
    ensures c !in HindiTable ==> r == [c]
    ensures r != []
  {
    if c in HindiTable then HindiTable[c] else [c]
  }

  /** The value `translate_to_hindi(text)` computes: no character is
      dropped, so it is at least as long as the text, and empty only for
      the empty text. */
  function Transliteration(text: string): (r: string)
    ensures |r| >= |text|
    ensures r == [] <==> text == []
  {
    if text == [] then [] else Transliteration(text[..|text| - 1]) + CharImage(text[|text| - 1])
  }

  /** `translate_to_hindi`: collects the image of every character in a
      list, in order, and joins the list. */
  method TranslateToHindi(text: string) returns (hindi: string)
    ensures hindi == Transliteration(text)
  {
    var translated: seq<string> := [];
    for i := 0 to |text|
      invariant Concat(translated) == Transliteration(text[..i])
    {
      var image := CharImage(text[i]);
      assert text[..i + 1][..i] == text[..i];
      assert Transliteration(text[..i + 1]) == Transliteration(text[..i]) + image;
      translated := translated + [image];
    }
    assert text[..|text|] == text;
    hindi := Concat(translated);
  }

  /** Every character is translated on its own: transliterating a
      concatenation is concatenating the transliterations. */
  lemma {:induction false} TransliterationConcat(a: string, b: string)
    ensures Transliteration(a + b) == Transliteration(a) + Transliteration(b)
    decreases |b|
  {
    if b == [] {
      assert a + b == a;
    } else {
      var b' := b[..|b| - 1];
      assert (a + b)[..|a + b| - 1] == a + b';
      TransliterationConcat(a, b');
    }
  }

  /** Text made only of characters outside the table comes back unchanged. */
  lemma {:induction false} TransliterationPassThrough(text: string)
    requires forall i :: 0 <= i < |text| ==> text[i] !in HindiTable
    ensures Transliteration(text) == text
    decreases |text|
  {
    if text != [] {
      var init, last := text[..|text| - 1], text[|text| - 1];
      TransliterationPassThrough(init);
      assert CharImage(last) == [last];
      assert text == init + [last];
    }
  }

  /** The table covers the alphabet: all 35 labels are single characters
      other than the space, each with an entry, and the space maps to a
      space. */
  lemma AlphabetCovered()
    ensures |Alphabet| == 35
    ensures forall i :: 0 <= i < |Alphabet| ==>
      |Alphabet[i]| == 1 && Alphabet[i][0] != ' ' && Alphabet[i][0] in HindiTable
    ensures ' ' in HindiTable && HindiTable[' '] == " "
  {
  }

  /** Every label is one character other than the space. */
  lemma LabelIsLetter(sign: string)
    requires sign in Alphabet
    ensures |sign| == 1 && sign[0] != ' '
  {
  }

  /** What appending one detected label and its trailing space does to the
      transliterated text. */
  lemma TransliterationOfLabel(text: string, sign: string)
    requires sign in Alphabet
    ensures |sign| == 1 && sign[0] in HindiTable
    ensures Transliteration(text + sign + " ") == Transliteration(text) + HindiTable[sign[0]] + " "
  {
    AlphabetCovered();
    TransliterationConcat(text, sign + " ");
    assert (sign + " ")[..1] == sign;
    assert sign[..0] == [];
  }
}
