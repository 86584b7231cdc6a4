# Smart Hindi Sign Language Interpreter: the transcription state machines

The repository serves two Flask services. They read a webcam, classify the
signing hand with a neural network, and accumulate what they recognise as
English text with a Hindi rendering beside it:

- **Alphabet detection** (`AlphabetDetection/app.py`) recognises the digits
  1 to 9 and the letters A to Z. A prediction is appended only after the
  same confident label is seen four times in a row, at least 2 seconds after
  the last append, and never twice in succession. The Hindi text is produced
  character by character from a transliteration table.
- **Word detection** (`WordsDetection/app_word.py`) recognises 31 words and
  phrases. A label is appended when the debounce of 1 second has passed, the
  confidence exceeds 0.9, and the label differs from the previous one. The
  Hindi text is recomputed by splitting the English text into words and
  looking each word up.

The model keeps each service's module-level globals as the fields of a class:
`AlphabetApp.AlphabetTranscriber` and `WordApp.WordTranscriber`. Each route
handler and the per-frame update are methods of that class. A ghost history
of the labels appended since the last clear carries the invariants across
calls. The camera, MediaPipe, the Keras and cvzone classifiers and the clock
are not modelled. A frame arrives as what they report, and `now` is a
parameter. The translation tables, Python's `str.split()`, `' '.join` and
`''.join`, `pre_process_landmark` and the crop clamp are modelled as
functions and methods over values.

Highlights of what is proved:

- Transliteration is a homomorphism: `translate(a + b) == translate(a) + translate(b)`.
- `detected_hindi` is always the word-by-word translation of
  `detected_text`. A trailing space never changes it, so `add_space` leaves
  it as it was.
- No label is ever appended twice in a row between clears, in either
  service.
- The four phrase labels ("Thank you", "Hurts a lot", "Call Me",
  "I Love You") are never translated as phrases, because lookup happens one
  word at a time.
- `pre_process_landmark` yields `2n` values whose first two are 0. Over
  exact reals every value lies in [-1, 1], and the bound is reached unless
  every landmark sits on the wrist.
- The clamped crop starts are at least 0 and its ends at most the image's
  size, and an image pixel lies between them exactly when it lies in the
  enlarged box. When the enlarged box does not end above or left of the
  image, the crop is empty exactly when the box misses the image. A box
  whose enlarged bottom edge lies above the image, by less than the image's
  height, gives a negative `y_end`, which Python slicing reads from the
  bottom, so the crop is not empty.

Files: `wrappers.dfy` (Option), `history.dfy` (appended-label history),
`strings.dfy` (Python string operations), `alphabet_tables.dfy`,
`landmarks.dfy`, `alphabet_app.dfy`, `word_tables.dfy`, `crop.dfy`,
`word_app.dfy`.

## Model

| member | source | states |
|---|---|---|
| AlphabetTables.CharImage | AlphabetDetection/app.py:121 | a character missing from the table stands for itself, and no character's image is empty |
| AlphabetTables.Transliteration | AlphabetDetection/app.py:118-122 | the transliteration is at least as long as the text and is empty only for the empty text |
| AlphabetTables.AlphabetCovered | AlphabetDetection/app.py:34-80 | the alphabet has 35 labels; each is a single non-space character with a table entry; the space maps to a space |
| AlphabetTables.TranslateToHindi | AlphabetDetection/app.py:118-122 | the loop that collects per-character images and joins them computes the transliteration of the whole text |
| AlphabetTables.TransliterationConcat | AlphabetDetection/app.py:118-122 | each character is translated independently: translating a concatenation is concatenating the translations |
| AlphabetTables.TransliterationPassThrough | AlphabetDetection/app.py:121 | characters missing from the table come back unchanged |
| AlphabetTables.TransliterationOfLabel | AlphabetDetection/app.py:170 | appending a label and a space appends the label's Hindi name and a space to the transliteration |
| Landmarks.Rebase | AlphabetDetection/app.py:109-112 | the result has one point per landmark, each the landmark minus the base |
| Landmarks.Flatten | AlphabetDetection/app.py:113 | flattening gives 2n values with x of landmark k at 2k and y at 2k+1 |
| Landmarks.MaxAbs | AlphabetDetection/app.py:114 | the result bounds every absolute value and equals one of them |
| Landmarks.Divisor | AlphabetDetection/app.py:114 | `max(...) or 1` is at least 1 and at least every absolute value, so the division is defined |
| Landmarks.Normalized | AlphabetDetection/app.py:109-115 | the returned vector has two entries per landmark |
| Landmarks.PreProcessLandmark | AlphabetDetection/app.py:107-116 | the in-place re-basing loop, flattening and division compute the normalised vector |
| Landmarks.NormalizedShape | AlphabetDetection/app.py:109-113 | the vector has two entries per landmark and the first two are 0 |
| Landmarks.NormalizedBounded | AlphabetDetection/app.py:114-115 | with the divisor the largest absolute offset, or 1 when that is 0, every entry lies in [-1, 1] |
| Landmarks.NormalizedTight | AlphabetDetection/app.py:114-115 | when some landmark differs from the wrist, some entry is exactly 1 or -1 |
| Landmarks.NormalizedTranslationInvariant | AlphabetDetection/app.py:109-112 | shifting every landmark by the same amount leaves the vector unchanged |
| History.AppendKeepsNoRepeats | AlphabetDetection/app.py:169-171 | appending keeps the history free of adjacent repeats exactly when the label differs from the last appended one |
| AlphabetApp.Confident | AlphabetDetection/app.py:148-160 | the gates before a prediction counts: 2 seconds since the last append, 21 landmarks, an index that names a label, confidence at least 0.90 |
| AlphabetApp.LettersOfLabel | AlphabetDetection/app.py:170 | appending a one-letter label and a space adds exactly that letter to the text's letters |
| AlphabetApp.AppendRecorded | AlphabetDetection/app.py:169-172 | appending a label other than the last added one keeps the record: labels from the alphabet, no two equal in a row, the last one remembered, the text's letters equal to the labels |
| AlphabetApp.AlphabetTranscriber.constructor | AlphabetDetection/app.py:89-96 | empty texts, time 0, no last label, counter 0, no last added text |
| AlphabetApp.AlphabetTranscriber.ProcessFrame | AlphabetDetection/app.py:136-180 | without a hand the counter becomes 0 and the label None, and the texts are kept; a hand failing the debounce, 21-landmark, index or 0.90 gates changes nothing; a confident label extends or restarts the run; reaching 4 resets the counter and appends `label + " "` only if the label differs from the last added one, then records it and the time; the text only grows and the invariant (no adjacent repeats, letters equal the appended labels) is kept |
| AlphabetApp.AlphabetTranscriber.CountPrediction | AlphabetDetection/app.py:161-173 | a confident label extends its run or starts a run of 1; a run of 4 is reset and appends the label and a space unless it is the last added label, recording it and the time; the invariant is kept |
| AlphabetApp.AlphabetTranscriber.GetText | AlphabetDetection/app.py:211-218 | sets the Hindi text to the transliteration of the text and returns both |
| AlphabetApp.AlphabetTranscriber.ClearText | AlphabetDetection/app.py:220-228 | empties both texts, forgets label, counter and last added text, and keeps the last prediction time |
| AlphabetApp.AlphabetTranscriber.AddSpace | AlphabetDetection/app.py:230-235 | appends exactly one space; the Hindi text becomes the transliteration of the text, which is the old text's transliteration plus one space |
| Strings.Concat | AlphabetDetection/app.py:122 | `''.join` keeps every character of every part: its length is the parts' total length |
| Strings.Join | WordsDetection/app_word.py:122 | `sep.join` of n parts has the parts' total length plus n - 1 separators, and is empty for no parts |
| Strings.ConcatAppend | AlphabetDetection/app.py:122 | `''.join` of two lists is the concatenation of their joins |
| Strings.JoinAppend | WordsDetection/app_word.py:122 | `' '.join` of two non-empty lists puts exactly one space between their joins |
| Strings.JoinEmpty | WordsDetection/app_word.py:122 | a join of non-empty parts is empty exactly when there are no parts |
| Strings.WordLen | WordsDetection/app_word.py:122 | the leading run of non-whitespace ends at the string's end or at whitespace |
| Strings.Split | WordsDetection/app_word.py:122 | `split()` yields only non-empty words without whitespace |
| Strings.SplitContent | WordsDetection/app_word.py:122 | the words of `split()`, put back together, are exactly the string's non-whitespace characters, in order |
| Strings.SplitRoundTrip | WordsDetection/app_word.py:121-122 | words without whitespace, joined by single spaces and followed by a space, split back into the same words |
| Strings.WordLenAppend | WordsDetection/app_word.py:122 | extending a string whose first word already ended does not move that end |
| Strings.SplitTrailingSpace | WordsDetection/app_word.py:157-158 | trailing whitespace never changes `split()` |
| Strings.SplitConcat | WordsDetection/app_word.py:121-122 | when the first string is empty or ends in whitespace, splitting the concatenation concatenates the splits |
| Strings.SplitWord | WordsDetection/app_word.py:122 | a single word, with or without a trailing space, splits to itself |
| WordTables.LabelsCovered | WordsDetection/app_word.py:16-56 | there are 31 labels and each is a key of the translation table |
| WordTables.LabelsTrimmed | WordsDetection/app_word.py:16-21 | every label is non-empty and neither starts nor ends with whitespace |
| WordTables.Lookup | WordsDetection/app_word.py:122 | `.get(word, word)`: a word without an entry stands for itself, and a non-empty word never translates to the empty string |
| WordTables.LookupAll | WordsDetection/app_word.py:122 | each word is looked up on its own, unknown words passing through |
| WordTables.LookupAllNonEmpty | WordsDetection/app_word.py:122 | no translated word is empty |
| WordTables.HindiOf | WordsDetection/app_word.py:122 | the value given to `detected_hindi`; it is empty exactly when the text has no words |
| WordTables.HindiOfTrailingSpace | WordsDetection/app_word.py:157-158 | a trailing space leaves the translation unchanged |
| WordTables.HindiOfAppend | WordsDetection/app_word.py:121-122 | appending a label and a space to a text ending in whitespace appends the label's words, and the label's translation after one space |
| WordTables.SingleWordLabel | WordsDetection/app_word.py:122 | a one-word label followed by a space translates to its table entry |
| WordTables.PhraseKeysUnreachable | WordsDetection/app_word.py:46-51 | no string containing a space, the phrase keys included, is ever among the words looked up, whatever the text |
| WordTables.PhraseUntranslated | WordsDetection/app_word.py:122 | a phrase none of whose words is a key, followed by a space, translates to itself |
| WordTables.PhraseLabelsUntranslated | WordsDetection/app_word.py:46-51 | "Thank you ", "Call Me " and "Hurts a lot " translate to themselves, not to their table entries |
| WordTables.ILoveYouWordByWord | WordsDetection/app_word.py:47 | "I Love You " translates word by word via the entries for "I", "Love" and "You", not to its phrase entry |
| Crop.CropBox | WordsDetection/app_word.py:89-92 | 0 <= y_start, y_end <= height, 0 <= x_start, x_end <= width; an image pixel lies within the bounds exactly when it lies in the box enlarged by 20 |
| Crop.SliceLen | WordsDetection/app_word.py:94 | the length of a slice is at most the axis; between in-range bounds it is stop - start, and 0 when stop does not exceed start |
| Crop.CropEmpty | WordsDetection/app_word.py:94-97 | `imgCrop.size == 0` holds exactly when rows times columns times three channels is 0 |
| Crop.SliceBound | WordsDetection/app_word.py:94 | a resolved slice bound lies within the axis |
| Crop.CropMatchesOverlap | WordsDetection/app_word.py:89-96 | when the enlarged box does not end above or left of the image, the crop's extent is its overlap with the image, so the crop is empty exactly when the box misses the image |
| Crop.NegativeEndWrapsAround | WordsDetection/app_word.py:90-96 | a box whose enlarged bottom edge lies above the image by less than its height gives a negative `y_end`; the crop is then not empty but holds the top `height + y_end` rows, although the enlarged box misses the image |
| Crop.NegativeEndExample | WordsDetection/app_word.py:90-96 | a box 10 high at y = -100 in a 480 by 640 image gives `y_end` = -70 and a crop of 410 rows |
| WordApp.Confident | WordsDetection/app_word.py:96-118 | the gates before a label is looked up: a non-empty crop, 1 second since the last append, confidence above 0.9 |
| WordApp.Accepted | WordsDetection/app_word.py:117-120 | a label is appended when it passes those gates, its index names a label, and it differs from the last one |
| WordApp.AppendConsistent | WordsDetection/app_word.py:120-124 | appending a label other than the last one keeps the invariant and extends the translation by the label's translation |
| WordApp.SpaceConsistent | WordsDetection/app_word.py:157-158 | appending a space keeps the invariant and the translation |
| WordApp.WordTranscriber.constructor | WordsDetection/app_word.py:67-71 | empty texts, time 0, no last label |
| WordApp.WordTranscriber.ProcessFrame | WordsDetection/app_word.py:83-124 | nothing changes without a hand, with an empty crop, before 1 second has passed, at confidence at most 0.9, or for the last label; otherwise `label + " "` is appended, the translation grows by the label's translation, and label and time are recorded; an index past the labels stops the loop; the text only grows and the invariant is kept |
| WordApp.WordTranscriber.OfferLabel | WordsDetection/app_word.py:120-124 | the last label again changes nothing; any other label is appended with a space, the translation grows by the label's translation, and label and time are recorded; the invariant is kept |
| WordApp.WordTranscriber.GetText | WordsDetection/app_word.py:139-144 | returns both texts, the Hindi one being the translation of the English one |
| WordApp.WordTranscriber.ClearText | WordsDetection/app_word.py:146-152 | empties both texts and forgets the last label, but keeps the last prediction time |
| WordApp.WordTranscriber.AddSpace | WordsDetection/app_word.py:154-159 | appends exactly one space, keeps the last label, and leaves the translation's value unchanged |

## Left out

- HTTP plumbing is not modelled: the Flask routes that only render or serve (`index`, `alphabet_detection`, `video_feed`), `render_template`, `jsonify` and the multipart JPEG stream.
- The camera, MediaPipe, TensorFlow `model.predict` and the cvzone `HandDetector` and `Classifier` are foreign libraries. Their outputs are method parameters.
- `time.time()` is not modelled; the time is the parameter `now`.
- Times and confidences are exact reals, not IEEE floats. In particular, the model does not capture that NumPy compares a float32 maximum against the float64 `0.90`.
- `calc_landmark_list` (AlphabetDetection/app.py:98-105) is floating-point pixel scaling and is not modelled. The frame passes on only its landmark count.
- The loop over detected hands (AlphabetDetection/app.py:137) is modelled as at most one hand, because the tracker is configured with `max_num_hands=1`.
- The `frame is None` early return (AlphabetDetection/app.py:127-128) is not modelled, because `gen_frames` stops before passing a failed read. Likewise, a failed camera read in the word service (WordsDetection/app_word.py:77-78) only restarts the loop.
- The aspect-ratio resize onto the white square (WordsDetection/app_word.py:99-112) is floating-point image work and is not modelled. A degenerate bounding box of zero width or height, which would make it raise, is not modelled either.
- Landmarks.PreProcessLandmark: requires at least one landmark. On an empty list the source raises at AlphabetDetection/app.py:109, but its only caller passes exactly 21.
- `threaded=True` and the unsynchronised globals are not modelled: handlers are sequential calls.
- The logging of a caught prediction error (AlphabetDetection/app.py:176) is not modelled.
- The React front end (theme switching, animations, the redirect to the detection service) is presentational. The context that provides `toggleTheme` is not part of this model.
