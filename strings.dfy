/** The pieces of Python's string semantics that the two translators rely
    on: `''.join`, `' '.join` and `str.split()` with no separator. */
module Strings {

  /** Python's `str.isspace()` for a single character: the characters that
      `str.split()` with no argument treats as separators. */
  predicate IsSpace(c: char)
  {
    var n := c as int;
    (0x09 <= n <= 0x0D) || (0x1C <= n <= 0x20) || n == 0x85 || n == 0xA0 ||
    n == 0x1680 || (0x2000 <= n <= 0x200A) || n == 0x2028 || n == 0x2029 ||
    n == 0x202F || n == 0x205F || n == 0x3000
  }

  predicate HasSpace(s: string)
  {
    exists i :: 0 <= i < |s| && IsSpace(s[i])
  }

  /** The number of characters in all the parts together. */
  function TotalLength(parts: seq<string>): nat
  {
    if parts == [] then 0 else |parts[0]| + TotalLength(parts[1..])
  }

  lemma {:induction false} TotalLengthLast(parts: seq<string>)
    requires parts != []
    ensures TotalLength(parts) == TotalLength(parts[..|parts| - 1]) + |parts[|parts| - 1]|
    decreases |parts|
  {
    if |parts| > 1 {
      assert parts[1..][..|parts[1..]| - 1] == parts[..|parts| - 1][1..];
      TotalLengthLast(parts[1..]);
    }
  }

  /** `''.join(parts)`: every character of every part, nothing else. */
  function Concat(parts: seq<string>): (r: string)
    ensures |r| == TotalLength(parts)
  {
    if parts == [] then []
    else
      TotalLengthLast(parts);
      Concat(parts[..|parts| - 1]) + parts[|parts| - 1]
  }

  lemma {:induction false} ConcatAppend(a: seq<string>, b: seq<string>)
    ensures Concat(a + b) == Concat(a) + Concat(b)
    decreases |b|
  {
    if b == [] {
      assert a + b == a;
    } else {
      var b' := b[..|b| - 1];
      assert (a + b)[..|a + b| - 1] == a + b';
      assert Concat(a + b) == Concat(a + b') + b[|b| - 1];
      ConcatAppend(a, b');
      assert Concat(b) == Concat(b') + b[|b| - 1];
    }
  }

  /** The length of `count` copies of `sep`. */
  function SepLength(sep: string, count: nat): nat
  {
    if count == 0 then 0 else |sep| + SepLength(sep, count - 1)
  }

  /** `sep.join(parts)`: the parts, with one separator between each two. */
  function Join(sep: string, parts: seq<string>): (r: string)
    ensures parts == [] ==> r == []
    ensures parts != [] ==> |r| == TotalLength(parts) + SepLength(sep, |parts| - 1)
  {
    if parts == [] then []
    else if |parts| == 1 then parts[0]
    else parts[0] + sep + Join(sep, parts[1..])
  }

  /** Joining two non-empty lists puts exactly one separator between them. */
  lemma {:induction false} JoinAppend(sep: string, a: seq<string>, b: seq<string>)
    requires a != [] && b != []
    ensures Join(sep, a + b) == Join(sep, a) + sep + Join(sep, b)
    decreases |a|
  {
    if |a| == 1 {
      assert (a + b)[1..] == b;
    } else {
      assert (a + b)[1..] == a[1..] + b;
      JoinAppend(sep, a[1..], b);
    }
  }

  /** A join of non-empty parts is empty exactly when there are no parts. */
  lemma {:induction false} JoinEmpty(sep: string, parts: seq<string>)
    requires forall i :: 0 <= i < |parts| ==> parts[i] != []
    ensures Join(sep, parts) == [] <==> parts == []
    decreases |parts|
  {
    if |parts| > 1 {
      JoinEmpty(sep, parts[1..]);
    }
  }

  /** The number of non-whitespace characters that start `s`. */
  function WordLen(s: string): (n: nat)
    ensures n <= |s|
    ensures forall i :: 0 <= i < n ==> !IsSpace(s[i])
    ensures n < |s| ==> IsSpace(s[n])
  {
    if s == [] || IsSpace(s[0]) then 0 else 1 + WordLen(s[1..])
  }

  /** `s.split()`: the maximal runs of non-whitespace characters, in order;
      leading, trailing and repeated whitespace produce no empty words. */
  function Split(s: string): (words: seq<string>)
    ensures forall w :: w in words ==> w != [] && !HasSpace(w)
    decreases |s|
  {
    if s == [] then []
    else if IsSpace(s[0]) then Split(s[1..])
    else
      var n := WordLen(s);
      [s[..n]] + Split(s[n..])
  }

  /** Extending a string whose first word is already ended does not change
      where that word ends. */
  lemma {:induction false} WordLenAppend(s: string, t: string)
    requires WordLen(s) < |s| || t == [] || IsSpace(t[0])
    ensures WordLen(s + t) == WordLen(s)
    decreases |s|
  {
    if s == [] {
    } else if IsSpace(s[0]) {
    } else {
      assert (s + t)[1..] == s[1..] + t;
      WordLenAppend(s[1..], t);
    }
  }

  /** Trailing whitespace never changes the result of `split()`. */
  lemma {:induction false} SplitTrailingSpace(s: string, c: char)
    requires IsSpace(c)
    ensures Split(s + [c]) == Split(s)
    decreases |s|
  {
    if s == [] {
      assert Split([c]) == Split([c][1..]);
    } else if IsSpace(s[0]) {
      assert (s + [c])[1..] == s[1..] + [c];
      SplitTrailingSpace(s[1..], c);
    } else {
      var n := WordLen(s);
      WordLenAppend(s, [c]);
      assert (s + [c])[..n] == s[..n];
      assert (s + [c])[n..] == s[n..] + [c];
      SplitTrailingSpace(s[n..], c);
    }
  }

  /** When `a` is empty or ends in whitespace, no word straddles the border,
      so `(a + b).split()` is `a.split() + b.split()`. */
  lemma {:induction false} SplitConcat(a: string, b: string)
    requires a == [] || IsSpace(a[|a| - 1])
    ensures Split(a + b) == Split(a) + Split(b)
    decreases |a|
  {
    if a == [] {
      assert a + b == b;
    } else if IsSpace(a[0]) {
      assert (a + b)[1..] == a[1..] + b;
      SplitConcat(a[1..], b);
    } else {
      var n := WordLen(a);
      WordLenAppend(a, b);
      assert (a + b)[..n] == a[..n];
      assert (a + b)[n..] == a[n..] + b;
      SplitConcat(a[n..], b);
    }
  }

  /** A single word splits to itself, also with a space after it. */
  lemma SplitWord(w: string)
    requires w != [] && !HasSpace(w)
    ensures Split(w) == [w]
    ensures Split(w + " ") == [w]
  {
    assert forall i :: 0 <= i < |w| ==> !IsSpace(w[i]);
    assert WordLen(w) == |w|;
    assert w[|w|..] == [];
    SplitTrailingSpace(w, ' ');
  }

  /** The characters of `s` that are not whitespace, in order. */
  function NonSpace(s: string): string
  {
    if s == [] then [] else (if IsSpace(s[0]) then [] else [s[0]]) + NonSpace(s[1..])
  }

  lemma {:induction false} NonSpaceAppend(a: string, b: string)
    ensures NonSpace(a + b) == NonSpace(a) + NonSpace(b)
    decreases |a|
  {
    if a == [] {
      assert a + b == b;
    } else {
      assert (a + b)[1..] == a[1..] + b;
      NonSpaceAppend(a[1..], b);
    }
  }

  lemma {:induction false} NonSpaceWord(w: string)
    requires forall i :: 0 <= i < |w| ==> !IsSpace(w[i])
    ensures NonSpace(w) == w
    decreases |w|
  {
    if w != [] {
      NonSpaceWord(w[1..]);
    }
  }

  /** `split()` loses no character but whitespace: its words, put back
      together, are the string without its whitespace. */
  lemma {:induction false} SplitContent(s: string)
    ensures Concat(Split(s)) == NonSpace(s)
    decreases |s|
  {
    if s == [] {
    } else if IsSpace(s[0]) {
      SplitContent(s[1..]);
    } else {
      var n := WordLen(s);
      var word := s[..n];
      SplitContent(s[n..]);
      ConcatAppend([word], Split(s[n..]));
      assert Concat([word]) == word by {
        assert [word][..0] == [];
      }
      NonSpaceWord(word);
      NonSpaceAppend(word, s[n..]);
      assert s == word + s[n..];
    }
  }

  /** Words without whitespace, joined by single spaces and followed by a
      space, split back into the same words. */
  lemma {:induction false} SplitRoundTrip(words: seq<string>)
    requires forall i :: 0 <= i < |words| ==> words[i] != [] && !HasSpace(words[i])
    ensures Split(Join(" ", words) + " ") == words
    decreases |words|
  {
    if words == [] {
      assert Split(" ") == Split(" "[1..]);
    } else if |words| == 1 {
      SplitWord(words[0]);
    } else {
      var rest := words[1..];
      var joined := Join(" ", rest);
      SplitRoundTrip(rest);
      SplitWord(words[0]);
      assert Join(" ", words) == words[0] + " " + joined;
      assert Join(" ", words) + " " == (words[0] + " ") + (joined + " ");
      SplitConcat(words[0] + " ", joined + " ");
      assert words == [words[0]] + rest;
    }
  }
}
