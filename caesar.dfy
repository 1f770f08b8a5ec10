/**
  The Caesar-cipher decoder and the word matcher: every one of the 26 shifts
  of an upper-cased text, each capital letter moved back by the shift and
  every other character kept, and the words of a text that appear in a
  fixed list of common English words.
 */
module Caesar {
  import opened Seqs
  import opened Text

  /** The 26 capital letters in order, `alphabet` in the decoder. */
  const Alphabet: string := "ABCDEFGHIJKLMNOPQRSTUVWXYZ"

  /** The number of shifts tried, `range(26)`, and the length of the alphabet. */
  const Shifts: nat := 26

  /** A capital letter A to Z. */
  predicate IsLetter(c: char) {
    'A' <= c <= 'Z'
  }

  /** The capital letter at position `p`, counting from 0. */
  function Letter(p: int): (c: char)
    requires 0 <= p < Shifts
    ensures IsLetter(c)
  {
    ('A' as int + p) as char
  }

  /** The position of a capital letter in the alphabet. */
  function Position(c: char): (p: nat)
    requires IsLetter(c)
    ensures p < Shifts && Letter(p) == c
  {
    c as int - 'A' as int
  }

  /** Letters at the same position are the same letter, and each position holds one letter. */
  lemma LetterPosition(p: int)
    requires 0 <= p < Shifts
    ensures Position(Letter(p)) == p
  {
  }

  /**
    The alphabet spelled out letter by letter: position `p` holds `Letter(p)`,
    so `c in alphabet` holds exactly for the capitals and `alphabet.index(c)`
    is `Position(c)`, the one place where `c` occurs.
   */
  lemma AlphabetLetters()
    ensures |Alphabet| == Shifts
    ensures forall p :: 0 <= p < Shifts ==> Alphabet[p] == Letter(p)
  {
  }

  lemma InAlphabet(c: char)
    ensures c in Alphabet <==> IsLetter(c)
    ensures IsLetter(c) ==> Alphabet[Position(c)] == c
    ensures forall q :: 0 <= q < |Alphabet| && Alphabet[q] == c ==> q == Position(c)
  {
    AlphabetLetters();
    if IsLetter(c) {
      assert Alphabet[Position(c)] == c;
    }
  }

  /**
    One character of a decoded text: a capital letter moves back `shift`
    places, wrapping around (Python's `%` and Dafny's agree here, the divisor
    being positive); any other character is kept. Moving the result forward
    `shift` places lands on `c` again.
   */
  function DecodeChar(c: char, shift: int): (r: char)
    ensures IsLetter(c) ==> IsLetter(r) && (Position(r) + shift) % Shifts == Position(c)
    ensures !IsLetter(c) ==> r == c
  {
    if IsLetter(c) then
      var p := (Position(c) - shift) % Shifts;
      LetterPosition(p);
      ModBack(Position(c), shift);
      Letter(p)
    else c
  }

  /** The inverse move, used to state what decoding undoes: a capital letter moves forward `shift` places. */
  function EncodeChar(c: char, shift: int): (r: char)
    ensures IsLetter(c) ==> IsLetter(r) && Position(r) == (Position(c) + shift) % Shifts
    ensures !IsLetter(c) ==> r == c
  {
    if IsLetter(c) then
      var p := (Position(c) + shift) % Shifts;
      LetterPosition(p);
      Letter(p)
    else c
  }

  /** `((x - s) % 26 + s) % 26 == x` for a position `x` below 26. */
  lemma ModBack(x: int, s: int)
    requires 0 <= x < 26
    ensures ((x - s) % 26 + s) % 26 == x
  {
    var q := (x - s) / 26;
    assert (x - s) % 26 + s == x + 26 * (-q);
    ModMultiple(x, -q);
  }

  /** `((p + s) % 26 - s) % 26 == p` for a position `p` below 26. */
  lemma ModShift(p: int, s: int)
    requires 0 <= p < 26
    ensures ((p + s) % 26 - s) % 26 == p
  {
    var q := (p + s) / 26;
    assert (p + s) % 26 - s == p + 26 * (-q);
    ModMultiple(p, -q);
  }

  lemma ModMultiple(p: int, k: int)
    requires 0 <= p < 26
    ensures (p + 26 * k) % 26 == p
  {
  }

  /** The text decoded with `shift`, one character of `text.upper()` at a time. */
  function Decoded(text: string, shift: int): (r: string)
    ensures |r| == |text|
  {
    var u := Upper(text);
    seq(|u|, i requires 0 <= i < |u| => DecodeChar(u[i], shift))
  }

  /** `text.upper()` encrypted with `shift`. */
  function Encoded(text: string, shift: int): (r: string)
    ensures |r| == |text|
  {
    var u := Upper(text);
    seq(|u|, i requires 0 <= i < |u| => EncodeChar(u[i], shift))
  }

  /**
    `caesar_cipher_decode(text)`: for each shift from 0 to 25 the decoded
    text, built character by character.
   */
  method DecodeAll(text: string) returns (results: map<int, string>)
    ensures forall s :: s in results <==> 0 <= s < Shifts
    ensures forall s :: 0 <= s < Shifts ==> results[s] == Decoded(text, s)
  {
    results := map[];
    var shift := 0;
    while shift < Shifts
      invariant 0 <= shift <= Shifts
      invariant forall s :: s in results <==> 0 <= s < shift
      invariant forall s :: 0 <= s < shift ==> results[s] == Decoded(text, s)
    {
      var upper := Upper(text);
      var decoded := "";
      var j := 0;
      while j < |upper|
        invariant 0 <= j <= |upper|
        invariant |decoded| == j
        invariant forall i :: 0 <= i < j ==> decoded[i] == DecodeChar(upper[i], shift)
      {
        var next := DecodeOne(upper[j], shift);
        decoded := decoded + [next];
        j := j + 1;
      }
      results := results[shift := decoded];
      shift := shift + 1;
    }
  }

  /** The loop body for one character: look `c` up in the alphabet and take the letter `shift` places back. */
  method DecodeOne(c: char, shift: int) returns (next: char)
    ensures next == DecodeChar(c, shift)
  {
    InAlphabet(c);
    if c in Alphabet {
      var pos := Position(c);
      var newPos := (pos - shift) % Shifts;
      next := Alphabet[newPos];
    } else {
      next := c;
    }
  }

  /** A letter moved forward then back by the same shift is where it was. */
  lemma DecodeEncodeChar(c: char, shift: int)
    ensures DecodeChar(EncodeChar(c, shift), shift) == c
  {
    if IsLetter(c) {
      var e := EncodeChar(c, shift);
      var d := DecodeChar(e, shift);
      ModCancel(Position(d), Position(c), shift);
    }
  }

  /** A letter moved back then forward by the same shift is where it was. */
  lemma EncodeDecodeChar(c: char, shift: int)
    ensures EncodeChar(DecodeChar(c, shift), shift) == c
  {
    if IsLetter(c) {
      var e := EncodeChar(DecodeChar(c, shift), shift);
      assert Position(e) == Position(c);
    }
  }

  /** Adding the same shift to two positions below 26 keeps them apart. */
  lemma ModCancel(a: int, b: int, s: int)
    requires 0 <= a < 26 && 0 <= b < 26
    requires (a + s) % 26 == (b + s) % 26
    ensures a == b
  {
    ModShift(a, s);
    ModShift(b, s);
  }

  /** Both directions leave a text without small letters: it is its own upper case. */
  lemma ShiftedIsUpper(text: string, shift: int)
    ensures Upper(Decoded(text, shift)) == Decoded(text, shift)
    ensures Upper(Encoded(text, shift)) == Encoded(text, shift)
  {
    var u := Upper(text);
    var d := Decoded(text, shift);
    var e := Encoded(text, shift);
    forall i | 0 <= i < |text|
      ensures !('a' <= d[i] <= 'z') && !('a' <= e[i] <= 'z')
    {
    }
    UpperOfCapitals(d);
    UpperOfCapitals(e);
  }

  /** Decoding with the shift used to encrypt gives back the upper-cased text. */
  lemma DecodeEncoded(text: string, shift: int)
    ensures Decoded(Encoded(text, shift), shift) == Upper(text)
  {
    var e := Encoded(text, shift);
    ShiftedIsUpper(text, shift);
    forall i | 0 <= i < |text|
      ensures Decoded(e, shift)[i] == Upper(text)[i]
    {
      DecodeEncodeChar(Upper(text)[i], shift);
    }
  }

  /**
    Every one of the 26 candidates is an encryption of the upper-cased text
    with its own shift, so the decoder loses nothing: the text is among the
    candidates exactly when it was encrypted with some shift.
   */
  lemma EncodeDecoded(text: string, shift: int)
    ensures Encoded(Decoded(text, shift), shift) == Upper(text)
  {
    var d := Decoded(text, shift);
    ShiftedIsUpper(text, shift);
    forall i | 0 <= i < |text|
      ensures Encoded(d, shift)[i] == Upper(text)[i]
    {
      EncodeDecodeChar(Upper(text)[i], shift);
    }
  }

  /** Upper-casing leaves a text of capitals and non-letters as it is. */
  lemma UpperOfCapitals(s: string)
    requires forall i :: 0 <= i < |s| ==> !('a' <= s[i] <= 'z')
    ensures Upper(s) == s
  {
  }

  /** Shift 0 gives back the upper-cased text unchanged. */
  lemma DecodeShiftZero(text: string)
    ensures Decoded(text, 0) == Upper(text)
  {
    var u := Upper(text);
    forall i | 0 <= i < |u|
      ensures Decoded(text, 0)[i] == u[i]
    {
      DecodeCharZero(u[i]);
    }
  }

  lemma DecodeCharZero(c: char)
    ensures DecodeChar(c, 0) == c
  {
    if IsLetter(c) {
      assert Position(DecodeChar(c, 0)) == Position(c);
    }
  }

  /**
    Decoding moves letters only: every character that is not a capital letter
    keeps its place, so spaces, digits and punctuation, and with them the
    word boundaries, are the same in all 26 candidates.
   */
  lemma DecodedKeepsLayout(text: string, shift: int, i: nat)
    requires i < |text|
    ensures IsLetter(Decoded(text, shift)[i]) <==> IsLetter(Upper(text)[i])
    ensures !IsLetter(Upper(text)[i]) ==> Decoded(text, shift)[i] == Upper(text)[i]
  {
  }

  // ---------------------------------------------------------------------
  // The word matcher

  /** `common_words`: the list the matcher looks words up in. */
  const CommonWords: seq<string> := [
    "THE", "AND", "FOR", "ARE", "BUT", "NOT", "YOU", "ALL", "CAN", "HER",
    "WAS", "ONE", "OUR", "OUT", "DAY", "GET", "HAS", "HIM", "HIS", "HOW",
    "ITS", "MAY", "NEW", "NOW", "OLD", "SEE", "TWO", "WHO", "BOY", "DID",
    "CAR", "EAT", "FAR", "FUN", "GOT", "LET", "MAN", "PUT", "RUN", "SAY",
    "SHE", "TOO", "USE", "WAY", "WIN", "YES", "DOOR", "EMERGENCY", "STORAGE",
    "KEY", "MARS", "BASE", "STATION", "UNLOCK", "ACCESS", "CODE", "PASSWORD"
  ]

  /** `text.replace(',', ' ').replace('.', ' ')`. */
  function Cleaned(text: string): (r: string)
    ensures |r| == |text| && ',' !in r && '.' !in r
    ensures forall i :: 0 <= i < |text| && text[i] != ',' && text[i] != '.' ==> r[i] == text[i]
  {
    ReplaceChar(ReplaceChar(text, ',', ' '), '.', ' ')
  }

  /** `word.upper() in common_words`. */
  predicate IsCommon(word: string) {
    Upper(word) in CommonWords
  }

  /** The words of `text` that are in the list, in order and in their own case. */
  function MeaningfulWords(text: string): seq<string> {
    Filter(Words(Cleaned(text)), IsCommon)
  }

  /** `check_meaningful_words(text)`: scans the words and keeps the common ones. */
  method CheckMeaningfulWords(text: string) returns (found: seq<string>)
    ensures found == MeaningfulWords(text)
  {
    var words := Words(Cleaned(text));
    found := KeepMatching(words, IsCommon);
  }

  /** The scan over the words: each word that passes `keep` is appended, in order. */
  method KeepMatching<T>(words: seq<T>, keep: T -> bool) returns (found: seq<T>)
    ensures found == Filter(words, keep)
  {
    found := [];
    var i := 0;
    while i < |words|
      invariant 0 <= i <= |words|
      invariant found == Filter(words[..i], keep)
    {
      FilterSnoc(words[..i], words[i], keep);
      assert words[..i + 1] == words[..i] + [words[i]];
      if keep(words[i]) {
        found := found + [words[i]];
      }
      i := i + 1;
    }
    assert words[..i] == words;
  }

  /**
    What the matcher finds: exactly the words of the cleaned text whose upper
    case is listed, as a subsequence of those words.
   */
  lemma MeaningfulWordsSpec(text: string)
    ensures var words := Words(Cleaned(text));
      var found := MeaningfulWords(text);
      && IsSubseq(found, words)
      && (forall k :: 0 <= k < |found| ==> Upper(found[k]) in CommonWords && found[k] in words)
      && (forall k :: 0 <= k < |words| && Upper(words[k]) in CommonWords ==> words[k] in found)
  {
    FilterIsSubseq(Words(Cleaned(text)), IsCommon);
  }

  /** A found word is non-empty and holds no whitespace, comma or full stop. */
  lemma FoundWordsAreClean(text: string)
    ensures forall k :: 0 <= k < |MeaningfulWords(text)| ==>
      var w := MeaningfulWords(text)[k];
      w != "" && NoSpace(w) && ',' !in w && '.' !in w
  {
    var c := Cleaned(text);
    var words := Words(c);
    var found := MeaningfulWords(text);
    forall k | 0 <= k < |found|
      ensures found[k] != "" && NoSpace(found[k]) && ',' !in found[k] && '.' !in found[k]
    {
      assert found[k] in words;
      var j :| 0 <= j < |words| && words[j] == found[k];
      WordsFromText(c, j);
    }
  }
}
