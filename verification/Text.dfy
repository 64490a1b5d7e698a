/** The Python string operations the gateway's parsers are built from. */
module Text {

  /** The characters `str.isspace` accepts: what `split()` splits on and `strip()` removes. */
  predicate IsSpace(c: char) {
    var n := c as int;
    || 0x09 <= n <= 0x0D || 0x1C <= n <= 0x20 || n == 0x85 || n == 0xA0 || n == 0x1680
    || 0x2000 <= n <= 0x200A || n == 0x2028 || n == 0x2029 || n == 0x202F || n == 0x205F || n == 0x3000
  }

  /** Lower-casing of the letters A to Z; other characters are left alone. */
  function LowerChar(c: char): char {
    if 'A' <= c <= 'Z' then (c as int + 32) as char else c
  }

  function Lower(s: string): string {
    seq(|s|, i requires 0 <= i < |s| => LowerChar(s[i]))
  }

  function LStrip(s: string): string {
    if s != "" && IsSpace(s[0]) then LStrip(s[1..]) else s
  }

  function RStrip(s: string): string {
    if s != "" && IsSpace(s[|s| - 1]) then RStrip(s[..|s| - 1]) else s
  }

  function Strip(s: string): string {
    RStrip(LStrip(s))
  }

  function Replace(s: string, from: char, to: char): string {
    seq(|s|, i requires 0 <= i < |s| => if s[i] == from then to else s[i])
  }

  function Join(separator: string, parts: seq<string>): string {
    if parts == [] then ""
    else if |parts| == 1 then parts[0]
    else parts[0] + separator + Join(separator, parts[1..])
  }

  /** `s.split(c)`: the pieces between the occurrences of c, at least one. */
  function SplitOn(s: string, c: char): (pieces: seq<string>)
    ensures pieces != []
  {
    if s == "" then [""]
    else
      var rest := SplitOn(s[1..], c);
      if s[0] == c then [""] + rest else [[s[0]] + rest[0]] + rest[1..]
  }

  /** The maximal runs of characters that are not separators, in order. */
  function Words(s: string, isSeparator: char -> bool): seq<string> {
    if s == "" then []
    else
      var rest := Words(s[1..], isSeparator);
      if isSeparator(s[0]) then rest
      else if |s| == 1 || isSeparator(s[1]) then [[s[0]]] + rest
      else if rest == [] then [[s[0]]]
      else [[s[0]] + rest[0]] + rest[1..]
  }

  predicate Trimmed(s: string) {
    s == "" || (!IsSpace(s[0]) && !IsSpace(s[|s| - 1]))
  }

  /** The number a string of decimal digits writes. */
  function NumberOf(s: string): int {
    if s == "" then 0 else NumberOf(s[..|s| - 1]) * 10 + (s[|s| - 1] as int - '0' as int)
  }

  // ----- Stripping -----

  lemma {:induction false} RStripTrims(s: string)
    ensures RStrip(s) <= s
    ensures RStrip(s) != "" ==> !IsSpace(RStrip(s)[|RStrip(s)| - 1])
  {
    if s != "" && IsSpace(s[|s| - 1]) {
      RStripTrims(s[..|s| - 1]);
    }
  }

  lemma {:induction false} LStripTrims(s: string)
    ensures LStrip(s) != "" ==> !IsSpace(LStrip(s)[0])
  {
    if s != "" && IsSpace(s[0]) {
      LStripTrims(s[1..]);
    }
  }

  /** What `strip` returns has no space at either end, and a string without any is returned as it is. */
  lemma StripTrims(s: string)
    ensures Trimmed(Strip(s))
    ensures Trimmed(s) ==> Strip(s) == s
  {
    LStripTrims(s);
    RStripTrims(LStrip(s));
  }

  predicate AllSpaces(s: string) {
    forall i :: 0 <= i < |s| ==> IsSpace(s[i])
  }

  lemma {:induction false} LStripRemovesSpaces(s: string) returns (a: string)
    ensures AllSpaces(a) && s == a + LStrip(s)
  {
    if s != "" && IsSpace(s[0]) {
      a := LStripRemovesSpaces(s[1..]);
      assert s == [s[0]] + s[1..];
      assert [s[0]] + (a + LStrip(s)) == [s[0]] + a + LStrip(s);
      a := [s[0]] + a;
    } else {
      a := "";
    }
  }

  lemma {:induction false} RStripRemovesSpaces(s: string) returns (b: string)
    ensures AllSpaces(b) && s == RStrip(s) + b
  {
    if s != "" && IsSpace(s[|s| - 1]) {
      b := RStripRemovesSpaces(s[..|s| - 1]);
      assert s == s[..|s| - 1] + [s[|s| - 1]];
      assert RStrip(s) + b + [s[|s| - 1]] == RStrip(s) + (b + [s[|s| - 1]]);
      b := b + [s[|s| - 1]];
    } else {
      b := "";
    }
  }

  /** `strip` takes away spaces at the two ends and nothing else. */
  lemma StripRemovesSpaces(s: string) returns (a: string, b: string)
    ensures AllSpaces(a) && AllSpaces(b) && s == a + Strip(s) + b
  {
    a := LStripRemovesSpaces(s);
    b := RStripRemovesSpaces(LStrip(s));
  }

  lemma {:induction false} LStripOfPadded(a: string, s: string)
    requires AllSpaces(a)
    ensures LStrip(a + s) == LStrip(s)
  {
    if a == "" {
      assert a + s == s;
    } else {
      assert (a + s)[1..] == a[1..] + s;
      LStripOfPadded(a[1..], s);
    }
  }

  lemma {:induction false} RStripOfPadded(s: string, b: string)
    requires AllSpaces(b)
    ensures RStrip(s + b) == RStrip(s)
  {
    if b == "" {
      assert s + b == s;
    } else {
      assert (s + b)[..|s + b| - 1] == s + b[..|b| - 1];
      RStripOfPadded(s, b[..|b| - 1]);
    }
  }

  /** Spaces around a trimmed text are what `strip` takes away. */
  lemma StripOfPadded(a: string, s: string, b: string)
    requires AllSpaces(a) && AllSpaces(b) && s != "" && Trimmed(s)
    ensures Strip(a + s + b) == s
  {
    assert a + s + b == a + (s + b);
    LStripOfPadded(a, s + b);
    assert (s + b)[0] == s[0];
    RStripOfPadded(s, b);
  }

  // ----- Lower-casing -----

  /** The text is the word, written with any of its letters a to z as capitals. */
  predicate InAnyCase(text: string, word: string) {
    && |text| == |word|
    && forall i :: 0 <= i < |text| ==>
         text[i] == word[i] || ('a' <= word[i] <= 'z' && text[i] as int + 32 == word[i] as int)
  }

  predicate NoCapitals(word: string) {
    forall i :: 0 <= i < |word| ==> !('A' <= word[i] <= 'Z')
  }

  /** Lower-casing turns exactly the spellings of a word into the word. */
  lemma LowerOfSpelling(text: string, word: string)
    requires NoCapitals(word)
    ensures Lower(text) == word <==> InAnyCase(text, word)
  {
    if Lower(text) == word {
      forall i | 0 <= i < |text|
        ensures text[i] == word[i] || ('a' <= word[i] <= 'z' && text[i] as int + 32 == word[i] as int)
      {
        assert word[i] == LowerChar(text[i]);
      }
    }
  }

  // ----- Splitting and joining on one character -----

  lemma {:induction false} SplitOnPrefix(piece: string, rest: string, c: char)
    requires c !in piece
    ensures SplitOn(piece, c) == [piece]
    ensures SplitOn(piece + [c] + rest, c) == [piece] + SplitOn(rest, c)
  {
    if piece == "" {
      assert ("" + [c] + rest)[1..] == rest;
    } else {
      assert piece[0] in piece && forall x :: x in piece[1..] ==> x in piece;
      SplitOnPrefix(piece[1..], rest, c);
      assert (piece + [c] + rest)[1..] == piece[1..] + [c] + rest;
      assert [piece[0]] + piece[1..] == piece;
    }
  }

  /** Splitting what was joined gives the pieces back when none contains the separator. */
  lemma {:induction false} SplitAfterJoin(pieces: seq<string>, c: char)
    requires pieces != [] && forall piece :: piece in pieces ==> c !in piece
    ensures SplitOn(Join([c], pieces), c) == pieces
  {
    hide SplitOn;
    assert pieces[0] in pieces;
    if |pieces| == 1 {
      SplitOnPrefix(pieces[0], "", c);
    } else {
      var rest := Join([c], pieces[1..]);
      SplitAfterJoin(pieces[1..], c);
      SplitOnPrefix(pieces[0], rest, c);
      assert Join([c], pieces) == pieces[0] + [c] + rest;
    }
  }

  lemma {:induction false} SplitPiecesAvoid(s: string, c: char)
    ensures forall piece :: piece in SplitOn(s, c) ==> c !in piece
  {
    if s != "" {
      SplitPiecesAvoid(s[1..], c);
      var rest := SplitOn(s[1..], c);
      forall piece | piece in SplitOn(s, c) ensures c !in piece {
        assert rest[0] in rest;
        assert piece == "" || piece == [s[0]] + rest[0] || piece in rest;
      }
    }
  }

  // ----- Words -----

  predicate AllSeparators(gap: string, isSeparator: char -> bool) {
    forall i :: 0 <= i < |gap| ==> isSeparator(gap[i])
  }

  predicate IsWord(word: string, isSeparator: char -> bool) {
    word != "" && forall i :: 0 <= i < |word| ==> !isSeparator(word[i])
  }

  lemma {:induction false} WordsSkipGap(gap: string, s: string, isSeparator: char -> bool)
    requires AllSeparators(gap, isSeparator)
    ensures Words(gap + s, isSeparator) == Words(s, isSeparator)
  {
    if gap == "" {
      assert gap + s == s;
    } else {
      assert (gap + s)[1..] == gap[1..] + s;
      WordsSkipGap(gap[1..], s, isSeparator);
    }
  }

  lemma {:induction false} WordsTakeWord(word: string, s: string, isSeparator: char -> bool)
    requires IsWord(word, isSeparator) && (s == "" || isSeparator(s[0]))
    ensures Words(word + s, isSeparator) == [word] + Words(s, isSeparator)
  {
    var all := word + s;
    assert all[0] == word[0] && all[1..] == word[1..] + s && [word[0]] + word[1..] == word;
    if |word| == 1 {
      assert all[1..] == s && [all[0]] == word;
    } else {
      assert IsWord(word[1..], isSeparator) by {
        assert forall i :: 0 <= i < |word[1..]| ==> word[1..][i] == word[i + 1];
      }
      WordsTakeWord(word[1..], s, isSeparator);
      assert all[1] == word[1];
    }
  }

  /** Every word found is one, and a word can only start a string that starts with it. */
  lemma {:induction false} WordsAreWords(s: string, isSeparator: char -> bool)
    ensures forall word :: word in Words(s, isSeparator) ==> IsWord(word, isSeparator)
    ensures s != "" && !isSeparator(s[0]) ==> Words(s, isSeparator) != []
  {
    if s != "" {
      WordsAreWords(s[1..], isSeparator);
      var rest := Words(s[1..], isSeparator);
      forall word | word in Words(s, isSeparator) ensures IsWord(word, isSeparator) {
        assert rest != [] ==> rest[0] in rest;
        assert word in rest || word == [s[0]] || (rest != [] && word == [s[0]] + rest[0]);
      }
    }
  }

  /** `gaps[0] words[0] gaps[1] words[1] ... gaps[n]`: the words with any separators around them. */
  function Spaced(gaps: seq<string>, words: seq<string>): string
    requires |gaps| == |words| + 1
  {
    if words == [] then gaps[0] else gaps[0] + words[0] + Spaced(gaps[1..], words[1..])
  }

  /** The gaps are separators only, and two words never touch. */
  predicate GapsSeparate(gaps: seq<string>, isSeparator: char -> bool) {
    && (forall k :: 0 <= k < |gaps| ==> AllSeparators(gaps[k], isSeparator))
    && (forall k :: 1 <= k < |gaps| - 1 ==> gaps[k] != "")
  }

  /** However words are spaced, splitting finds exactly those words. */
  lemma {:induction false} WordsOfSpaced(gaps: seq<string>, words: seq<string>, isSeparator: char -> bool)
    requires |gaps| == |words| + 1 && GapsSeparate(gaps, isSeparator)
    requires forall word :: word in words ==> IsWord(word, isSeparator)
    ensures Words(Spaced(gaps, words), isSeparator) == words
  {
    if words == [] {
      WordsSkipGap(gaps[0], "", isSeparator);
      assert gaps[0] + "" == gaps[0];
    } else {
      var rest := Spaced(gaps[1..], words[1..]);
      WordsOfSpaced(gaps[1..], words[1..], isSeparator);
      assert rest == "" || isSeparator(rest[0]);
      WordsTakeWord(words[0], rest, isSeparator);
      WordsSkipGap(gaps[0], words[0] + rest, isSeparator);
      assert gaps[0] + words[0] + rest == gaps[0] + (words[0] + rest);
    }
  }

  /** Joining words with one space is one way of spacing them. */
  lemma {:induction false} JoinIsSpaced(words: seq<string>) returns (gaps: seq<string>)
    ensures |gaps| == |words| + 1 && Join(" ", words) == Spaced(gaps, words)
    ensures forall k :: 0 <= k < |gaps| ==> gaps[k] == if 1 <= k < |gaps| - 1 then " " else ""
  {
    if |words| <= 1 {
      gaps := seq(|words| + 1, _ => "");
      if |words| == 1 {
        assert Spaced(gaps[1..], words[1..]) == "";
        assert Spaced(gaps, words) == "" + words[0] + "";
      }
    } else {
      var rest := JoinIsSpaced(words[1..]);
      gaps := [""] + [" "] + rest[1..];
      assert gaps[1..][1..] == rest[1..];
      var tail := words[1..];
      assert Spaced(rest, tail) == tail[0] + Spaced(rest[1..], tail[1..]);
      assert Spaced(gaps[1..], tail) == " " + tail[0] + Spaced(rest[1..], tail[1..]);
    }
  }

  /** Strings with separators at the same places and equal elsewhere have the same words. */
  lemma {:induction false} WordsAgree(s: string, s': string, isSeparator: char -> bool, isSeparator': char -> bool)
    requires |s| == |s'|
    requires forall i :: 0 <= i < |s| ==>
               (isSeparator(s[i]) <==> isSeparator'(s'[i])) && (isSeparator(s[i]) || s[i] == s'[i])
    ensures Words(s, isSeparator) == Words(s', isSeparator')
  {
    if s != "" {
      WordsAgree(s[1..], s'[1..], isSeparator, isSeparator');
    }
  }
}
