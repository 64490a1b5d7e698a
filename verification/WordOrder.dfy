/** Classification of a tag's word order by its spelling. */
module WordOrder {
  import opened Common
  import opened Text

  const SWAPPED_WORD_ORDERS: set<string> := {
    "swapped", "swap", "little", "reverse", "cdab",
    "little word", "swap little word", "word swap", "word swapped"
  }

  /** The normal form, for whatever `lower` the language offers; see `IsLowering`. */
  function Normalize(lower: string -> string, wordOrder: Option<string>): string {
    var text := if wordOrder.Some? then wordOrder.value else "";
    Join(" ", Words(Replace(Replace(Replace(lower(text), '_', ' '), '-', ' '), '/', ' '), IsSpace))
  }

  /**
   * Lower-casing A to Z is enough here: the only other character whose lower case is an ASCII letter
   * is the Kelvin sign, and no alias contains a k.
   */
  predicate IsWordSwapped(wordOrder: Option<string>) {
    Normalize(Lower, wordOrder) in SWAPPED_WORD_ORDERS
  }

  // ----- Lower-casing -----

  predicate IsSeparator(c: char) {
    IsSpace(c) || c == '_' || c == '-' || c == '/'
  }

  /** Lower-casing leaves this character alone. */
  predicate Settled(lower: string -> string, c: char) {
    lower([c]) == [c]
  }

  ghost predicate LeavesSettled(lower: string -> string) {
    forall s: string, c :: c in lower(s) ==> Settled(lower, c)
  }

  ghost predicate KeepsSettled(lower: string -> string) {
    forall s: string :: (forall i :: 0 <= i < |s| ==> Settled(lower, s[i])) ==> lower(s) == s
  }

  ghost predicate SettlesAsciiAndSeparators(lower: string -> string) {
    forall c: char :: 'a' <= c <= 'z' || IsSeparator(c) ==> Settled(lower, c)
  }

  ghost predicate WorksBetweenSeparators(lower: string -> string) {
    forall a: string, c: char, b: string | IsSeparator(c) :: lower(a + [c] + b) == lower(a) + [c] + lower(b)
  }

  ghost predicate KeepsWords(lower: string -> string) {
    forall s: string :: IsWord(s, IsSeparator) ==> IsWord(lower(s), IsSeparator)
  }

  /**
   * What `str.lower` does with any Unicode text, its context-dependent final sigma included: it
   * leaves only settled characters and leaves a text of settled characters alone; a to z and the
   * separators are settled; it works between separators, and lower-cases a word to a word.
   */
  ghost predicate IsLowering(lower: string -> string) {
    && LeavesSettled(lower) && KeepsSettled(lower) && SettlesAsciiAndSeparators(lower)
    && WorksBetweenSeparators(lower) && KeepsWords(lower)
  }

  lemma SettledByLower(c: char)
    ensures Settled(Lower, c) <==> LowerChar(c) == c
    ensures Settled(Lower, LowerChar(c))
  {
    assert Lower([c]) == [LowerChar(c)] && [LowerChar(c)][0] == LowerChar(c);
    assert Lower([LowerChar(c)]) == [LowerChar(c)];
  }

  lemma LowerSettles()
    ensures LeavesSettled(Lower) && KeepsSettled(Lower)
  {
    hide Settled, LowerChar;
    forall s: string, c | c in Lower(s) ensures Settled(Lower, c) {
      var i :| 0 <= i < |s| && Lower(s)[i] == c;
      SettledByLower(s[i]);
    }
    forall s: string | forall i :: 0 <= i < |s| ==> Settled(Lower, s[i]) ensures Lower(s) == s {
      forall i | 0 <= i < |s| ensures LowerChar(s[i]) == s[i] {
        SettledByLower(s[i]);
      }
    }
  }

  lemma LowerKeepsSeparators()
    ensures SettlesAsciiAndSeparators(Lower) && WorksBetweenSeparators(Lower)
  {
    hide Settled;
    forall c: char | 'a' <= c <= 'z' || IsSeparator(c) ensures Settled(Lower, c) && LowerChar(c) == c {
      SettledByLower(c);
    }
    hide LowerChar;
    forall a: string, c: char, b: string | IsSeparator(c)
      ensures Lower(a + [c] + b) == Lower(a) + [c] + Lower(b)
    {
    }
  }

  lemma LowerKeepsWords()
    ensures KeepsWords(Lower)
  {
    assert forall c: char :: !IsSeparator(c) ==> !IsSeparator(LowerChar(c));
    hide LowerChar, IsSeparator;
  }

  /** Lower-casing the letters A to Z is one. */
  lemma LowerIsLowering()
    ensures IsLowering(Lower)
  {
    LowerSettles();
    LowerKeepsSeparators();
    LowerKeepsWords();
  }

  // ----- What the classification depends on -----

  /** The lower-cased pieces between white space, underscores, hyphens and slashes. */
  function Tokens(lower: string -> string, text: string): seq<string> {
    Words(lower(text), IsSeparator)
  }

  lemma NormalizeJoinsTokens(lower: string -> string, text: string)
    ensures Normalize(lower, Some(text)) == Join(" ", Tokens(lower, text))
  {
    var replaced := Replace(Replace(Replace(lower(text), '_', ' '), '-', ' '), '/', ' ');
    WordsAgree(lower(text), replaced, IsSeparator, IsSpace);
  }

  /** A word without separators that lower-casing leaves alone. */
  predicate IsToken(lower: string -> string, token: string) {
    IsWord(token, IsSeparator) && forall i :: 0 <= i < |token| ==> Settled(lower, token[i])
  }

  lemma {:induction false} WordsChars(s: string, isSeparator: char -> bool)
    ensures forall word, i | word in Words(s, isSeparator) && 0 <= i < |word| :: word[i] in s
  {
    if s != "" {
      WordsChars(s[1..], isSeparator);
      var rest := Words(s[1..], isSeparator);
      forall word, i | word in Words(s, isSeparator) && 0 <= i < |word| ensures word[i] in s {
        assert rest != [] ==> rest[0] in rest;
        assert word in rest || word == [s[0]] || (rest != [] && word == [s[0]] + rest[0]);
      }
    }
  }

  lemma TokensAreTokens(lower: string -> string, text: string)
    requires IsLowering(lower)
    ensures forall token :: token in Tokens(lower, text) ==> IsToken(lower, token)
  {
    WordsAreWords(lower(text), IsSeparator);
    WordsChars(lower(text), IsSeparator);
  }

  lemma {:induction false} JoinChars(lower: string -> string, tokens: seq<string>)
    requires Settled(lower, ' ') && forall token :: token in tokens ==> IsToken(lower, token)
    ensures forall i :: 0 <= i < |Join(" ", tokens)| ==> Settled(lower, Join(" ", tokens)[i])
  {
    if tokens != [] {
      assert IsToken(lower, tokens[0]);
      JoinChars(lower, tokens[1..]);
    }
  }

  /** Splitting the joined tokens restores the tokens. */
  lemma TokensOfJoin(lower: string -> string, tokens: seq<string>)
    requires IsLowering(lower) && forall token :: token in tokens ==> IsToken(lower, token)
    ensures Tokens(lower, Join(" ", tokens)) == tokens
  {
    assert Settled(lower, ' ');
    JoinChars(lower, tokens);
    assert lower(Join(" ", tokens)) == Join(" ", tokens);
    var gaps := JoinIsSpaced(tokens);
    WordsOfSpaced(gaps, tokens, IsSeparator);
  }

  /** Normalising twice is normalising once, for every string. */
  lemma NormalizeIsIdempotent(lower: string -> string, text: string)
    requires IsLowering(lower)
    ensures Normalize(lower, Some(Normalize(lower, Some(text)))) == Normalize(lower, Some(text))
  {
    hide IsLowering, Normalize, Tokens;
    NormalizeJoinsTokens(lower, text);
    TokensAreTokens(lower, text);
    TokensOfJoin(lower, Tokens(lower, text));
    NormalizeJoinsTokens(lower, Normalize(lower, Some(text)));
  }

  /** The normal form stands for the token list: equal exactly when the tokens are. */
  lemma NormalFormIsTokens(lower: string -> string, a: string, b: string)
    requires IsLowering(lower)
    ensures Normalize(lower, Some(a)) == Normalize(lower, Some(b)) <==> Tokens(lower, a) == Tokens(lower, b)
  {
    hide IsLowering, Normalize, Tokens;
    NormalizeJoinsTokens(lower, a);
    NormalizeJoinsTokens(lower, b);
    TokensAreTokens(lower, a);
    TokensAreTokens(lower, b);
    TokensOfJoin(lower, Tokens(lower, a));
    TokensOfJoin(lower, Tokens(lower, b));
  }

  function LowerAll(lower: string -> string, words: seq<string>): seq<string> {
    seq(|words|, k requires 0 <= k < |words| => lower(words[k]))
  }

  lemma LowerOfNothing(lower: string -> string)
    requires IsLowering(lower)
    ensures lower("") == ""
  {
  }

  lemma LowerAtSeparator(lower: string -> string, a: string, c: char, b: string)
    requires IsLowering(lower) && IsSeparator(c)
    ensures lower(a + [c] + b) == lower(a) + [c] + lower(b)
  {
  }

  lemma {:induction false} LowerAfterGap(lower: string -> string, gap: string, s: string)
    requires IsLowering(lower) && AllSeparators(gap, IsSeparator)
    ensures lower(gap + s) == gap + lower(s)
  {
    hide IsLowering;
    if gap == "" {
      assert gap + s == s;
    } else {
      LowerAfterGap(lower, gap[1..], s);
      LowerOfNothing(lower);
      LowerAtSeparator(lower, "", gap[0], gap[1..] + s);
      assert gap + s == "" + [gap[0]] + (gap[1..] + s);
      assert gap + lower(s) == "" + [gap[0]] + (gap[1..] + lower(s));
    }
  }

  lemma LowerAfterWord(lower: string -> string, word: string, s: string)
    requires IsLowering(lower) && (s == "" || IsSeparator(s[0]))
    ensures lower(word + s) == lower(word) + lower(s)
  {
    hide IsLowering;
    LowerOfNothing(lower);
    if s == "" {
      assert word + s == word;
    } else {
      LowerAtSeparator(lower, word, s[0], s[1..]);
      LowerAtSeparator(lower, "", s[0], s[1..]);
      assert word + s == word + [s[0]] + s[1..] && s == "" + [s[0]] + s[1..];
      assert lower(word) + lower(s) == lower(word) + [s[0]] + lower(s[1..]);
    }
  }

  /** Lower-casing spaced words lower-cases the words and keeps the gaps. */
  lemma {:induction false} LowerSpaced(lower: string -> string, gaps: seq<string>, words: seq<string>)
    requires IsLowering(lower) && |gaps| == |words| + 1 && GapsSeparate(gaps, IsSeparator)
    ensures lower(Spaced(gaps, words)) == Spaced(gaps, LowerAll(lower, words))
  {
    hide IsLowering;
    if words == [] {
      LowerAfterGap(lower, gaps[0], "");
      LowerOfNothing(lower);
      assert gaps[0] + "" == gaps[0];
    } else {
      var rest := Spaced(gaps[1..], words[1..]);
      LowerSpaced(lower, gaps[1..], words[1..]);
      assert rest == "" || IsSeparator(rest[0]);
      LowerAfterWord(lower, words[0], rest);
      LowerAfterGap(lower, gaps[0], words[0] + rest);
      assert gaps[0] + words[0] + rest == gaps[0] + (words[0] + rest);
      assert LowerAll(lower, words)[1..] == LowerAll(lower, words[1..]);
    }
  }

  /**
   * Any respacing or re-separation of the same words, in any letter case, has the normal form of the
   * lower-cased words joined by single spaces, and so is classified as they are.
   */
  lemma RespacingKeepsClass(lower: string -> string, gaps: seq<string>, words: seq<string>)
    requires IsLowering(lower) && |gaps| == |words| + 1 && GapsSeparate(gaps, IsSeparator)
    requires forall word :: word in words ==> IsWord(word, IsSeparator)
    ensures Tokens(lower, Spaced(gaps, words)) == LowerAll(lower, words)
    ensures Normalize(lower, Some(Spaced(gaps, words))) == Join(" ", LowerAll(lower, words))
  {
    LowerSpaced(lower, gaps, words);
    LowerWords(lower, words);
    hide IsLowering;
    WordsOfSpaced(gaps, LowerAll(lower, words), IsSeparator);
    NormalizeJoinsTokens(lower, Spaced(gaps, words));
  }

  lemma LowerWords(lower: string -> string, words: seq<string>)
    requires IsLowering(lower) && forall word :: word in words ==> IsWord(word, IsSeparator)
    ensures forall word :: word in LowerAll(lower, words) ==> IsWord(word, IsSeparator)
  {
    forall k | 0 <= k < |words| ensures IsWord(lower(words[k]), IsSeparator) {
      assert words[k] in words;
    }
  }

  /** Exactly nine token lists have a normal form that means "low word first". */
  lemma SwappedTokenLists(lower: string -> string, text: string)
    requires IsLowering(lower)
    ensures var tokens := Tokens(lower, text);
            Normalize(lower, Some(text)) in SWAPPED_WORD_ORDERS <==>
              || tokens == ["swapped"] || tokens == ["swap"] || tokens == ["little"] || tokens == ["reverse"]
              || tokens == ["cdab"] || tokens == ["little", "word"] || tokens == ["swap", "little", "word"]
              || tokens == ["word", "swap"] || tokens == ["word", "swapped"]
  {
    hide Normalize, Tokens, Words, Join, IsLowering;
    AliasOne(lower, text, "swapped");
    AliasOne(lower, text, "swap");
    AliasOne(lower, text, "little");
    AliasOne(lower, text, "reverse");
    AliasOne(lower, text, "cdab");
    AliasTwo(lower, text, "little", "word");
    AliasTwo(lower, text, "word", "swap");
    AliasTwo(lower, text, "word", "swapped");
    AliasThree(lower, text, "swap", "little", "word");
    assert "little" + " " + "word" == "little word" && "word" + " " + "swap" == "word swap";
    assert "word" + " " + "swapped" == "word swapped";
    assert "swap" + " " + "little" + " " + "word" == "swap little word";
  }

  predicate Plain(token: string) {
    token != "" && forall i :: 0 <= i < |token| ==> 'a' <= token[i] <= 'z'
  }

  lemma PlainIsToken(lower: string -> string, token: string)
    requires IsLowering(lower) && Plain(token)
    ensures IsToken(lower, token)
  {
  }

  lemma AliasTokens(lower: string -> string, text: string, tokens: seq<string>)
    requires IsLowering(lower) && forall token :: token in tokens ==> Plain(token)
    ensures Normalize(lower, Some(text)) == Join(" ", tokens) <==> Tokens(lower, text) == tokens
  {
    hide IsLowering, Plain, Normalize, Tokens, IsToken;
    forall token | token in tokens ensures IsToken(lower, token) {
      PlainIsToken(lower, token);
    }
    TokensOfJoin(lower, tokens);
    NormalizeJoinsTokens(lower, text);
    TokensAreTokens(lower, text);
    TokensOfJoin(lower, Tokens(lower, text));
  }

  lemma AliasOne(lower: string -> string, text: string, a: string)
    requires IsLowering(lower) && Plain(a)
    ensures Normalize(lower, Some(text)) == a <==> Tokens(lower, text) == [a]
  {
    hide IsLowering, Normalize, Tokens, Plain;
    AliasTokens(lower, text, [a]);
  }

  lemma AliasTwo(lower: string -> string, text: string, a: string, b: string)
    requires IsLowering(lower) && Plain(a) && Plain(b)
    ensures Normalize(lower, Some(text)) == a + " " + b <==> Tokens(lower, text) == [a, b]
  {
    hide IsLowering, Normalize, Tokens, Plain;
    AliasTokens(lower, text, [a, b]);
    assert [a, b][1..] == [b];
  }

  lemma AliasThree(lower: string -> string, text: string, a: string, b: string, c: string)
    requires IsLowering(lower) && Plain(a) && Plain(b) && Plain(c)
    ensures Normalize(lower, Some(text)) == a + " " + b + " " + c <==> Tokens(lower, text) == [a, b, c]
  {
    hide IsLowering, Normalize, Tokens, Plain;
    AliasTokens(lower, text, [a, b, c]);
    assert [a, b, c][1..] == [b, c] && [b, c][1..] == [c];
    assert Join(" ", [b, c]) == b + " " + c;
    assert Join(" ", [a, b, c]) == a + " " + (b + " " + c);
    assert a + " " + (b + " " + c) == a + " " + b + " " + c;
  }

  /** The lower-cased words a to z joined by single spaces are swapped exactly when they are an alias. */
  lemma ClassOfWords(tokens: seq<string>)
    requires forall token :: token in tokens ==> Plain(token)
    ensures IsWordSwapped(Some(Join(" ", tokens))) <==>
              || tokens == ["swapped"] || tokens == ["swap"] || tokens == ["little"] || tokens == ["reverse"]
              || tokens == ["cdab"] || tokens == ["little", "word"] || tokens == ["swap", "little", "word"]
              || tokens == ["word", "swap"] || tokens == ["word", "swapped"]
  {
    hide IsLowering, Plain, Normalize, Tokens, IsToken, Join;
    LowerIsLowering();
    forall token | token in tokens ensures IsToken(Lower, token) {
      PlainIsToken(Lower, token);
    }
    TokensOfJoin(Lower, tokens);
    SwappedTokenLists(Lower, Join(" ", tokens));
  }

  /** What the nine aliases and the usual names of the plain order mean, and no order at all. */
  lemma KnownWordOrders(text: string)
    ensures text in {"swapped", "swap", "little", "reverse", "cdab"} ==> IsWordSwapped(Some(text))
    ensures text in {"little word", "word swap", "word swapped", "swap little word"} ==> IsWordSwapped(Some(text))
    ensures text in {"", "normal", "big", "abcd", "big word"} ==> !IsWordSwapped(Some(text))
    ensures !IsWordSwapped(None)
  {
    hide IsWordSwapped;
    NoWordOrder();
    OneWord(text);
    TwoWords("little", "word");
    TwoWords("word", "swap");
    TwoWords("word", "swapped");
    TwoWords("big", "word");
    ThreeWords();
    assert "little" + " " + "word" == "little word" && "word" + " " + "swap" == "word swap";
    assert "word" + " " + "swapped" == "word swapped" && "big" + " " + "word" == "big word";
  }

  lemma NoWordOrder()
    ensures !IsWordSwapped(Some("")) && !IsWordSwapped(None)
  {
    ClassOfWords([]);
    assert Normalize(Lower, None) == Normalize(Lower, Some(""));
  }

  lemma OneWord(text: string)
    ensures text in {"swapped", "swap", "little", "reverse", "cdab"} ==> IsWordSwapped(Some(text))
    ensures text in {"normal", "big", "abcd"} ==> !IsWordSwapped(Some(text))
  {
    hide IsWordSwapped;
    if Plain(text) {
      ClassOfWords([text]);
      assert Join(" ", [text]) == text;
    }
  }

  lemma TwoWords(a: string, b: string)
    requires Plain(a) && Plain(b)
    ensures IsWordSwapped(Some(a + " " + b)) <==>
              (a, b) == ("little", "word") || (a, b) == ("word", "swap") || (a, b) == ("word", "swapped")
  {
    hide IsWordSwapped, Plain;
    ClassOfWords([a, b]);
    assert [a, b][1..] == [b];
  }

  lemma ThreeWords()
    ensures IsWordSwapped(Some("swap little word"))
  {
    hide IsWordSwapped;
    var words := ["swap", "little", "word"];
    ClassOfWords(words);
    assert words[1..] == ["little", "word"] && words[1..][1..] == ["word"];
    assert Join(" ", words[1..][1..]) == "word";
    assert Join(" ", words[1..]) == "little" + " " + "word";
    assert Join(" ", words) == "swap" + " " + ("little" + " " + "word");
    assert "swap" + " " + ("little" + " " + "word") == "swap little word";
  }

  /** Letter case does not matter. */
  lemma CaseDoesNotMatter(text: string, word: string)
    requires NoCapitals(word) && InAnyCase(text, word)
    ensures IsWordSwapped(Some(text)) == IsWordSwapped(Some(word))
  {
    LowerOfSpelling(text, word);
    LowerOfSpelling(word, word);
  }

  /** Two spellings of the same words, however separated, are classified alike. */
  lemma RespacedAlike(gaps: seq<string>, words: seq<string>, gaps': seq<string>)
    requires |gaps| == |gaps'| == |words| + 1
    requires GapsSeparate(gaps, IsSeparator) && GapsSeparate(gaps', IsSeparator)
    requires forall word :: word in words ==> IsWord(word, IsSeparator)
    ensures IsWordSwapped(Some(Spaced(gaps, words))) <==> IsWordSwapped(Some(Spaced(gaps', words)))
  {
    hide IsLowering, Normalize, Tokens;
    LowerIsLowering();
    RespacingKeepsClass(Lower, gaps, words);
    RespacingKeepsClass(Lower, gaps', words);
  }
}
