/** The `BBJ_WORD_ORDER_OVERRIDES` parser: "23:swapped,24:swapped". */
module Overrides {
  import opened Common
  import opened Text

  // ----- Python's int() on text -----

  /** CPython refuses to convert more decimal digits than this. */
  const MAX_DIGITS := 4300

  /** The zeros of the other decimal digits of Unicode 15.0, each followed by the digits up to nine. */
  const OTHER_ZEROS: seq<int> := [
    0x660, 0x6F0, 0x7C0, 0x966, 0x9E6, 0xA66, 0xAE6, 0xB66, 0xBE6, 0xC66, 0xCE6, 0xD66, 0xDE6, 0xE50, 0xED0,
    0xF20, 0x1040, 0x1090, 0x17E0, 0x1810, 0x1946, 0x19D0, 0x1A80, 0x1A90, 0x1B50, 0x1BB0, 0x1C40, 0x1C50,
    0xA620, 0xA8D0, 0xA900, 0xA9D0, 0xA9F0, 0xAA50, 0xABF0, 0xFF10, 0x104A0, 0x10D30, 0x11066, 0x110F0,
    0x11136, 0x111D0, 0x112F0, 0x11450, 0x114D0, 0x11650, 0x116C0, 0x11730, 0x118E0, 0x11950, 0x11C50,
    0x11D50, 0x11DA0, 0x11F50, 0x16A60, 0x16AC0, 0x16B50, 0x1D7CE, 0x1D7D8, 0x1D7E2, 0x1D7EC, 0x1D7F6,
    0x1E140, 0x1E2F0, 0x1E4F0, 0x1E950, 0x1FBF0]

  function DigitAbove(zeros: seq<int>, n: int): Option<int> {
    if zeros == [] then None
    else if zeros[0] <= n <= zeros[0] + 9 then Some(n - zeros[0])
    else DigitAbove(zeros[1..], n)
  }

  /** The decimal digit a character stands for, in any script. */
  function DigitOf(c: char): Option<int> {
    if '0' <= c <= '9' then Some(c as int - '0' as int)
    else if c as int < 0x80 then None
    else DigitAbove(OTHER_ZEROS, c as int)
  }

  predicate IsDigit(c: char) {
    DigitOf(c).Some?
  }

  lemma AsciiDigits(c: char)
    ensures '0' <= c <= '9' ==> DigitOf(c) == Some(c as int - '0' as int)
    ensures c as int < 0x80 && !('0' <= c <= '9') ==> !IsDigit(c)
  {
  }

  /** Digits, with single underscores allowed between two of them. */
  predicate IsDigits(s: string) {
    && s != "" && IsDigit(s[0]) && IsDigit(s[|s| - 1])
    && (forall i :: 0 <= i < |s| ==> IsDigit(s[i]) || s[i] == '_')
    && (forall i :: 0 <= i < |s| - 1 && s[i] == '_' ==> s[i + 1] != '_')
  }

  function CountDigits(s: string): nat {
    if s == "" then 0 else CountDigits(s[..|s| - 1]) + (if s[|s| - 1] == '_' then 0 else 1)
  }

  function DigitsValue(s: string): int {
    if s == "" then 0
    else
      match DigitOf(s[|s| - 1])
      case Some(digit) => DigitsValue(s[..|s| - 1]) * 10 + digit
      case None => DigitsValue(s[..|s| - 1])
  }

  function ParseInt(text: string): Option<int> {
    var t := Strip(text);
    var signed := t != "" && (t[0] == '-' || t[0] == '+');
    var digits := if signed then t[1..] else t;
    if IsDigits(digits) && CountDigits(digits) <= MAX_DIGITS then
      Some(if signed && t[0] == '-' then -DigitsValue(digits) else DigitsValue(digits))
    else None
  }

  function PrintNat(n: nat): string {
    (if n < 10 then "" else PrintNat(n / 10)) + [('0' as int + n % 10) as char]
  }

  function PrintInt(n: int): string {
    if n < 0 then "-" + PrintNat(-n) else PrintNat(n)
  }

  /** The integers `str` and `int` convert at all. */
  predicate Printable(n: int) {
    |PrintNat(if n < 0 then -n else n)| <= MAX_DIGITS
  }

  lemma NoDigits()
    ensures DigitsValue("") == 0 && CountDigits("") == 0
  {
  }

  lemma OneMoreDigit(s: string, c: char)
    requires IsDigit(c) && forall i :: 0 <= i < |s| ==> IsDigit(s[i])
    ensures DigitsValue(s + [c]) == DigitsValue(s) * 10 + DigitOf(c).value
    ensures CountDigits(s + [c]) == CountDigits(s) + 1
  {
    hide DigitOf;
    AsciiDigits('_');
    assert (s + [c])[..|s|] == s;
  }

  lemma {:induction false} PrintNatDigits(n: nat)
    ensures PrintNat(n) != "" && forall i :: 0 <= i < |PrintNat(n)| ==> IsDigit(PrintNat(n)[i])
    ensures DigitsValue(PrintNat(n)) == n && CountDigits(PrintNat(n)) == |PrintNat(n)|
  {
    hide DigitsValue, CountDigits, DigitAbove;
    var c := ('0' as int + n % 10) as char;
    AsciiDigits(c);
    if n < 10 {
      NoDigits();
      OneMoreDigit("", c);
      assert PrintNat(n) == "" + [c];
    } else {
      PrintNatDigits(n / 10);
      OneMoreDigit(PrintNat(n / 10), c);
    }
  }

  lemma PrintedIsTrimmed(k: int)
    ensures Trimmed(PrintInt(k))
  {
    hide PrintNat, IsDigit, IsSpace;
    var digits := PrintNat(if k < 0 then -k else k);
    PrintNatDigits(if k < 0 then -k else k);
    PrintedCharsAreAscii(if k < 0 then -k else k);
    AsciiIsNoSpace();
  }

  lemma AsciiIsNoSpace()
    ensures forall c: char :: '0' <= c <= '9' || c == '-' ==> !IsSpace(c)
  {
  }

  lemma {:induction false} PrintedCharsAreAscii(n: nat)
    ensures forall i :: 0 <= i < |PrintNat(n)| ==> '0' <= PrintNat(n)[i] <= '9'
  {
    if n >= 10 {
      PrintedCharsAreAscii(n / 10);
    }
  }

  lemma DigitsOnly(s: string)
    requires s != "" && forall i :: 0 <= i < |s| ==> IsDigit(s[i])
    ensures IsDigits(s) && s[0] != '-' && s[0] != '+'
  {
    hide DigitOf;
    AsciiDigits('-');
    AsciiDigits('+');
    AsciiDigits('_');
  }

  /** Reading back a printed integer gives the integer. */
  lemma ParseAfterPrint(n: int)
    requires Printable(n)
    ensures ParseInt(PrintInt(n)) == Some(n)
    ensures forall c :: c in PrintInt(n) ==> '0' <= c <= '9' || c == '-'
  {
    hide Strip, DigitsValue, CountDigits, PrintNat, Trimmed, IsDigits, IsDigit;
    var digits := PrintNat(if n < 0 then -n else n);
    PrintedCharsAreAscii(if n < 0 then -n else n);
    PrintNatDigits(if n < 0 then -n else n);
    DigitsOnly(digits);
    PrintedIsTrimmed(n);
    StripTrims(PrintInt(n));
    assert n < 0 ==> PrintInt(n)[1..] == digits;
  }

  /** ASCII digits, with single underscores between digits. */
  predicate IsNumeral(s: string) {
    && s != "" && s[0] != '_' && s[|s| - 1] != '_'
    && (forall i :: 0 <= i < |s| ==> '0' <= s[i] <= '9' || s[i] == '_')
    && (forall i :: 0 <= i < |s| - 1 && s[i] == '_' ==> s[i + 1] != '_')
  }

  function WithoutUnderscores(s: string): string {
    if s == "" then ""
    else WithoutUnderscores(s[..|s| - 1]) + (if s[|s| - 1] == '_' then "" else [s[|s| - 1]])
  }

  lemma NumeralIsDigits(s: string)
    requires forall i :: 0 <= i < |s| ==> s[i] as int < 0x80
    ensures IsNumeral(s) <==> IsDigits(s)
  {
    hide DigitOf, IsDigit;
    AsciiDigits('_');
    forall i | 0 <= i < |s| ensures IsDigit(s[i]) <==> '0' <= s[i] <= '9' {
      AsciiIsDigit(s[i]);
    }
  }

  lemma AsciiIsDigit(c: char)
    requires c as int < 0x80
    ensures IsDigit(c) <==> '0' <= c <= '9'
  {
  }

  lemma {:induction false} NumeralValue(s: string)
    requires forall i :: 0 <= i < |s| ==> '0' <= s[i] <= '9' || s[i] == '_'
    ensures DigitsValue(s) == NumberOf(WithoutUnderscores(s)) && CountDigits(s) == |WithoutUnderscores(s)|
  {
    hide DigitOf;
    if s != "" {
      var init, last := s[..|s| - 1], s[|s| - 1];
      NumeralValue(init);
      AsciiDigits(last);
      var digits := WithoutUnderscores(s);
      if last == '_' {
        assert digits == WithoutUnderscores(init);
        assert DigitOf(last).None?;
      } else {
        assert digits[..|digits| - 1] == WithoutUnderscores(init) && digits[|digits| - 1] == last;
      }
    }
  }

  /** An ASCII numeral of at most 4300 digits reads as its number, whatever sign or spaces are around it. */
  lemma NumeralsParse(a: string, sign: string, s: string, b: string)
    requires AllSpaces(a) && AllSpaces(b) && sign in {"", "+", "-"} && IsNumeral(s)
    ensures ParseInt(a + sign + s + b)
         == if |WithoutUnderscores(s)| > 4300 then None
            else Some((if sign == "-" then -1 else 1) * NumberOf(WithoutUnderscores(s)))
  {
    hide Strip, DigitsValue, CountDigits, IsDigits, WithoutUnderscores, NumberOf, IsSpace;
    var t := sign + s;
    NumeralsAreNoSpaces();
    assert '0' <= s[|s| - 1] <= '9' && '0' <= s[0] <= '9';
    assert t[|t| - 1] == s[|s| - 1];
    assert a + sign + s + b == a + t + b;
    StripOfPadded(a, t, b);
    NumeralIsDigits(s);
    NumeralValue(s);
    assert sign != "" ==> t[1..] == s;
    assert sign == "" ==> t == s;
  }

  lemma NumeralsAreNoSpaces()
    ensures forall c: char :: '0' <= c <= '9' || c == '+' || c == '-' ==> !IsSpace(c)
  {
  }

  /** Of ASCII texts, only those read as integers. */
  lemma OnlyNumeralsParse(text: string) returns (a: string, sign: string, s: string, b: string)
    requires ParseInt(text).Some? && forall i :: 0 <= i < |text| ==> text[i] as int < 0x80
    ensures AllSpaces(a) && AllSpaces(b) && sign in {"", "+", "-"} && IsNumeral(s)
    ensures text == a + sign + s + b && |WithoutUnderscores(s)| <= 4300
  {
    hide Strip, DigitsValue, CountDigits, WithoutUnderscores, NumberOf, IsDigits, AllSpaces, IsSpace;
    a, b := StripRemovesSpaces(text);
    var t := Strip(text);
    var signed := t != "" && (t[0] == '-' || t[0] == '+');
    sign, s := if signed then [t[0]] else "", if signed then t[1..] else t;
    assert t == sign + s;
    assert text == a + sign + s + b;
    PartIsAscii(text, a + sign, s, b);
    NumeralIsDigits(s);
    NumeralValue(s);
  }

  lemma PartIsAscii(text: string, a: string, s: string, b: string)
    requires text == a + s + b && forall i :: 0 <= i < |text| ==> text[i] as int < 0x80
    ensures forall i :: 0 <= i < |s| ==> s[i] as int < 0x80
  {
    forall i | 0 <= i < |s| ensures s[i] as int < 0x80 {
      assert text[|a| + i] == s[i];
    }
  }

  // ----- Entries -----

  function IndexOf(s: string, c: char): nat {
    if s == "" || s[0] == c then 0 else 1 + IndexOf(s[1..], c)
  }

  lemma {:induction false} IndexOfFirst(s: string, c: char)
    ensures IndexOf(s, c) <= |s| && (IndexOf(s, c) < |s| ==> s[IndexOf(s, c)] == c)
    ensures c !in s[..IndexOf(s, c)]
  {
    if s != "" && s[0] != c {
      IndexOfFirst(s[1..], c);
      assert s[..IndexOf(s, c)] == [s[0]] + s[1..][..IndexOf(s[1..], c)];
    }
  }

  /** `entry.partition(":")`: what is before the first colon, and what is after it. */
  function BeforeColon(entry: string): string {
    IndexOfFirst(entry, ':');
    entry[..IndexOf(entry, ':')]
  }

  function AfterColon(entry: string): string {
    IndexOfFirst(entry, ':');
    if IndexOf(entry, ':') == |entry| then "" else entry[IndexOf(entry, ':') + 1..]
  }

  function EntryKey(entry: string): Option<int> {
    ParseInt(Strip(BeforeColon(entry)))
  }

  function EntryOrder(entry: string): string {
    Strip(AfterColon(entry))
  }

  // ----- The parser -----

  function Collected(entries: seq<string>): map<int, string> {
    if entries == [] then map[]
    else
      var init, last := entries[..|entries| - 1], entries[|entries| - 1];
      if EntryKey(last).Some? then Collected(init)[EntryKey(last).value := EntryOrder(last)] else Collected(init)
  }

  function NonEmpty(overrides: map<int, string>): map<int, string> {
    map k | k in overrides && overrides[k] != "" :: overrides[k]
  }

  function EntriesOf(raw: Option<string>): seq<string> {
    SplitOn(if raw.Some? then raw.value else "", ',')
  }

  function Parsed(raw: Option<string>): map<int, string> {
    NonEmpty(Collected(EntriesOf(raw)))
  }

  /** Entry i is the last one whose key parses to k. */
  ghost predicate IsLastFor(entries: seq<string>, k: int, i: nat) {
    && i < |entries| && EntryKey(entries[i]) == Some(k)
    && forall j :: i < j < |entries| ==> EntryKey(entries[j]) != Some(k)
  }

  lemma {:induction false} CollectedIsLast(entries: seq<string>, k: int)
    ensures k in Collected(entries) <==> exists i: nat :: IsLastFor(entries, k, i)
    ensures forall i: nat :: IsLastFor(entries, k, i) ==> Collected(entries)[k] == EntryOrder(entries[i])
  {
    hide EntryKey, EntryOrder;
    if entries != [] {
      var n := |entries| - 1;
      var init := entries[..n];
      CollectedIsLast(init, k);
      if EntryKey(entries[n]) == Some(k) {
        assert IsLastFor(entries, k, n);
      } else {
        forall i: nat ensures IsLastFor(init, k, i) <==> IsLastFor(entries, k, i) {
          assert i < n ==> init[i] == entries[i];
        }
      }
    }
  }

  /**
   * For arbitrary text the override of k is the order of the last entry whose key parses to k, and
   * there is one exactly when that order is not empty.
   */
  lemma ParsedIsLastEntry(raw: Option<string>, k: int)
    ensures var entries := EntriesOf(raw);
            && (k in Parsed(raw) <==> exists i: nat :: IsLastFor(entries, k, i) && EntryOrder(entries[i]) != "")
            && (forall i: nat | IsLastFor(entries, k, i) && k in Parsed(raw) ::
                  Parsed(raw)[k] == EntryOrder(entries[i]))
  {
    hide EntryKey, EntryOrder, EntriesOf, Collected;
    var entries := EntriesOf(raw);
    CollectedIsLast(entries, k);
    if k in Collected(entries) {
      var i: nat :| IsLastFor(entries, k, i);
      assert Collected(entries)[k] == EntryOrder(entries[i]);
      forall j: nat | IsLastFor(entries, k, j) ensures j == i {
      }
    }
  }

  /**
   * An override is the text behind the first colon of such an entry, without the spaces around it; it
   * is not empty.
   */
  lemma OverrideIsTrimmed(raw: string, k: int) returns (i: nat, key: string, a: string, b: string)
    requires k in Parsed(Some(raw))
    ensures var order := Parsed(Some(raw))[k];
            && IsLastFor(SplitOn(raw, ','), k, i)
            && SplitOn(raw, ',')[i] == key + ":" + a + order + b
            && ':' !in key && AllSpaces(a) && AllSpaces(b) && order != "" && Trimmed(order)
  {
    hide Collected, Parsed, SplitOn, EntryKey, EntryOrder, AllSpaces, Trimmed;
    ParsedIsLastEntry(Some(raw), k);
    var entries := SplitOn(raw, ',');
    i :| IsLastFor(entries, k, i) && EntryOrder(entries[i]) != "";
    key, a, b := OrderInEntry(entries[i]);
  }

  lemma OrderInEntry(entry: string) returns (key: string, a: string, b: string)
    requires EntryOrder(entry) != ""
    ensures entry == key + ":" + a + EntryOrder(entry) + b
    ensures ':' !in key && AllSpaces(a) && AllSpaces(b) && Trimmed(EntryOrder(entry))
  {
    hide Strip, AllSpaces, Trimmed;
    IndexOfFirst(entry, ':');
    key := BeforeColon(entry);
    EmptyIsStripped();
    var after := AfterColon(entry);
    assert entry == key + ":" + after;
    a, b := StripRemovesSpaces(after);
    StripTrims(after);
    assert key + ":" + (a + EntryOrder(entry) + b) == key + ":" + a + EntryOrder(entry) + b;
  }

  lemma EmptyIsStripped()
    ensures Strip("") == ""
  {
  }

  method ParseWordOrderOverrides(raw: Option<string>) returns (result: map<int, string>)
    ensures result == Parsed(raw)
  {
    hide ParseInt, Strip, SplitOn, BeforeColon, AfterColon;
    var overrides: map<int, string> := map[];
    var entries := SplitOn(if raw.Some? then raw.value else "", ',');
    for n := 0 to |entries|
      invariant overrides == Collected(entries[..n])
    {
      var entry := entries[n];
      assert entries[..n + 1][..n] == entries[..n];
      var tagId := ParseInt(Strip(BeforeColon(entry)));
      if tagId.Some? {
        overrides := overrides[tagId.value := Strip(AfterColon(entry))];
      }
    }
    assert entries[..|entries|] == entries;
    result := map k | k in overrides && overrides[k] != "" :: overrides[k];
  }

  // ----- Round trip -----

  function PrintEntry(k: int, order: string): string {
    PrintInt(k) + ":" + order
  }

  lemma {:induction false} FirstColon(prefix: string, rest: string)
    requires ':' !in prefix
    ensures IndexOf(prefix + ":" + rest, ':') == |prefix|
  {
    if prefix != "" {
      assert prefix[0] in prefix && forall c :: c in prefix[1..] ==> c in prefix;
      FirstColon(prefix[1..], rest);
      assert (prefix + ":" + rest)[1..] == prefix[1..] + ":" + rest;
    }
  }

  lemma EntryReadsBack(k: int, order: string)
    requires Printable(k) && Trimmed(order) && ',' !in order
    ensures EntryKey(PrintEntry(k, order)) == Some(k) && EntryOrder(PrintEntry(k, order)) == order
    ensures ',' !in PrintEntry(k, order)
  {
    hide PrintInt, ParseInt, Strip, Trimmed, Printable, IndexOf;
    var key := PrintInt(k);
    ParseAfterPrint(k);
    FirstColon(key, order);
    var entry := PrintEntry(k, order);
    assert entry[..|key|] == key && entry[|key| + 1..] == order;
    PrintedIsTrimmed(k);
    StripTrims(key);
    StripTrims(order);
  }

  /** The text that lists the overrides of `m` in the order of `keys`. */
  function Print(m: map<int, string>, keys: seq<int>): string
    requires forall k :: k in keys ==> k in m
  {
    Join(",", PrintEntries(m, keys))
  }

  function PrintEntries(m: map<int, string>, keys: seq<int>): seq<string>
    requires forall k :: k in keys ==> k in m
  {
    seq(|keys|, i requires 0 <= i < |keys| => PrintEntry(keys[i], m[keys[i]]))
  }

  lemma PrintedEntries(m: map<int, string>, keys: seq<int>, i: nat)
    requires forall k :: k in keys ==> k in m
    requires forall k :: k in m ==> Printable(k) && m[k] != "" && Trimmed(m[k]) && ',' !in m[k]
    requires i < |keys|
    ensures var entry := PrintEntries(m, keys)[i];
            EntryKey(entry) == Some(keys[i]) && EntryOrder(entry) == m[keys[i]] && ',' !in entry
  {
    assert keys[i] in keys;
    EntryReadsBack(keys[i], m[keys[i]]);
  }

  lemma {:induction false} LastOccurrence(keys: seq<int>, k: int) returns (i: nat)
    requires k in keys
    ensures i < |keys| && keys[i] == k && forall j :: i < j < |keys| ==> keys[j] != k
  {
    i := |keys| - 1;
    if keys[i] != k {
      i := LastOccurrence(keys[..i], k);
    }
  }

  /**
   * Printing any finite map from printable ids to non-empty, trimmed, comma-free orders and parsing
   * it gives the map back, in whatever order its keys are listed, colons in the orders included.
   */
  lemma ParseAfterPrintMap(m: map<int, string>, keys: seq<int>)
    requires forall k :: k in keys <==> k in m
    requires forall k :: k in m ==> Printable(k) && m[k] != "" && Trimmed(m[k]) && ',' !in m[k]
    ensures Parsed(Some(Print(m, keys))) == m
  {
    hide Parsed, EntriesOf, Print, PrintEntries, Printable, Trimmed;
    var raw := Some(Print(m, keys));
    if keys == [] {
      NoKeysNoEntries(m, keys);
      NothingReadsBack(m);
    } else {
      PrintedTextSplits(m, keys);
      forall k ensures k in Parsed(raw) <==> k in m
        ensures k in m ==> Parsed(raw)[k] == m[k]
      {
        ReadsBack(m, keys, raw, k);
      }
    }
  }

  lemma NoKeysNoEntries(m: map<int, string>, keys: seq<int>)
    requires keys == [] && forall k :: k in keys <==> k in m
    ensures m == map[]
  {
    forall k ensures k !in m {
      assert k !in keys;
    }
  }

  lemma NothingReadsBack(m: map<int, string>)
    requires m == map[]
    ensures Parsed(Some(Print(m, []))) == m
  {
    hide NonEmpty, Collected, ParseInt, Strip;
    EmptyTextHasNoEntry();
    assert Print(m, []) == "";
    CollectedNothing();
  }

  lemma EmptyTextHasNoEntry()
    ensures EntriesOf(Some("")) == [""] && EntryKey("") == None
  {
    assert Strip("") == "";
  }

  lemma CollectedNothing()
    ensures NonEmpty(Collected([""])) == map[]
  {
    EmptyTextHasNoEntry();
    hide EntryKey;
    assert Collected([]) == map[];
  }

  /** The printed text falls apart into the printed entries. */
  lemma PrintedTextSplits(m: map<int, string>, keys: seq<int>)
    requires keys != [] && forall k :: k in keys ==> k in m
    requires forall k :: k in m ==> Printable(k) && m[k] != "" && Trimmed(m[k]) && ',' !in m[k]
    ensures EntriesOf(Some(Print(m, keys))) == PrintEntries(m, keys)
  {
    hide SplitOn, Printable, Trimmed, EntryKey, EntryOrder, PrintEntry;
    var entries := PrintEntries(m, keys);
    forall i | 0 <= i < |entries| ensures ',' !in entries[i] {
      PrintedEntries(m, keys, i);
    }
    SplitAfterJoin(entries, ',');
  }

  lemma ReadsBack(m: map<int, string>, keys: seq<int>, raw: Option<string>, k: int)
    requires forall k :: k in keys <==> k in m
    requires forall k :: k in m ==> Printable(k) && m[k] != "" && Trimmed(m[k]) && ',' !in m[k]
    requires EntriesOf(raw) == PrintEntries(m, keys)
    ensures k in Parsed(raw) <==> k in m
    ensures k in m ==> Parsed(raw)[k] == m[k]
  {
    hide EntriesOf, PrintEntries, Printable, EntryKey, EntryOrder, Parsed, Trimmed;
    var entries := PrintEntries(m, keys);
    EntryCount(m, keys);
    forall i: nat | i < |keys| ensures EntryKey(entries[i]) == Some(keys[i]) && EntryOrder(entries[i]) == m[keys[i]] {
      PrintedEntries(m, keys, i);
    }
    ParsedIsLastEntry(raw, k);
    if k in keys {
      var i := LastOccurrence(keys, k);
      assert IsLastFor(entries, k, i);
    } else {
      forall i: nat ensures !IsLastFor(entries, k, i) {
        assert i < |keys| ==> keys[i] in keys;
      }
    }
  }

  lemma EntryCount(m: map<int, string>, keys: seq<int>)
    requires forall k :: k in keys ==> k in m
    ensures |PrintEntries(m, keys)| == |keys|
  {
  }

  // ----- Malformed entries -----

  function WellFormedOnes(entries: seq<string>): seq<string> {
    if entries == [] then []
    else
      var last := entries[|entries| - 1];
      WellFormedOnes(entries[..|entries| - 1]) + (if EntryKey(last).Some? then [last] else [])
  }

  lemma {:induction false} CollectedSkipsMalformed(entries: seq<string>)
    ensures Collected(WellFormedOnes(entries)) == Collected(entries)
    ensures forall entry :: entry in WellFormedOnes(entries) ==> entry in entries
  {
    hide EntryKey, EntryOrder;
    if entries != [] {
      var init, last := entries[..|entries| - 1], entries[|entries| - 1];
      CollectedSkipsMalformed(init);
      if EntryKey(last).Some? {
        var kept := WellFormedOnes(entries);
        assert kept[..|kept| - 1] == WellFormedOnes(init) && kept[|kept| - 1] == last;
      } else {
        assert WellFormedOnes(entries) == WellFormedOnes(init);
      }
    }
  }

  /** Entries whose key is not an integer change nothing: the text without them parses the same. */
  lemma MalformedEntriesAreIgnored(raw: string)
    ensures Parsed(Some(Join(",", WellFormedOnes(EntriesOf(Some(raw)))))) == Parsed(Some(raw))
  {
    hide EntryKey, EntryOrder, SplitOn;
    var entries := EntriesOf(Some(raw));
    var kept := WellFormedOnes(entries);
    CollectedSkipsMalformed(entries);
    SplitPiecesAvoid(raw, ',');
    if kept == [] {
      EmptyTextHasNoEntry();
      CollectedNothing();
      assert Join(",", kept) == "" && Collected(kept) == map[];
      assert Parsed(Some("")) == NonEmpty(Collected([""]));
      hide Collected, WellFormedOnes, Join;
      assert NonEmpty(map[]) == map[];
    } else {
      hide Collected, WellFormedOnes, NonEmpty, Join;
      SplitAfterJoin(kept, ',');
    }
  }
}
