/** Decoding of Modbus registers: word order, byte order and the numeric types. */
module RegisterCodec {
  import opened Common
  import opened Text
  import opened WordOrder

  // ----- Registers and bytes -----

  predicate IsRegister(r: int) {
    0 <= r < 0x1_0000
  }

  predicate AllRegisters(registers: seq<int>) {
    forall i :: 0 <= i < |registers| ==> IsRegister(registers[i])
  }

  /** The low 16 bits of a register with their two bytes exchanged. */
  function SwapWord(r: int): int {
    r % 0x100 * 0x100 + r / 0x100 % 0x100
  }

  function SwapWords(registers: seq<int>): seq<int> {
    seq(|registers|, i requires 0 <= i < |registers| => SwapWord(registers[i]))
  }

  function Reverse<T>(s: seq<T>): seq<T> {
    seq(|s|, i requires 0 <= i < |s| => s[|s| - 1 - i])
  }

  method SwapBytesInWords(registers: seq<int>) returns (result: seq<int>)
    ensures |result| == |registers|
    ensures forall i :: 0 <= i < |registers| ==>
              result[i] % 0x100 == registers[i] / 0x100 % 0x100 && result[i] / 0x100 == registers[i] % 0x100
    ensures result == SwapWords(registers)
  {
    result := [];
    for i := 0 to |registers|
      invariant |result| == i
      invariant forall j :: 0 <= j < i ==>
                  && result[j] == SwapWord(registers[j])
                  && result[j] % 0x100 == registers[j] / 0x100 % 0x100
                  && result[j] / 0x100 == registers[j] % 0x100
    {
      var highByte := registers[i] / 0x100 % 0x100;
      var lowByte := registers[i] % 0x100;
      var swapped := lowByte * 0x100 + highByte;
      BytesOfWord(lowByte, highByte);
      result := result + [swapped];
    }
  }

  lemma BytesOfWord(high: int, low: int)
    requires 0 <= high < 0x100 && 0 <= low < 0x100
    ensures (high * 0x100 + low) % 0x100 == low && (high * 0x100 + low) / 0x100 == high
  {
  }

  predicate SwapsBytes(byteOrder: string) {
    Lower(byteOrder) in {"little", "swapped"}
  }

  function Prepared(registers: seq<int>, bytesSwapped: bool, wordsSwapped: bool): seq<int> {
    var reversed := if wordsSwapped then Reverse(registers) else registers;
    if bytesSwapped then SwapWords(reversed) else reversed
  }

  method PrepareRegisters(registers: seq<int>, byteOrder: string, wordOrder: Option<string>)
    returns (prepared: seq<int>)
    ensures |prepared| == |registers|
    ensures prepared == Prepared(registers, SwapsBytes(byteOrder), IsWordSwapped(wordOrder))
  {
    prepared := registers;
    if IsWordSwapped(wordOrder) {
      prepared := Reverse(prepared);
    }
    if SwapsBytes(byteOrder) {
      prepared := SwapBytesInWords(prepared);
    }
  }

  /** The registers' bytes, high byte first; only the low 16 bits of a register count. */
  function RegistersToBytes(registers: seq<int>): seq<int> {
    if registers == [] then []
    else
      var last := registers[|registers| - 1];
      RegistersToBytes(registers[..|registers| - 1]) + [last / 0x100 % 0x100, last % 0x100]
  }

  function BytesToRegisters(bytes: seq<int>): seq<int>
    requires |bytes| % 2 == 0
  {
    seq(|bytes| / 2, i requires 0 <= i < |bytes| / 2 => bytes[2 * i] * 0x100 + bytes[2 * i + 1])
  }

  predicate AllBytes(bytes: seq<int>) {
    forall i :: 0 <= i < |bytes| ==> 0 <= bytes[i] < 0x100
  }

  // ----- Laws of the preparation -----

  lemma SwapWordTwice(r: int)
    requires IsRegister(r)
    ensures SwapWord(SwapWord(r)) == r && IsRegister(SwapWord(r))
  {
    BytesOfWord(r % 0x100, r / 0x100 % 0x100);
  }

  lemma SwapWordsTwice(registers: seq<int>)
    requires AllRegisters(registers)
    ensures SwapWords(SwapWords(registers)) == registers && AllRegisters(SwapWords(registers))
  {
    forall i | 0 <= i < |registers|
      ensures SwapWord(SwapWord(registers[i])) == registers[i] && IsRegister(SwapWord(registers[i]))
    {
      SwapWordTwice(registers[i]);
    }
  }

  /** The two swaps commute, and preparing twice gives 16-bit registers back, for any length. */
  lemma PreparedIsInvolution(registers: seq<int>, bytesSwapped: bool, wordsSwapped: bool)
    requires AllRegisters(registers)
    ensures SwapWords(Reverse(registers)) == Reverse(SwapWords(registers))
    ensures Prepared(Prepared(registers, bytesSwapped, wordsSwapped), bytesSwapped, wordsSwapped) == registers
    ensures AllRegisters(Prepared(registers, bytesSwapped, wordsSwapped))
  {
    SwapWordsTwice(registers);
    SwapWordsTwice(Reverse(registers));
    assert Reverse(Reverse(registers)) == registers;
    assert SwapWords(Reverse(SwapWords(Reverse(registers)))) == registers by {
      assert Reverse(SwapWords(Reverse(registers))) == SwapWords(Reverse(Reverse(registers)));
    }
  }

  lemma {:induction false} BytesOfFirst(r: int, rest: seq<int>)
    ensures RegistersToBytes([r] + rest) == [r / 0x100 % 0x100, r % 0x100] + RegistersToBytes(rest)
  {
    var all := [r] + rest;
    if rest == [] {
      assert all[..0] == [];
    } else {
      assert all[..|all| - 1] == [r] + rest[..|rest| - 1];
      BytesOfFirst(r, rest[..|rest| - 1]);
    }
  }

  lemma PreparedOfLast(registers: seq<int>, last: int)
    ensures Prepared(registers + [last], true, true) == [SwapWord(last)] + Prepared(registers, true, true)
  {
    hide SwapWord;
    assert Reverse(registers + [last]) == [last] + Reverse(registers);
    assert SwapWords([last] + Reverse(registers)) == [SwapWord(last)] + SwapWords(Reverse(registers));
  }

  lemma BytesOfSwapped(r: int)
    ensures SwapWord(r) / 0x100 % 0x100 == r % 0x100 && SwapWord(r) % 0x100 == r / 0x100 % 0x100
  {
    BytesOfWord(r % 0x100, r / 0x100 % 0x100);
  }

  lemma BytesOfLast(registers: seq<int>, r: int)
    ensures RegistersToBytes(registers + [r]) == RegistersToBytes(registers) + [r / 0x100 % 0x100, r % 0x100]
  {
    assert (registers + [r])[..|registers|] == registers;
  }

  lemma ReverseOfPair(s: seq<int>, high: int, low: int)
    ensures Reverse(s + [high, low]) == [low, high] + Reverse(s)
  {
  }

  /** Both swaps together reverse the byte string exactly. */
  lemma {:induction false} BothSwapsReverseBytes(registers: seq<int>)
    ensures RegistersToBytes(Prepared(registers, true, true)) == Reverse(RegistersToBytes(registers))
  {
    if registers != [] {
      var init, last := registers[..|registers| - 1], registers[|registers| - 1];
      assert registers == init + [last];
      hide RegistersToBytes, Prepared, Reverse, SwapWord;
      BothSwapsReverseBytes(init);
      PreparedOfLast(init, last);
      BytesOfFirst(SwapWord(last), Prepared(init, true, true));
      BytesOfSwapped(last);
      BytesOfLast(init, last);
      ReverseOfPair(RegistersToBytes(init), last / 0x100 % 0x100, last % 0x100);
    }
  }

  // ----- Numbers in big-endian bytes -----

  function FromBytes(bytes: seq<int>): int {
    if bytes == [] then 0 else FromBytes(bytes[..|bytes| - 1]) * 0x100 + bytes[|bytes| - 1]
  }

  function ToBytes(n: int, length: nat): seq<int>
    decreases length
  {
    if length == 0 then [] else ToBytes(n / 0x100, length - 1) + [n % 0x100]
  }

  function Power256(length: nat): nat {
    if length == 0 then 1 else Power256(length - 1) * 0x100
  }

  lemma {:induction false} FromBytesBound(bytes: seq<int>)
    requires AllBytes(bytes)
    ensures 0 <= FromBytes(bytes) < Power256(|bytes|)
  {
    if bytes != [] {
      FromBytesBound(bytes[..|bytes| - 1]);
    }
  }

  lemma {:induction false} ToThenFromBytes(n: int, length: nat)
    requires 0 <= n < Power256(length)
    ensures |ToBytes(n, length)| == length && AllBytes(ToBytes(n, length))
    ensures FromBytes(ToBytes(n, length)) == n
  {
    if length > 0 {
      ToThenFromBytes(n / 0x100, length - 1);
      assert ToBytes(n, length)[..length - 1] == ToBytes(n / 0x100, length - 1);
    }
  }

  lemma {:induction false} FromThenToBytes(bytes: seq<int>)
    requires AllBytes(bytes)
    ensures ToBytes(FromBytes(bytes), |bytes|) == bytes
  {
    if bytes != [] {
      var init, last := bytes[..|bytes| - 1], bytes[|bytes| - 1];
      FromThenToBytes(init);
      assert (FromBytes(init) * 0x100 + last) / 0x100 == FromBytes(init);
      assert (FromBytes(init) * 0x100 + last) % 0x100 == last;
    }
  }

  lemma {:induction false} RegistersThenBytes(bytes: seq<int>)
    requires |bytes| % 2 == 0 && AllBytes(bytes)
    ensures RegistersToBytes(BytesToRegisters(bytes)) == bytes
    ensures AllRegisters(BytesToRegisters(bytes)) && |BytesToRegisters(bytes)| * 2 == |bytes|
  {
    hide RegistersToBytes, BytesToRegisters;
    if bytes == [] {
      NoBytes();
    } else {
      var init, high, low := bytes[..|bytes| - 2], bytes[|bytes| - 2], bytes[|bytes| - 1];
      assert bytes == init + [high, low];
      RegistersThenBytes(init);
      WordOfBytes(high, low);
      RegistersOfLast(init, high, low);
      BytesOfLast(BytesToRegisters(init), high * 0x100 + low);
    }
  }

  lemma NoBytes()
    ensures BytesToRegisters([]) == [] && RegistersToBytes([]) == []
  {
  }

  lemma WordOfBytes(high: int, low: int)
    requires 0 <= high < 0x100 && 0 <= low < 0x100
    ensures var r := high * 0x100 + low; IsRegister(r) && r / 0x100 % 0x100 == high && r % 0x100 == low
  {
    BytesOfWord(high, low);
  }

  lemma RegistersOfLast(bytes: seq<int>, high: int, low: int)
    requires |bytes| % 2 == 0
    ensures BytesToRegisters(bytes + [high, low]) == BytesToRegisters(bytes) + [high * 0x100 + low]
  {
  }

  lemma WordFromBytes(r: int)
    requires IsRegister(r)
    ensures r / 0x100 % 0x100 * 0x100 + r % 0x100 == r
    ensures 0 <= r / 0x100 % 0x100 < 0x100 && 0 <= r % 0x100 < 0x100
  {
  }

  lemma {:induction false} BytesThenRegisters(registers: seq<int>)
    requires AllRegisters(registers)
    ensures AllBytes(RegistersToBytes(registers)) && |RegistersToBytes(registers)| == 2 * |registers|
    ensures BytesToRegisters(RegistersToBytes(registers)) == registers
  {
    if registers != [] {
      var init, last := registers[..|registers| - 1], registers[|registers| - 1];
      assert registers == init + [last];
      BytesOfLast(init, last);
      hide RegistersToBytes, BytesToRegisters;
      BytesThenRegisters(init);
      WordFromBytes(last);
      RegistersOfLast(RegistersToBytes(init), last / 0x100 % 0x100, last % 0x100);
    }
  }

  // ----- Decoding -----

  datatype Kind = Float32 | Float64 | Int16 | UInt16 | Int32 | UInt32

  /** Floats are kept as their IEEE bit patterns. */
  datatype Decoded = Integer(value: int) | FloatBits(bits: nat)

  datatype DecodeError = TooShort(kind: Kind) | UnsupportedType

  function KindOf(dataType: string): Option<Kind> {
    var normalized := Lower(Strip(dataType));
    if normalized in {"float", "float32", "real"} then Some(Float32)
    else if normalized in {"double", "float64"} then Some(Float64)
    else if normalized in {"int16", "short"} then Some(Int16)
    else if normalized in {"uint16", "unsigned16", "word"} then Some(UInt16)
    else if normalized in {"int32", "long"} then Some(Int32)
    else if normalized in {"uint32", "unsigned32", "dword"} then Some(UInt32)
    else None
  }

  /** How many registers a value of the kind takes. */
  function Width(kind: Kind): nat {
    match kind
    case Int16 => 1
    case UInt16 => 1
    case Float64 => 4
    case _ => 2
  }

  function Limit(kind: Kind): nat {
    match kind
    case Int16 => 0x1_0000
    case UInt16 => 0x1_0000
    case Float64 => 0x1_0000_0000_0000_0000
    case _ => 0x1_0000_0000
  }

  /** Two's complement for the signed kinds, the bit pattern for the floats. */
  function Interpret(kind: Kind, n: nat): Decoded
    requires n < Limit(kind)
  {
    match kind
    case Float32 => FloatBits(n)
    case Float64 => FloatBits(n)
    case UInt16 => Integer(n)
    case UInt32 => Integer(n)
    case _ => Integer(if n < Limit(kind) / 2 then n else n - Limit(kind))
  }

  lemma LimitIsPower(kind: Kind)
    ensures Power256(2 * Width(kind)) == Limit(kind)
  {
    assert Power256(2) == 0x1_0000;
    assert Power256(4) == 0x1_0000_0000;
    assert Power256(6) == 0x1_0000_0000_0000;
    assert Power256(8) == 0x1_0000_0000_0000_0000;
  }

  lemma {:induction false} BytesAreBytes(registers: seq<int>)
    ensures AllBytes(RegistersToBytes(registers)) && |RegistersToBytes(registers)| == 2 * |registers|
  {
    if registers != [] {
      BytesAreBytes(registers[..|registers| - 1]);
    }
  }

  function DecodePrepared(prepared: seq<int>, kind: Kind): Result<Decoded, DecodeError> {
    var bytes := RegistersToBytes(prepared);
    if |bytes| < 2 * Width(kind) then Err(TooShort(kind))
    else
      BytesAreBytes(prepared);
      FromBytesBound(bytes[..2 * Width(kind)]);
      LimitIsPower(kind);
      Ok(Interpret(kind, FromBytes(bytes[..2 * Width(kind)])))
  }

  function DecodeRegisters(registers: seq<int>, dataType: string, byteOrder: string, wordOrder: Option<string>)
    : Result<Decoded, DecodeError>
  {
    var prepared := Prepared(registers, SwapsBytes(byteOrder), IsWordSwapped(wordOrder));
    match KindOf(dataType)
    case None => Err(UnsupportedType)
    case Some(kind) => DecodePrepared(prepared, kind)
  }

  // ----- Round trips -----

  predicate InRange(kind: Kind, value: Decoded) {
    match kind
    case Float32 => value.FloatBits? && value.bits < Limit(kind)
    case Float64 => value.FloatBits? && value.bits < Limit(kind)
    case UInt16 => value.Integer? && 0 <= value.value < Limit(kind)
    case UInt32 => value.Integer? && 0 <= value.value < Limit(kind)
    case _ => value.Integer? && -(Limit(kind) / 2) <= value.value < Limit(kind) / 2
  }

  function Pattern(kind: Kind, value: Decoded): nat
    requires InRange(kind, value)
  {
    match value
    case FloatBits(bits) => bits
    case Integer(n) => if n < 0 then n + Limit(kind) else n
  }

  /** The inverse of decoding: what a device that stores `value` shows in its registers. */
  function EncodeRegisters(value: Decoded, kind: Kind, byteOrder: string, wordOrder: Option<string>): seq<int>
    requires InRange(kind, value)
  {
    LimitIsPower(kind);
    ToThenFromBytes(Pattern(kind, value), 2 * Width(kind));
    Prepared(BytesToRegisters(ToBytes(Pattern(kind, value), 2 * Width(kind))),
             SwapsBytes(byteOrder), IsWordSwapped(wordOrder))
  }

  lemma InterpretPattern(kind: Kind, value: Decoded)
    requires InRange(kind, value)
    ensures Pattern(kind, value) < Limit(kind) && Interpret(kind, Pattern(kind, value)) == value
  {
  }

  lemma PatternInterpret(kind: Kind, n: nat)
    requires n < Limit(kind)
    ensures InRange(kind, Interpret(kind, n)) && Pattern(kind, Interpret(kind, n)) == n
  {
  }

  /** Decoding undoes encoding, for every kind, value in range, byte order and word order. */
  lemma DecodeAfterEncode(value: Decoded, kind: Kind, dataType: string, byteOrder: string, wordOrder: Option<string>)
    requires KindOf(dataType) == Some(kind) && InRange(kind, value)
    ensures DecodeRegisters(EncodeRegisters(value, kind, byteOrder, wordOrder), dataType, byteOrder, wordOrder)
            == Ok(value)
    ensures |EncodeRegisters(value, kind, byteOrder, wordOrder)| == Width(kind)
  {
    hide Pattern, Interpret, InRange, ToBytes, FromBytes, KindOf, Power256;
    hide Prepared, BytesToRegisters, RegistersToBytes;
    var n := Pattern(kind, value);
    LimitIsPower(kind);
    InterpretPattern(kind, value);
    ToThenFromBytes(n, 2 * Width(kind));
    var bytes := ToBytes(n, 2 * Width(kind));
    RegistersThenBytes(bytes);
    PreparedIsInvolution(BytesToRegisters(bytes), SwapsBytes(byteOrder), IsWordSwapped(wordOrder));
    PreparedLength(BytesToRegisters(bytes), SwapsBytes(byteOrder), IsWordSwapped(wordOrder));
    assert bytes[..2 * Width(kind)] == bytes;
  }

  /** Encoding undoes decoding, for every register list of the right width. */
  lemma EncodeAfterDecode(
    registers: seq<int>, kind: Kind, dataType: string, byteOrder: string, wordOrder: Option<string>)
    requires KindOf(dataType) == Some(kind) && |registers| == Width(kind) && AllRegisters(registers)
    ensures var decoded := DecodeRegisters(registers, dataType, byteOrder, wordOrder);
            && decoded.Ok? && InRange(kind, decoded.value)
            && EncodeRegisters(decoded.value, kind, byteOrder, wordOrder) == registers
  {
    hide Pattern, Interpret, InRange, ToBytes, FromBytes, KindOf, Power256;
    hide Prepared, BytesToRegisters, RegistersToBytes;
    var prepared := Prepared(registers, SwapsBytes(byteOrder), IsWordSwapped(wordOrder));
    PreparedLength(registers, SwapsBytes(byteOrder), IsWordSwapped(wordOrder));
    PreparedIsInvolution(registers, SwapsBytes(byteOrder), IsWordSwapped(wordOrder));
    BytesThenRegisters(prepared);
    var bytes := RegistersToBytes(prepared);
    assert bytes[..2 * Width(kind)] == bytes;
    FromBytesBound(bytes);
    LimitIsPower(kind);
    PatternInterpret(kind, FromBytes(bytes));
    FromThenToBytes(bytes);
  }

  // ----- What registers mean -----

  /** The text is the name in any letter case, with any spaces around it. */
  ghost predicate IsNamed(dataType: string, name: string) {
    exists a, text, b :: dataType == a + text + b && AllSpaces(a) && AllSpaces(b) && InAnyCase(text, name)
  }

  predicate PlainName(name: string) {
    name != "" && forall i :: 0 <= i < |name| ==> 'a' <= name[i] <= 'z' || '0' <= name[i] <= '9'
  }

  lemma NormalizedName(dataType: string, name: string)
    requires PlainName(name)
    ensures IsNamed(dataType, name) <==> Lower(Strip(dataType)) == name
  {
    hide Strip, Lower, InAnyCase;
    if IsNamed(dataType, name) {
      var a, text, b :| dataType == a + text + b && AllSpaces(a) && AllSpaces(b) && InAnyCase(text, name);
      SpellingIsTrimmed(text, name);
      StripOfPadded(a, text, b);
      LowerOfSpelling(text, name);
    }
    if Lower(Strip(dataType)) == name {
      var a, b := StripRemovesSpaces(dataType);
      LowerOfSpelling(Strip(dataType), name);
    }
  }

  lemma SpellingIsTrimmed(text: string, name: string)
    requires PlainName(name) && InAnyCase(text, name)
    ensures text != "" && Trimmed(text)
  {
  }

  /** The bytes of each register are exchanged for exactly two names of the byte order. */
  predicate BytesAreExchanged(byteOrder: string, exchanged: bool) {
    exchanged == (InAnyCase(byteOrder, "little") || InAnyCase(byteOrder, "swapped"))
  }

  /** The word order as its name says: low word first, or not; without any name it is not. */
  ghost predicate WordsAreReversed(wordOrder: Option<string>, reversed: bool) {
    if reversed then
      wordOrder.Some? && exists name :: InAnyCase(wordOrder.value, name) && name in {
        "swapped", "swap", "little", "reverse", "cdab", "little word", "swap little word", "word swap", "word swapped"}
    else
      wordOrder.Some? ==> exists name :: InAnyCase(wordOrder.value, name) && name in {"", "normal", "big", "abcd"}
  }

  lemma NamedByteOrder(byteOrder: string, exchanged: bool)
    requires BytesAreExchanged(byteOrder, exchanged)
    ensures SwapsBytes(byteOrder) == exchanged
  {
    hide Lower, InAnyCase;
    LowerOfSpelling(byteOrder, "little");
    LowerOfSpelling(byteOrder, "swapped");
  }

  lemma NamedWordOrder(wordOrder: Option<string>, reversed: bool)
    requires WordsAreReversed(wordOrder, reversed)
    ensures IsWordSwapped(wordOrder) == reversed
  {
    hide IsWordSwapped, InAnyCase;
    KnownWordOrders("");
    if wordOrder.Some? {
      if reversed {
        var name :| InAnyCase(wordOrder.value, name) && name in {
          "swapped", "swap", "little", "reverse", "cdab", "little word", "swap little word", "word swap",
          "word swapped"};
        KnownWordOrders(name);
        CaseDoesNotMatter(wordOrder.value, name);
      } else {
        var name :| InAnyCase(wordOrder.value, name) && name in {"", "normal", "big", "abcd"};
        KnownWordOrders(name);
        CaseDoesNotMatter(wordOrder.value, name);
      }
    }
  }

  /** A register as a number, its two bytes exchanged or not. */
  function WordOf(r: int, exchanged: bool): int {
    if exchanged then r % 0x100 * 0x100 + r / 0x100 else r
  }

  function WordsOf(registers: seq<int>, exchanged: bool, reversed: bool): seq<int> {
    var n := |registers|;
    seq(n, i requires 0 <= i < n => WordOf(registers[if reversed then n - 1 - i else i], exchanged))
  }

  function FromWords(words: seq<int>): int {
    if words == [] then 0 else FromWords(words[..|words| - 1]) * 0x1_0000 + words[|words| - 1]
  }

  lemma PreparedIsWords(registers: seq<int>, exchanged: bool, reversed: bool)
    requires AllRegisters(registers)
    ensures Prepared(registers, exchanged, reversed) == WordsOf(registers, exchanged, reversed)
    ensures AllRegisters(WordsOf(registers, exchanged, reversed))
  {
    hide SwapWord, WordOf;
    var words := WordsOf(registers, exchanged, reversed);
    PreparedLength(registers, exchanged, reversed);
    forall i | 0 <= i < |registers|
      ensures Prepared(registers, exchanged, reversed)[i] == words[i] && IsRegister(words[i])
    {
      SwapIsExchange(registers[if reversed then |registers| - 1 - i else i]);
    }
  }

  lemma SwapIsExchange(r: int)
    requires IsRegister(r)
    ensures SwapWord(r) == WordOf(r, true) && WordOf(r, false) == r && IsRegister(WordOf(r, true))
  {
    assert r / 0x100 < 0x100;
  }

  lemma {:induction false} BytesAreWords(words: seq<int>)
    requires AllRegisters(words)
    ensures FromBytes(RegistersToBytes(words)) == FromWords(words)
  {
    if words != [] {
      var init, last := words[..|words| - 1], words[|words| - 1];
      var bytes, high, low := RegistersToBytes(init), last / 0x100 % 0x100, last % 0x100;
      BytesAreWords(init);
      WordFromBytes(last);
      assert RegistersToBytes(words) == bytes + [high, low];
      assert (bytes + [high, low])[..|bytes| + 1] == bytes + [high];
      assert (bytes + [high])[..|bytes|] == bytes;
      assert FromBytes(bytes + [high]) == FromBytes(bytes) * 0x100 + high;
      assert FromBytes(bytes + [high, low]) == (FromBytes(bytes) * 0x100 + high) * 0x100 + low;
    }
  }

  /** A read of just the right width: the number its words make, high word first. */
  lemma DecodeWords(
    registers: seq<int>, kind: Kind, dataType: string, byteOrder: string, wordOrder: Option<string>,
    exchanged: bool, reversed: bool)
    requires AllRegisters(registers) && |registers| == Width(kind) && KindOf(dataType) == Some(kind)
    requires SwapsBytes(byteOrder) == exchanged && IsWordSwapped(wordOrder) == reversed
    ensures var n := FromWords(WordsOf(registers, exchanged, reversed));
            && 0 <= n < Limit(kind)
            && DecodeRegisters(registers, dataType, byteOrder, wordOrder) == Ok(Interpret(kind, n))
  {
    hide Interpret, FromBytes, KindOf, Power256, Prepared, RegistersToBytes, SwapsBytes, IsWordSwapped;
    hide FromWords, WordsOf;
    var words := WordsOf(registers, exchanged, reversed);
    PreparedIsWords(registers, exchanged, reversed);
    PreparedLength(registers, exchanged, reversed);
    BytesAreWords(words);
    BytesAreBytes(words);
    LimitIsPower(kind);
    var bytes := RegistersToBytes(words);
    assert bytes[..2 * Width(kind)] == bytes;
    FromBytesBound(bytes);
  }

  lemma KindOfName(dataType: string)
    ensures KindOf(dataType) == Some(Float32)
       <==> IsNamed(dataType, "float") || IsNamed(dataType, "float32") || IsNamed(dataType, "real")
    ensures KindOf(dataType) == Some(Float64) <==> IsNamed(dataType, "double") || IsNamed(dataType, "float64")
    ensures KindOf(dataType) == Some(Int16) <==> IsNamed(dataType, "int16") || IsNamed(dataType, "short")
    ensures KindOf(dataType) == Some(UInt16)
       <==> IsNamed(dataType, "uint16") || IsNamed(dataType, "unsigned16") || IsNamed(dataType, "word")
    ensures KindOf(dataType) == Some(Int32) <==> IsNamed(dataType, "int32") || IsNamed(dataType, "long")
    ensures KindOf(dataType) == Some(UInt32)
       <==> IsNamed(dataType, "uint32") || IsNamed(dataType, "unsigned32") || IsNamed(dataType, "dword")
  {
    hide IsNamed, Lower, Strip;
    NormalizedName(dataType, "float");
    NormalizedName(dataType, "float32");
    NormalizedName(dataType, "real");
    NormalizedName(dataType, "double");
    NormalizedName(dataType, "float64");
    NormalizedName(dataType, "int16");
    NormalizedName(dataType, "short");
    NormalizedName(dataType, "uint16");
    NormalizedName(dataType, "unsigned16");
    NormalizedName(dataType, "word");
    NormalizedName(dataType, "int32");
    NormalizedName(dataType, "long");
    NormalizedName(dataType, "uint32");
    NormalizedName(dataType, "unsigned32");
    NormalizedName(dataType, "dword");
  }

  /** One register, by the name of its type: as it is, or 65536 less from 32768 on for int16. */
  lemma OneRegister(
    r: int, name: string, dataType: string, byteOrder: string, wordOrder: Option<string>, exchanged: bool)
    requires IsRegister(r) && IsNamed(dataType, name) && BytesAreExchanged(byteOrder, exchanged)
    ensures var decoded := DecodeRegisters([r], dataType, byteOrder, wordOrder);
            var n := if exchanged then r % 0x100 * 0x100 + r / 0x100 else r;
            && (name in {"uint16", "unsigned16", "word"} ==> decoded == Ok(Integer(n)))
            && (name in {"int16", "short"} ==> decoded == Ok(Integer(if n < 32768 then n else n - 65536)))
  {
    hide IsNamed, BytesAreExchanged, KindOf, SwapsBytes, IsWordSwapped, DecodeRegisters;
    KindOfName(dataType);
    NamedByteOrder(byteOrder, exchanged);
    var reversed := IsWordSwapped(wordOrder);
    if KindOf(dataType) in {Some(Int16), Some(UInt16)} {
      DecodeWords([r], KindOf(dataType).value, dataType, byteOrder, wordOrder, exchanged, reversed);
      assert WordsOf([r], exchanged, reversed) == [WordOf(r, exchanged)];
      assert FromWords([WordOf(r, exchanged)]) == WordOf(r, exchanged);
    }
  }

  /**
   * Two registers, by the name of their type: the high word times 65536 plus the low word, as two's
   * complement, as it is, or as the bits of a float; the first register is the high word unless the
   * words are reversed.
   */
  lemma TwoRegisters(
    a: int, b: int, name: string, dataType: string, byteOrder: string, wordOrder: Option<string>,
    exchanged: bool, reversed: bool)
    requires IsRegister(a) && IsRegister(b) && IsNamed(dataType, name)
    requires BytesAreExchanged(byteOrder, exchanged) && WordsAreReversed(wordOrder, reversed)
    ensures var decoded := DecodeRegisters([a, b], dataType, byteOrder, wordOrder);
            var x, y := WordOf(if reversed then b else a, exchanged), WordOf(if reversed then a else b, exchanged);
            var n := x * 65536 + y;
            && (name in {"float", "float32", "real"} ==> n >= 0 && decoded == Ok(FloatBits(n)))
            && (name in {"uint32", "unsigned32", "dword"} ==> decoded == Ok(Integer(n)))
            && (name in {"int32", "long"} ==> decoded == Ok(Integer(if n < 2147483648 then n else n - 4294967296)))
  {
    hide IsNamed, BytesAreExchanged, WordsAreReversed, KindOf, SwapsBytes, IsWordSwapped, DecodeRegisters, WordOf;
    KindOfName(dataType);
    NamedByteOrder(byteOrder, exchanged);
    NamedWordOrder(wordOrder, reversed);
    if KindOf(dataType) in {Some(Float32), Some(Int32), Some(UInt32)} {
      hide FromWords, WordsOf;
      DecodeWords([a, b], KindOf(dataType).value, dataType, byteOrder, wordOrder, exchanged, reversed);
      TwoWordsOf(a, b, exchanged, reversed);
    }
  }

  lemma TwoWordsOf(a: int, b: int, exchanged: bool, reversed: bool)
    ensures FromWords(WordsOf([a, b], exchanged, reversed))
         == WordOf(if reversed then b else a, exchanged) * 65536 + WordOf(if reversed then a else b, exchanged)
  {
    hide WordOf;
    var x, y := WordOf(if reversed then b else a, exchanged), WordOf(if reversed then a else b, exchanged);
    var words := WordsOf([a, b], exchanged, reversed);
    assert words[0] == x && words[1] == y;
    assert words[..1] == [x] && [x][..0] == [];
    assert FromWords([x]) == x;
  }

  /** Four registers make the bits of a double, the first the highest word unless the words are reversed. */
  lemma FourRegisters(
    registers: seq<int>, name: string, dataType: string, byteOrder: string, wordOrder: Option<string>,
    exchanged: bool, reversed: bool)
    requires |registers| == 4 && AllRegisters(registers)
    requires name in {"double", "float64"} && IsNamed(dataType, name)
    requires BytesAreExchanged(byteOrder, exchanged) && WordsAreReversed(wordOrder, reversed)
    ensures var decoded := DecodeRegisters(registers, dataType, byteOrder, wordOrder);
            var w := WordsOf(registers, exchanged, reversed);
            var n := ((w[0] * 65536 + w[1]) * 65536 + w[2]) * 65536 + w[3];
            n >= 0 && decoded == Ok(FloatBits(n))
  {
    hide IsNamed, BytesAreExchanged, WordsAreReversed, KindOf, SwapsBytes, IsWordSwapped, DecodeRegisters, WordOf;
    KindOfName(dataType);
    NamedByteOrder(byteOrder, exchanged);
    NamedWordOrder(wordOrder, reversed);
    DecodeWords(registers, Float64, dataType, byteOrder, wordOrder, exchanged, reversed);
    FourWords(WordsOf(registers, exchanged, reversed));
  }

  lemma FourWords(w: seq<int>)
    requires |w| == 4
    ensures FromWords(w) == ((w[0] * 65536 + w[1]) * 65536 + w[2]) * 65536 + w[3]
  {
    assert w[..3][..2] == w[..2] && w[..2][..1] == w[..1] && w[..1][..0] == [];
    assert FromWords(w[..1]) == w[0];
    assert FromWords(w[..2]) == w[0] * 65536 + w[1];
  }

  // ----- Reads of the wrong length -----

  /** The registers a decode looks at: the first ones, or the last ones when words are swapped. */
  function Window(registers: seq<int>, kind: Kind, wordOrder: Option<string>): seq<int>
    requires |registers| >= Width(kind)
  {
    if IsWordSwapped(wordOrder) then registers[|registers| - Width(kind)..] else registers[..Width(kind)]
  }

  lemma {:induction false} BytesOfPrefix(registers: seq<int>, k: nat)
    requires k <= |registers|
    ensures |RegistersToBytes(registers)| == 2 * |registers|
    ensures RegistersToBytes(registers)[..2 * k] == RegistersToBytes(registers[..k])
  {
    BytesAreBytes(registers);
    if k < |registers| {
      var n := |registers| - 1;
      BytesAreBytes(registers[..n]);
      BytesOfPrefix(registers[..n], k);
      assert registers[..n][..k] == registers[..k];
    } else {
      assert registers[..k] == registers;
    }
  }

  lemma PreparedWindow(registers: seq<int>, k: nat, bytesSwapped: bool, wordsSwapped: bool)
    requires k <= |registers|
    ensures Prepared(registers, bytesSwapped, wordsSwapped)[..k]
            == Prepared(if wordsSwapped then registers[|registers| - k..] else registers[..k],
                        bytesSwapped, wordsSwapped)
  {
    hide SwapWord;
    var reversed := if wordsSwapped then Reverse(registers) else registers;
    var window := if wordsSwapped then Reverse(registers[|registers| - k..]) else registers[..k];
    assert reversed[..k] == window;
    assert SwapWords(reversed)[..k] == SwapWords(window);
  }

  /** A longer read decodes as its window alone does: registers outside the window never matter. */
  lemma DecodeUsesWindowOnly(
    registers: seq<int>, kind: Kind, dataType: string, byteOrder: string, wordOrder: Option<string>)
    requires KindOf(dataType) == Some(kind) && |registers| >= Width(kind)
    ensures DecodeRegisters(registers, dataType, byteOrder, wordOrder)
            == DecodeRegisters(Window(registers, kind, wordOrder), dataType, byteOrder, wordOrder)
  {
    var k := Width(kind);
    var bytesSwapped, wordsSwapped := SwapsBytes(byteOrder), IsWordSwapped(wordOrder);
    hide Prepared, RegistersToBytes, SwapsBytes, IsWordSwapped, KindOf, FromBytes;
    var prepared := Prepared(registers, bytesSwapped, wordsSwapped);
    var prepared' := Prepared(Window(registers, kind, wordOrder), bytesSwapped, wordsSwapped);
    PreparedWindow(registers, k, bytesSwapped, wordsSwapped);
    PreparedLength(registers, bytesSwapped, wordsSwapped);
    BytesOfPrefix(prepared, k);
    BytesAreBytes(prepared');
    assert prepared[..k] == prepared';
    assert RegistersToBytes(prepared')[..2 * k] == RegistersToBytes(prepared');
  }

  lemma PreparedLength(registers: seq<int>, bytesSwapped: bool, wordsSwapped: bool)
    ensures |Prepared(registers, bytesSwapped, wordsSwapped)| == |registers|
  {
  }

  /** The same by the names of the types: how many registers each one needs, and that no other is known. */
  lemma FailsByName(
    registers: seq<int>, name: string, dataType: string, byteOrder: string, wordOrder: Option<string>)
    ensures var decoded := DecodeRegisters(registers, dataType, byteOrder, wordOrder);
            && (IsNamed(dataType, name) && name in {"int16", "short", "uint16", "unsigned16", "word"} ==>
                  (decoded.Err? <==> |registers| < 1))
            && (IsNamed(dataType, name)
                && name in {"float", "float32", "real", "int32", "long", "uint32", "unsigned32", "dword"} ==>
                  (decoded.Err? <==> |registers| < 2))
            && (IsNamed(dataType, name) && name in {"double", "float64"} ==> (decoded.Err? <==> |registers| < 4))
            && (decoded == Err(UnsupportedType) <==>
                  forall known :: IsNamed(dataType, known) ==> known !in {
                    "float", "float32", "real", "double", "float64", "int16", "short", "uint16", "unsigned16", "word",
                    "int32", "long", "uint32", "unsigned32", "dword"})
  {
    hide IsNamed, KindOf, DecodeRegisters;
    DecodeFailsExactlyWhen(registers, dataType, byteOrder, wordOrder);
    KindOfName(dataType);
    DecodeErrors(registers, dataType, byteOrder, wordOrder);
  }

  lemma DecodeErrors(registers: seq<int>, dataType: string, byteOrder: string, wordOrder: Option<string>)
    ensures var decoded := DecodeRegisters(registers, dataType, byteOrder, wordOrder);
            decoded.Err? ==> decoded.error == UnsupportedType || exists kind :: decoded.error == TooShort(kind)
  {
  }

  /** Decoding fails exactly when the type is unknown or the read is shorter than the type. */
  lemma DecodeFailsExactlyWhen(registers: seq<int>, dataType: string, byteOrder: string, wordOrder: Option<string>)
    ensures var decoded := DecodeRegisters(registers, dataType, byteOrder, wordOrder);
            && (decoded == Err(UnsupportedType) <==> KindOf(dataType) == None)
            && (forall kind :: decoded == Err(TooShort(kind)) <==>
                                 KindOf(dataType) == Some(kind) && |registers| < Width(kind))
  {
    BytesAreBytes(Prepared(registers, SwapsBytes(byteOrder), IsWordSwapped(wordOrder)));
  }
}
