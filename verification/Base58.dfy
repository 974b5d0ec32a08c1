/** Model of `base58ToBytes` (apps/extension/src/inpage.ts), against the encoding of
    draft-msporny-base58, section 3. */
module Base58 {
  import opened Wrappers
  import opened Numerals

  /** The alphabet 1-9, A-H, J-N, P-Z, a-k, m-z, by position. */
  function Symbol(i: nat): char
    requires i < 58
  {
    if i < 9 then ('1' as int + i) as char
    else if i < 17 then ('A' as int + i - 9) as char
    else if i < 22 then ('J' as int + i - 17) as char
    else if i < 33 then ('P' as int + i - 22) as char
    else if i < 44 then ('a' as int + i - 33) as char
    else ('m' as int + i - 44) as char
  }

  /** Digits and letters, but for the four that are easily mistaken, in the order of their codes. */
  predicate InAlphabet(c: char) {
    ('0' <= c <= '9' || 'A' <= c <= 'Z' || 'a' <= c <= 'z') && c !in {'0', 'O', 'I', 'l'}
  }

  lemma AlphabetAscends(i: nat, j: nat)
    requires i < j < 58
    ensures InAlphabet(Symbol(i)) && InAlphabet(Symbol(j)) && Symbol(i) < Symbol(j)
  {
  }

  lemma AlphabetCovers(c: char) returns (i: nat)
    requires InAlphabet(c)
    ensures i < 58 && Symbol(i) == c
  {
    var n := c as int;
    if c <= '9' { i := n - '1' as int; }
    else if c <= 'H' { i := n - 'A' as int + 9; }
    else if c <= 'N' { i := n - 'J' as int + 17; }
    else if c <= 'Z' { i := n - 'P' as int + 22; }
    else if c <= 'k' { i := n - 'a' as int + 33; }
    else { i := n - 'm' as int + 44; }
  }

  type Byte = x: nat | x < 256

  datatype Error = InvalidBase58

  /** `alphabet.indexOf(character)`, with None for -1. */
  function IndexFrom(c: char, i: nat): (r: Option<nat>)
    requires i <= 58
    ensures r.Some? ==> i <= r.value < 58 && Symbol(r.value) == c
    ensures r.None? ==> forall k :: i <= k < 58 ==> Symbol(k) != c
    decreases 58 - i
  {
    if i == 58 then None
    else if Symbol(i) == c then Some(i)
    else IndexFrom(c, i + 1)
  }

  function IndexOf(c: char): Option<nat> {
    IndexFrom(c, 0)
  }

  lemma IndexOfSymbol(i: nat)
    requires i < 58
    ensures IndexOf(Symbol(i)) == Some(i)
  {
    var r := IndexOf(Symbol(i));
    if r.Some? && r.value < i {
      AlphabetAscends(r.value, i);
    } else if r.Some? && r.value > i {
      AlphabetAscends(i, r.value);
    }
  }

  predicate ValidText(text: string) {
    forall i :: 0 <= i < |text| ==> IndexOf(text[i]).Some?
  }

  /** The base-58 digits a valid text stands for. */
  function Indexes(text: string): (r: seq<nat>)
    requires ValidText(text)
    ensures Proper(r, 58) && |r| == |text|
  {
    seq(|text|, i requires 0 <= i < |text| => IndexOf(text[i]).value)
  }

  function Symbols(digits: seq<nat>): string
    requires forall i :: 0 <= i < |digits| ==> digits[i] < 58
  {
    seq(|digits|, i requires 0 <= i < |digits| => Symbol(digits[i]))
  }

  /** Section 3 of draft-msporny-base58: a `1` for each leading zero byte, then the number in base 58. */
  function Encode(bytes: seq<Byte>): string {
    ConvertBack(bytes, 256, 58);
    Symbols(Convert(bytes, 256, 58))
  }

  // ---------- The decoder ----------

  method ReadNumber(value: string) returns (r: Result<nat, Error>)
    ensures r.Success? <==> ValidText(value)
    ensures r.Success? ==> r.value == Value(Indexes(value), 58)
  {
    var number := 0;
    for i := 0 to |value|
      invariant ValidText(value[..i]) && number == Value(Indexes(value[..i]), 58)
    {
      var index := IndexOf(value[i]);
      if index.None? {
        return Failure(InvalidBase58);
      }
      assert value[..i + 1] == value[..i] + [value[i]];
      assert Indexes(value[..i + 1]) == Indexes(value[..i]) + [index.value];
      ValueSnoc(Indexes(value[..i]), index.value, 58);
      number := number * 58 + index.value;
    }
    assert value[..|value|] == value;
    return Success(number);
  }

  method BigEndianBytes(n: nat) returns (output: seq<Byte>)
    ensures output == Digits(n, 256)
  {
    output := [];
    var number := n;
    while number > 0
      invariant Digits(n, 256) == Digits(number, 256) + output
    {
      output := [number % 256] + output;
      number := number / 256;
    }
  }

  /** `value.match(/^1* /)`: how many `1`s the text begins with. */
  function LeadingOnes(text: string): (r: nat)
    ensures r <= |text|
  {
    if text == [] || text[0] != '1' then 0 else 1 + LeadingOnes(text[1..])
  }

  lemma {:induction false} OnesAreZeros(text: string)
    requires ValidText(text)
    ensures LeadingOnes(text) == LeadingZeros(Indexes(text))
  {
    if text != [] {
      IndexOfSymbol(0);
      assert Symbol(0) == '1';
      assert ValidText(text[1..]) && Indexes(text)[1..] == Indexes(text[1..]);
      assert Indexes(text)[0] == 0 <==> text[0] == '1';
      OnesAreZeros(text[1..]);
    }
  }

  method Base58ToBytes(value: string) returns (r: Result<seq<Byte>, Error>)
    ensures r.Success? <==> ValidText(value)
    ensures r.Success? ==> Encode(r.value) == value
    ensures r.Success? ==> r.value == Convert(Indexes(value), 58, 256)
  {
    var number :- ReadNumber(value);
    var output := BigEndianBytes(number);
    OnesAreZeros(value);
    var leading: seq<Byte> := seq(LeadingOnes(value), _ => 0);
    assert leading == Zeros(LeadingOnes(value));
    r := Success(leading + output);
    DecodeThenEncode(value);
  }

  /** Every valid text is the encoding of what it decodes to. */
  lemma DecodeThenEncode(text: string)
    requires ValidText(text)
    ensures Proper(Convert(Indexes(text), 58, 256), 256)
    ensures Encode(Convert(Indexes(text), 58, 256)) == text
  {
    ConvertBack(Indexes(text), 58, 256);
  }

  /** Every byte string is what its encoding decodes to; in particular the encoding is valid text. */
  lemma EncodeThenDecode(bytes: seq<Byte>)
    ensures ValidText(Encode(bytes))
    ensures Convert(Indexes(Encode(bytes)), 58, 256) == bytes
  {
    ConvertBack(bytes, 256, 58);
    var digits := Convert(bytes, 256, 58);
    var text := Encode(bytes);
    forall i | 0 <= i < |text| ensures IndexOf(text[i]) == Some(digits[i]) {
      IndexOfSymbol(digits[i]);
    }
    assert Indexes(text) == digits;
  }
}
