/** Character classes of the HTTP parser.

    A byte is a `char` whose code is the byte's value, so a received buffer is a
    `string`. None of the classes below depends on whether the platform's `char`
    is signed: a byte of 128 or more belongs to none of them. */
module Bytes {

  datatype Option<+T> = None | Some(value: T)

  const TWO_TO_THE_64 := 0x1_0000_0000_0000_0000

  /** An unsigned 64-bit counter. */
  type UInt64 = n: nat | n < TWO_TO_THE_64

  predicate IsChar(c: char) {
    c as int <= 127
  }

  predicate IsCtl(c: char) {
    c as int <= 31 || c as int == 127
  }

  /** The separators the parser refuses in names. '>' is not among them. */
  predicate IsTSpecial(c: char) {
    match c
    case '(' => true
    case ')' => true
    case '<' => true
    case '@' => true
    case ',' => true
    case ';' => true
    case ':' => true
    case '\\' => true
    case '\"' => true
    case '/' => true
    case '[' => true
    case ']' => true
    case '?' => true
    case '=' => true
    case '{' => true
    case '}' => true
    case ' ' => true
    case '\t' => true
    case _ => false
  }

  predicate IsTokenChar(c: char) {
    IsChar(c) && !IsCtl(c) && !IsTSpecial(c)
  }

  predicate IsDigit(c: char) {
    '0' <= c <= '9'
  }

  predicate IsHex(c: char) {
    IsDigit(c) || 'a' <= c <= 'f' || 'A' <= c <= 'F'
  }

  function DigitValue(c: char): nat
    requires IsDigit(c)
  {
    c as int - '0' as int
  }

  function HexDigitValue(c: char): nat
    requires IsHex(c)
  {
    if IsDigit(c) then DigitValue(c)
    else if 'a' <= c <= 'f' then c as int - 'a' as int + 10
    else c as int - 'A' as int + 10
  }

  /** Every character of `s` is a token character. */
  predicate IsToken(s: string) {
    forall i | 0 <= i < |s| :: IsTokenChar(s[i])
  }

  /** No character of `s` is a control character. */
  predicate NoCtl(s: string) {
    forall i | 0 <= i < |s| :: !IsCtl(s[i])
  }

  predicate AllDigits(s: string) {
    forall i | 0 <= i < |s| :: IsDigit(s[i])
  }

  predicate AllHex(s: string) {
    forall i | 0 <= i < |s| :: IsHex(s[i])
  }

  predicate SevenBit(s: string) {
    forall i | 0 <= i < |s| :: IsChar(s[i])
  }

  /** The number a run of decimal digits spells. */
  function DecimalValue(s: string): nat
    requires AllDigits(s)
  {
    if s == "" then 0 else 10 * DecimalValue(s[..|s| - 1]) + DigitValue(s[|s| - 1])
  }

  /** The number a run of hexadecimal digits spells, without a width limit. */
  function HexValue(s: string): nat
    requires AllHex(s)
  {
    if s == "" then 0 else 16 * HexValue(s[..|s| - 1]) + HexDigitValue(s[|s| - 1])
  }

  /** Decimal digits of a number, as a text stream prints them. */
  function Decimal(n: nat): (s: string)
    ensures s != "" && AllDigits(s)
  {
    var d := ('0' as int + n % 10) as char;
    if n < 10 then [d] else Decimal(n / 10) + [d]
  }

  /** Printing a number and reading the digits back gives the number. */
  lemma {:induction false} DecimalRoundTrip(n: nat)
    ensures DecimalValue(Decimal(n)) == n
  {
    var s := Decimal(n);
    if n >= 10 {
      DecimalRoundTrip(n / 10);
      assert s[..|s| - 1] == Decimal(n / 10);
    } else {
      assert s[..|s| - 1] == "";
    }
  }

  // ----- which bytes the classes hold -----

  const DIGITS := "0123456789"
  const LOWER_HEX := "0123456789abcdef"
  const UPPER_HEX := "0123456789ABCDEF"
  const NAME_MARKS := "!#$%&\U{27}*+-.^_`|~>"

  /** The bytes of which methods and header names are made: letters, digits, and the marks,
      the sixth of which is the apostrophe. */
  predicate IsNameByte(c: char) {
    'a' <= c <= 'z' || 'A' <= c <= 'Z' || '0' <= c <= '9' || c in NAME_MARKS
  }

  /** What three refusals leave is exactly that list. */
  lemma TokenCharIff(c: char)
    ensures IsTokenChar(c) <==> IsNameByte(c)
  {
    var marks := NAME_MARKS;
    assert marks == ['!', '#', '$', '%', '&', '\U{27}', '*', '+', '-', '.', '^', '_', '`', '|', '~', '>'];
  }

  lemma TokenIff(s: string)
    ensures IsToken(s) <==> forall i | 0 <= i < |s| :: IsNameByte(s[i])
  {
    hide IsTokenChar, IsNameByte;
    forall i | 0 <= i < |s| ensures IsTokenChar(s[i]) <==> IsNameByte(s[i]) {
      TokenCharIff(s[i]);
    }
  }

  /** Every byte is a control character, a character that prints, or no 7-bit character. */
  lemma ByteKinds(c: char)
    requires c as int < 256
    ensures IsCtl(c) <==> c as int < 0x80 && !(' ' <= c <= '~')
    ensures IsChar(c) <==> IsCtl(c) || ' ' <= c <= '~'
    ensures !IsChar(c) <==> 0x80 <= c as int < 0x100
  {}

  lemma DigitIff(c: char)
    ensures IsDigit(c) <==> c in DIGITS
    ensures IsHex(c) <==> c in LOWER_HEX || c in UPPER_HEX
  {
    var decimal, lower, upper := DIGITS, LOWER_HEX, UPPER_HEX;
    assert decimal == ['0', '1', '2', '3', '4', '5', '6', '7', '8', '9'];
    assert lower == decimal + ['a', 'b', 'c', 'd', 'e', 'f'];
    assert upper == decimal + ['A', 'B', 'C', 'D', 'E', 'F'];
  }

  /** The digits count up from zero, in either case. */
  lemma DigitsCount(i: nat)
    requires i < 16
    ensures i < 10 ==> IsDigit(DIGITS[i]) && DigitValue(DIGITS[i]) == i && Decimal(i) == [DIGITS[i]]
    ensures IsHex(LOWER_HEX[i]) && HexDigitValue(LOWER_HEX[i]) == i
    ensures IsHex(UPPER_HEX[i]) && HexDigitValue(UPPER_HEX[i]) == i
  {
    hide DecimalValue, HexValue;
  }

  // ----- numbers, printed and read back -----

  /** Zeros that stand in front of a number. */
  function Zeros(n: nat): string {
    seq(n, (i: nat) => '0')
  }

  /** The hexadecimal spelling of a number without leading zeros. */
  function Hex(n: nat, digits: string): string
    requires |digits| == 16
  {
    if n < 16 then [digits[n]] else Hex(n / 16, digits) + [digits[n % 16]]
  }

  predicate CountInHex(digits: string) {
    |digits| == 16 && forall i | 0 <= i < 16 :: IsHex(digits[i]) && HexDigitValue(digits[i]) == i
  }

  lemma {:induction false} HexReads(n: nat, zeros: nat, digits: string)
    requires CountInHex(digits)
    ensures Hex(n, digits) != ""
    ensures AllHex(Zeros(zeros) + Hex(n, digits)) && HexValue(Zeros(zeros) + Hex(n, digits)) == n
  {
    hide HexDigitValue, IsHex;
    var s := Zeros(zeros) + Hex(n, digits);
    assert s[|s| - 1] == digits[n % 16];
    if n < 16 {
      assert s[..|s| - 1] == Zeros(zeros);
      ZerosAreZero(zeros);
    } else {
      assert s[..|s| - 1] == Zeros(zeros) + Hex(n / 16, digits);
      HexReads(n / 16, zeros, digits);
    }
  }

  /** Printing a number in hexadecimal, in either case and with zeros in front, and reading
      the digits back gives the number. */
  lemma HexRoundTrip(n: nat, zeros: nat, digits: string)
    requires digits == LOWER_HEX || digits == UPPER_HEX
    ensures Hex(n, digits) != ""
    ensures AllHex(Zeros(zeros) + Hex(n, digits)) && HexValue(Zeros(zeros) + Hex(n, digits)) == n
  {
    hide Hex, HexValue, Zeros;
    forall i: nat | i < 16 ensures IsHex(digits[i]) && HexDigitValue(digits[i]) == i {
      DigitsCount(i);
    }
    HexReads(n, zeros, digits);
  }

  lemma {:induction false} ZerosAreZero(zeros: nat)
    ensures AllHex(Zeros(zeros)) && HexValue(Zeros(zeros)) == 0 && DecimalValue(Zeros(zeros)) == 0
  {
    if zeros > 0 {
      ZerosAreZero(zeros - 1);
      var s := Zeros(zeros);
      assert s[..|s| - 1] == Zeros(zeros - 1) && s[|s| - 1] == '0';
    }
  }

  /** Zeros in front of a number change nothing. */
  lemma {:induction false} ZerosInFront(zeros: nat, n: nat)
    ensures AllDigits(Zeros(zeros) + Decimal(n)) && DecimalValue(Zeros(zeros) + Decimal(n)) == n
  {
    var s := Zeros(zeros) + Decimal(n);
    if n < 10 {
      assert s[..|s| - 1] == Zeros(zeros);
      ZerosAreZero(zeros);
    } else {
      assert s[..|s| - 1] == Zeros(zeros) + Decimal(n / 10);
      ZerosInFront(zeros, n / 10);
    }
  }

  lemma DecimalGoesOn(n: nat, c: char)
    requires n > 0 && IsDigit(c)
    ensures Decimal(10 * n + DigitValue(c)) == Decimal(n) + [c]
  {}

  /** Digits that spell a number are its printed form with zeros in front. */
  lemma {:induction false} DigitsSpell(s: string) returns (zeros: nat)
    requires s != "" && AllDigits(s)
    ensures s == Zeros(zeros) + Decimal(DecimalValue(s))
  {
    hide Zeros;
    var init, c := s[..|s| - 1], s[|s| - 1];
    assert s == init + [c];
    var n := DecimalValue(init);
    if n == 0 {
      zeros := OnlyZeros(init);
      assert DecimalValue(s) == DigitValue(c);
    } else {
      hide Decimal;
      zeros := DigitsSpell(init);
      DecimalGoesOn(n, c);
      assert s == (Zeros(zeros) + Decimal(n)) + [c];
    }
  }

  lemma {:induction false} OnlyZeros(s: string) returns (zeros: nat)
    requires AllDigits(s) && DecimalValue(s) == 0
    ensures s == Zeros(zeros)
  {
    zeros := |s|;
    if s != "" {
      var before := OnlyZeros(s[..|s| - 1]);
      assert s == s[..|s| - 1] + [s[|s| - 1]];
    }
  }
}
