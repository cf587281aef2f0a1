/** The pieces of string handling that header values go through: trimming,
    splitting on commas, joining, and reading an unsigned 64-bit length. */
module Text {
  import opened Bytes

  /** White space that trimming removes, within Latin-1. */
  predicate IsSpace(c: char) {
    9 <= c as int <= 13 || c == ' ' || c as int == 0x85 || c as int == 0xA0
  }

  function TrimLeft(s: string): string {
    if s != "" && IsSpace(s[0]) then TrimLeft(s[1..]) else s
  }

  function TrimRight(s: string): string {
    if s != "" && IsSpace(s[|s| - 1]) then TrimRight(s[..|s| - 1]) else s
  }

  function Trimmed(s: string): string {
    TrimRight(TrimLeft(s))
  }

  /** The parts of `s` between separators; empty parts are kept. */
  function Split(s: string, separator: char): (parts: seq<string>)
    ensures |parts| > 0
  {
    if s == "" then [""]
    else
      var rest := Split(s[1..], separator);
      if s[0] == separator then [""] + rest else [[s[0]] + rest[0]] + rest[1..]
  }

  /** Joins a list of values the way the request printer does. */
  function Join(values: seq<string>): string {
    if |values| == 0 then ""
    else if |values| == 1 then values[0]
    else values[0] + ", " + Join(values[1..])
  }

  /** One of the comma-separated parts of `value`, once trimmed, is `token`. */
  predicate HasToken(value: string, token: string) {
    AnyTrimmed(Split(value, ','), token)
  }

  /** One of the values lists the token. */
  predicate AnyHasToken(values: seq<string>, token: string) {
    exists i :: 0 <= i < |values| && HasToken(values[i], token)
  }

  predicate AnyTrimmed(parts: seq<string>, token: string) {
    exists i :: 0 <= i < |parts| && Trimmed(parts[i]) == token
  }

  /** An unsigned decimal number below 2^64, with white space around it ignored. */
  function ToUInt64(value: string): Option<UInt64> {
    var digits := Trimmed(value);
    if digits != "" && AllDigits(digits) && DecimalValue(digits) < TWO_TO_THE_64
    then Some(DecimalValue(digits))
    else None
  }

  /** Trimming takes away blanks only. */
  lemma {:induction false} TrimLeftKeeps(s: string, c: char)
    requires c in s && !IsSpace(c)
    ensures c in TrimLeft(s)
  {
    if IsSpace(s[0]) {
      TrimLeftKeeps(s[1..], c);
    }
  }

  lemma {:induction false} TrimRightKeeps(s: string, c: char)
    requires c in s && !IsSpace(c)
    ensures c in TrimRight(s)
  {
    if IsSpace(s[|s| - 1]) {
      TrimRightKeeps(s[..|s| - 1], c);
    }
  }

  /** Several values joined on one line are no number: there is a comma between them. */
  lemma JoinedIsNoNumber(values: seq<string>)
    requires |values| >= 2
    ensures ToUInt64(Join(values)) == None
  {
    var joined := Join(values);
    assert joined[|values[0]|] == ',';
    TrimLeftKeeps(joined, ',');
    TrimRightKeeps(TrimLeft(joined), ',');
  }

  lemma SplitGoesOn(front: seq<string>, back: seq<string>, c: char)
    requires front != []
    ensures [""] + (front + back) == ([""] + front) + back
    ensures [[c] + (front + back)[0]] + (front + back)[1..] == ([[c] + front[0]] + front[1..]) + back
  {
    assert (front + back)[1..] == front[1..] + back;
  }

  lemma {:induction false} SplitConcat(a: string, b: string, separator: char)
    ensures Split(a + [separator] + b, separator) == Split(a, separator) + Split(b, separator)
  {
    var whole := a + [separator] + b;
    if a == "" {
      assert whole[1..] == b;
    } else {
      SplitConcat(a[1..], b, separator);
      assert whole[0] == a[0] && whole[1..] == a[1..] + [separator] + b;
      SplitGoesOn(Split(a[1..], separator), Split(b, separator), a[0]);
    }
  }

  lemma AnyTrimmedConcat(a: seq<string>, b: seq<string>, token: string)
    ensures AnyTrimmed(a + b, token) <==> AnyTrimmed(a, token) || AnyTrimmed(b, token)
  {
    if AnyTrimmed(a, token) {
      var i :| 0 <= i < |a| && Trimmed(a[i]) == token;
      assert (a + b)[i] == a[i];
    }
    if AnyTrimmed(b, token) {
      var i :| 0 <= i < |b| && Trimmed(b[i]) == token;
      assert (a + b)[|a| + i] == b[i];
    }
  }

  /** A leading blank does not change which tokens a value holds. */
  lemma LeadingBlank(value: string, token: string)
    ensures HasToken(" " + value, token) <==> HasToken(value, token)
  {
    var parts, rest := Split(" " + value, ','), Split(value, ',');
    assert (" " + value)[1..] == value;
    assert parts == [" " + rest[0]] + rest[1..];
    assert Trimmed(" " + rest[0]) == Trimmed(rest[0]) by {
      assert (" " + rest[0])[1..] == rest[0];
    }
    assert forall i | 0 <= i < |rest| :: Trimmed(parts[i]) == Trimmed(rest[i]);
  }

  /** A token is in the joined value exactly when it is in one of the values that
      were joined: printing repeated headers on one line loses no token. */
  lemma {:induction false} JoinKeepsTokens(values: seq<string>, token: string)
    requires |values| > 0
    ensures HasToken(Join(values), token) <==> AnyHasToken(values, token)
  {
    if |values| == 1 {
      assert values[0] == Join(values);
    } else {
      var rest := values[1..];
      JoinKeepsTokens(rest, token);
      assert Join(values) == values[0] + "," + (" " + Join(rest));
      SplitConcat(values[0], " " + Join(rest), ',');
      AnyTrimmedConcat(Split(values[0], ','), Split(" " + Join(rest), ','), token);
      LeadingBlank(Join(rest), token);
      if i :| 0 <= i < |rest| && HasToken(rest[i], token) {
        assert HasToken(values[i + 1], token);
      }
      if i :| 0 <= i < |values| && HasToken(values[i], token) {
        assert i > 0 ==> values[i] == rest[i - 1];
      }
    }
  }

  /** Joining values without control characters gives a value without them. */
  lemma {:induction false} JoinNoCtl(values: seq<string>)
    requires forall i | 0 <= i < |values| :: NoCtl(values[i])
    ensures NoCtl(Join(values))
  {
    if |values| > 1 {
      JoinNoCtl(values[1..]);
    }
  }

  /** Whether any of the values lists the token. */
  method SearchToken(values: seq<string>, token: string) returns (found: bool)
    ensures found <==> AnyHasToken(values, token)
  {
    for i := 0 to |values|
      invariant forall j | 0 <= j < i :: !HasToken(values[j], token)
    {
      var parts := Split(values[i], ',');
      for j := 0 to |parts|
        invariant forall l | 0 <= l < j :: Trimmed(parts[l]) != token
      {
        if Trimmed(parts[j]) == token {
          assert HasToken(values[i], token);
          return true;
        }
      }
    }
    return false;
  }

  // ----- what trimming, splitting and reading a number come to -----

  predicate AllSpace(s: string) {
    forall i | 0 <= i < |s| :: IsSpace(s[i])
  }

  lemma SpaceIff(c: char)
    ensures IsSpace(c) <==> c in "\t\n\U{0B}\U{0C}\r \U{85}\U{A0}"
  {
    assert "\t\n\U{0B}\U{0C}\r \U{85}\U{A0}" == ['\t', '\n', '\U{0B}', '\U{0C}', '\r', ' ', '\U{85}', '\U{A0}'];
  }

  /** Nothing, or text that neither begins nor ends with a blank. */
  predicate IsTrim(s: string) {
    s == "" || (!IsSpace(s[0]) && !IsSpace(s[|s| - 1]))
  }

  lemma {:induction false} TrimLeftIs(a: string, s: string)
    requires AllSpace(a) && (s == "" || !IsSpace(s[0]))
    ensures TrimLeft(a + s) == s
  {
    if a == "" {
      assert a + s == s;
    } else {
      assert (a + s)[1..] == a[1..] + s;
      TrimLeftIs(a[1..], s);
    }
  }

  lemma {:induction false} TrimRightIs(s: string, b: string)
    requires AllSpace(b) && (s == "" || !IsSpace(s[|s| - 1]))
    ensures TrimRight(s + b) == s
  {
    if b == "" {
      assert s + b == s;
    } else {
      assert (s + b)[..|s + b| - 1] == s + b[..|b| - 1];
      TrimRightIs(s, b[..|b| - 1]);
    }
  }

  /** Trimming takes away all the blanks on both sides, and nothing else. */
  lemma TrimmedIs(a: string, s: string, b: string)
    requires AllSpace(a) && IsTrim(s) && AllSpace(b)
    ensures Trimmed(a + s + b) == s
  {
    if s == "" {
      assert a + s + b == (a + b) + "";
      TrimLeftIs(a + b, "");
    } else {
      assert a + s + b == a + (s + b);
      TrimLeftIs(a, s + b);
      TrimRightIs(s, b);
    }
  }

  lemma {:induction false} LeftBlanks(s: string) returns (a: string)
    ensures AllSpace(a) && s == a + TrimLeft(s) && (TrimLeft(s) == "" || !IsSpace(TrimLeft(s)[0]))
  {
    a := "";
    if s != "" && IsSpace(s[0]) {
      a := LeftBlanks(s[1..]);
      a := [s[0]] + a;
      assert s == [s[0]] + s[1..];
    }
  }

  lemma {:induction false} RightBlanks(s: string) returns (b: string)
    ensures AllSpace(b) && s == TrimRight(s) + b && (TrimRight(s) == "" || !IsSpace(TrimRight(s)[|TrimRight(s)| - 1]))
  {
    b := "";
    if s != "" && IsSpace(s[|s| - 1]) {
      b := RightBlanks(s[..|s| - 1]);
      b := b + [s[|s| - 1]];
      assert s == s[..|s| - 1] + [s[|s| - 1]];
    }
  }

  /** Every text is blanks, its trimmed form, and blanks. */
  lemma Blanks(s: string) returns (a: string, b: string)
    ensures AllSpace(a) && IsTrim(Trimmed(s)) && AllSpace(b) && s == a + Trimmed(s) + b
  {
    a := LeftBlanks(s);
    b := RightBlanks(TrimLeft(s));
  }

  /** `value` is the decimal digits of `n` with zeros in front of them and blanks around. */
  ghost predicate SpellsLength(value: string, n: nat) {
    exists a, zeros: nat, b :: AllSpace(a) && AllSpace(b) && value == a + (Zeros(zeros) + Decimal(n)) + b
  }

  /** The lengths that are read are exactly the numbers below 2^64 that are spelled. */
  lemma ToUInt64Iff(value: string, n: nat)
    ensures ToUInt64(value) == Some(n) <==> n < TWO_TO_THE_64 && SpellsLength(value, n)
  {
    hide DecimalValue, Zeros, Decimal, IsSpace, Trimmed;
    if a, zeros: nat, b :| AllSpace(a) && AllSpace(b) && value == a + (Zeros(zeros) + Decimal(n)) + b {
      var digits := Zeros(zeros) + Decimal(n);
      ZerosInFront(zeros, n);
      DigitsAreNoBlanks(digits);
      TrimmedIs(a, digits, b);
    }
    if ToUInt64(value) == Some(n) {
      var a, b := Blanks(value);
      var zeros := DigitsSpell(Trimmed(value));
      assert AllSpace(a) && AllSpace(b) && value == a + (Zeros(zeros) + Decimal(n)) + b;
    }
  }

  lemma DigitsAreNoBlanks(digits: string)
    requires AllDigits(digits)
    ensures IsTrim(digits)
  {}

  /** A value is refused exactly when it spells no number below 2^64. */
  lemma NoLengthIff(value: string)
    ensures ToUInt64(value) == None <==> forall n: nat | n < TWO_TO_THE_64 :: !SpellsLength(value, n)
  {
    hide ToUInt64, SpellsLength;
    if ToUInt64(value) == None {
      forall n: nat | n < TWO_TO_THE_64 ensures !SpellsLength(value, n) {
        ToUInt64Iff(value, n);
      }
    } else {
      ToUInt64Iff(value, ToUInt64(value).value);
    }
  }

  /** One of the comma-separated parts of `value` is the token with blanks around it. */
  ghost predicate Lists(value: string, token: string) {
    exists front, a, b, back ::
      && AllSpace(a) && AllSpace(b)
      && EndsPart(front) && BeginsPart(back)
      && value == front + (a + token + b) + back
  }

  predicate EndsPart(front: string) {
    front == "" || front[|front| - 1] == ','
  }

  predicate BeginsPart(back: string) {
    back == "" || back[0] == ','
  }

  lemma {:induction false} SplitWhole(s: string, separator: char)
    requires separator !in s
    ensures Split(s, separator) == [s]
  {
    if s != "" {
      SplitWhole(s[1..], separator);
      assert [s[0]] + s[1..] == s;
    }
  }

  /** The parts with separators between them. */
  function Glue(parts: seq<string>, separator: char): string {
    if |parts| == 0 then ""
    else if |parts| == 1 then parts[0]
    else parts[0] + [separator] + Glue(parts[1..], separator)
  }

  lemma {:induction false} SplitGlues(s: string, separator: char)
    ensures Glue(Split(s, separator), separator) == s
    ensures forall i | 0 <= i < |Split(s, separator)| :: separator !in Split(s, separator)[i]
  {
    if s != "" {
      var rest, parts := Split(s[1..], separator), Split(s, separator);
      SplitGlues(s[1..], separator);
      assert parts[1..] == if s[0] == separator then rest else rest[1..];
      assert s == [s[0]] + s[1..];
    }
  }

  lemma {:induction false} GlueSplits(parts: seq<string>, separator: char)
    requires parts != [] && forall i | 0 <= i < |parts| :: separator !in parts[i]
    ensures Split(Glue(parts, separator), separator) == parts
  {
    SplitWhole(parts[0], separator);
    if |parts| == 1 {
      assert parts == [parts[0]];
    } else {
      GlueSplits(parts[1..], separator);
      SplitConcat(parts[0], Glue(parts[1..], separator), separator);
      assert parts == [parts[0]] + parts[1..];
    }
  }

  /** The parts of a text are the one list of texts without the separator that gives the
      text back with separators put between them. */
  lemma SplitIff(s: string, separator: char, parts: seq<string>)
    ensures parts == Split(s, separator)
       <==> && parts != [] && (forall i | 0 <= i < |parts| :: separator !in parts[i])
            && Glue(parts, separator) == s
  {
    hide Split, Glue;
    SplitGlues(s, separator);
    if parts != [] && (forall i | 0 <= i < |parts| :: separator !in parts[i]) {
      GlueSplits(parts, separator);
    }
  }

  lemma {:induction false} GlueAround(parts: seq<string>, i: nat) returns (front: string, back: string)
    requires i < |parts|
    ensures EndsPart(front) && BeginsPart(back) && Glue(parts, ',') == front + parts[i] + back
  {
    if i == 0 {
      front, back := "", if |parts| == 1 then "" else "," + Glue(parts[1..], ',');
    } else {
      front, back := GlueAround(parts[1..], i - 1);
      front := parts[0] + "," + front;
    }
  }

  lemma FirstPartOf(part: string, back: string)
    requires BeginsPart(back) && ',' !in part
    ensures part in Split(part + back, ',')
  {
    hide Split;
    SplitWhole(part, ',');
    assert part in [part];
    if back == "" {
      assert part + back == part;
    } else {
      assert part + back == part + "," + back[1..];
      SplitConcat(part, back[1..], ',');
    }
  }

  lemma PartOf(front: string, part: string, back: string)
    requires EndsPart(front) && BeginsPart(back) && ',' !in part
    ensures part in Split(front + part + back, ',')
  {
    hide Split, BeginsPart;
    FirstPartOf(part, back);
    if front == "" {
      assert front + part + back == part + back;
    } else {
      var f := front[..|front| - 1];
      assert front + part + back == f + "," + (part + back);
      SplitConcat(f, part + back, ',');
    }
  }

  /** A token is found in a value exactly when the value lists it. */
  lemma HasTokenIff(value: string, token: string)
    requires IsTrim(token) && ',' !in token
    ensures HasToken(value, token) <==> Lists(value, token)
  {
    hide Split, Glue, Trimmed, IsTrim;
    var parts := Split(value, ',');
    SplitGlues(value, ',');
    if HasToken(value, token) {
      var i :| 0 <= i < |parts| && Trimmed(parts[i]) == token;
      var front, back := GlueAround(parts, i);
      var a, b := Blanks(parts[i]);
      assert value == front + (a + token + b) + back;
    }
    if a, b, front, back :| && AllSpace(a) && AllSpace(b) && EndsPart(front) && BeginsPart(back)
                            && value == front + (a + token + b) + back {
      PartOf(front, a + token + b, back);
      TrimmedIs(a, token, b);
    }
  }
}
