/** Which bytes the parser takes into a method and into a header name, and which methods
    and names it therefore reads. */
module NameBytes {
  import opened Bytes
  import opened Parser
  import opened ParserRuns

  /** The parser is about to read a method or a header name, or in the middle of one. */
  predicate BeforeName(s: ParserState) {
    s.MethodStart? || s.HeaderLineStart?
  }

  predicate InName(s: ParserState) {
    s.Method? || s.HeaderName?
  }

  /** What has been read of the name. */
  function NameRead(k: Config): string {
    if BeforeName(k.parser.state) then ""
    else if k.parser.state.Method? then k.message.requestMethod else k.parser.buffer
  }

  /** The bytes that end the name, or stand in its place. */
  predicate GoesElsewhere(k: Config, c: char) {
    match k.parser.state
    case Method => c == ' '
    case HeaderName => c == ':'
    case HeaderLineStart => c == '\r' || (k.message.headers.values != map[] && (c == ' ' || c == '\t'))
    case _ => false
  }

  /** A byte is taken into a name exactly when it is a letter, a digit or one of the listed
      marks; another byte that does not end the name makes the message invalid. */
  lemma TakenIffNameByte(k: Config, c: char)
    requires BeforeName(k.parser.state) || InName(k.parser.state)
    requires k.parser.state.MethodStart? ==> k.message.requestMethod == ""
    ensures var s := Step(k, c);
            && (s.outcome == Incomplete && InName(s.config.parser.state) <==> IsNameByte(c))
            && (IsNameByte(c) ==> NameRead(s.config) == NameRead(k) + [c])
            && (s.outcome == Invalid <==> !IsNameByte(c) && !GoesElsewhere(k, c))
            && (GoesElsewhere(k, c) ==> s.outcome == Incomplete)
  {
    hide StepStatusLine, StepChunkLine, StepChunkData, IsTokenChar, IsNameByte;
    TokenCharIff(c);
    EndsAreNoNameBytes();
  }

  lemma EndsAreNoNameBytes()
    ensures !IsNameByte(' ') && !IsNameByte(':') && !IsNameByte('\r') && !IsNameByte('\t')
  {
    TokenCharIff(' ');
    TokenCharIff(':');
    TokenCharIff('\r');
    TokenCharIff('\t');
  }

  /** A line has one such name, at its start. */
  lemma NameNotEnteredLater(k: Config, c: char)
    requires !BeforeName(k.parser.state) && !InName(k.parser.state)
    ensures !InName(Step(k, c).config.parser.state)
  {
    hide FramingOf, HeaderFields.Inserted, ShiftIn, HexDigitValue;
  }

  lemma NotBackAtStart(k: Config, c: char)
    requires c != '\n'
    ensures Step(k, c).outcome == Incomplete ==> !BeforeName(Step(k, c).config.parser.state)
  {
    hide FramingOf, HeaderFields.Inserted, ShiftIn, HexDigitValue;
  }

  predicate AreNameBytes(s: string) {
    forall i | 0 <= i < |s| :: IsNameByte(s[i])
  }

  lemma OneMoreByte(s: string, c: char)
    ensures AreNameBytes(s + [c]) <==> AreNameBytes(s) && IsNameByte(c)
  {
    hide IsNameByte;
    assert (s + [c])[|s|] == c;
    assert forall i | 0 <= i < |s| :: (s + [c])[i] == s[i];
  }

  /** After the first bytes of a request, or of a header line, the parser is inside the method
      or the header name if and only if they are name bytes, and then they are the name. */
  lemma {:induction false} InNameIff(k: Config, s: string)
    requires BeforeName(k.parser.state) && (k.parser.state.MethodStart? ==> k.message.requestMethod == "")
    requires s != "" && '\n' !in s
    ensures var r := Run(k, s);
            && (r.outcome == Incomplete && InName(r.config.parser.state) <==> AreNameBytes(s))
            && (r.outcome == Incomplete ==> !BeforeName(r.config.parser.state))
            && (AreNameBytes(s) ==> NameRead(r.config) == s)
    decreases |s|
  {
    hide Step, Run, IsNameByte, NameRead, AreNameBytes;
    var init, c := s[..|s| - 1], s[|s| - 1];
    assert s == init + [c];
    RunLast(k, init, c);
    OneMoreByte(init, c);
    if init == "" {
      NothingToRead(k, Start);
      assert AreNameBytes("") && NameRead(k) == "" by { NoNameYet(k); }
      NotBackAtStart(k, c);
      TakenIffNameByte(k, c);
    } else {
      InNameIff(k, init);
      var before := Run(k, init).config;
      if Run(k, init).outcome == Incomplete {
        NotBackAtStart(before, c);
        if InName(before.parser.state) {
          TakenIffNameByte(before, c);
        } else {
          NameNotEnteredLater(before, c);
        }
      }
    }
  }

  lemma NoNameYet(k: Config)
    ensures AreNameBytes("")
    ensures BeforeName(k.parser.state) ==> NameRead(k) == ""
  {}
}
