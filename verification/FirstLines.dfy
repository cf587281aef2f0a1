/** The first line of a request and of a response: the lines that the parser accepts, and
    what it makes of them. */
module FirstLines {
  import opened Bytes
  import opened Messages
  import opened Parser
  import opened ParserRuns

  /** A number as the parser reads one: decimal digits, leading zeros and all. */
  predicate IsNumber(s: string) {
    s != "" && AllDigits(s)
  }

  // ----- the request line -----

  datatype RequestHead = RequestHead(verb: string, target: string, major: string, minor: string)

  predicate IsTarget(s: string) {
    forall i | 0 <= i < |s| :: s[i] != ' ' && !IsCtl(s[i])
  }

  predicate IsRequestHead(h: RequestHead) {
    h.verb != "" && IsToken(h.verb) && IsTarget(h.target) && IsNumber(h.major) && IsNumber(h.minor)
  }

  function RequestHeadText(h: RequestHead): string {
    h.verb + " " + h.target + " HTTP/" + h.major + "." + h.minor + "\r\n"
  }

  function RequestHeadMeaning(h: RequestHead): Message
    requires IsRequestHead(h)
  {
    FRESH_MESSAGE.(requestMethod := h.verb, uri := h.target,
                  majorVersion := DecimalValue(h.major), minorVersion := DecimalValue(h.minor))
  }

  function WithLine(k: Config, s: ParserState, m: Message): Config {
    Config(k.parser.(state := s), m)
  }

  lemma {:induction false} MethodRun(k: Config, s: string)
    requires k.parser.state == Method && IsToken(s)
    ensures Leads(k, s, WithLine(k, Method, k.message.(requestMethod := k.message.requestMethod + s)))
  {
    hide StepHeaderSection, StepStatusLine, StepChunkLine, StepChunkData, Run;
    if s == "" {
      NothingToRead(k, Start);
      assert k.message.requestMethod + s == k.message.requestMethod;
    } else {
      var init, c := s[..|s| - 1], s[|s| - 1];
      assert s == init + [c];
      MethodRun(k, init);
      RunLast(k, init, c);
      assert (k.message.requestMethod + init) + [c] == k.message.requestMethod + s;
    }
  }

  lemma {:induction false} TargetRun(k: Config, s: string)
    requires k.parser.state == Uri && IsTarget(s)
    ensures Leads(k, s, WithLine(k, Uri, k.message.(uri := k.message.uri + s)))
  {
    hide StepHeaderSection, StepStatusLine, StepChunkLine, StepChunkData, Run;
    if s == "" {
      NothingToRead(k, Start);
      assert k.message.uri + s == k.message.uri;
    } else {
      var init, c := s[..|s| - 1], s[|s| - 1];
      assert s == init + [c];
      TargetRun(k, init);
      RunLast(k, init, c);
      assert (k.message.uri + init) + [c] == k.message.uri + s;
    }
  }

  lemma VersionDigit(k: Config, c: char)
    requires IsDigit(c)
    ensures k.parser.state == HttpVersionMajorStart ==>
              Step(k, c) == StepResult(Incomplete,
                              WithLine(k, HttpVersionMajor, k.message.(majorVersion := DigitValue(c))))
    ensures k.parser.state == HttpVersionMajor ==>
              Step(k, c) == StepResult(Incomplete, WithLine(k, HttpVersionMajor,
                              k.message.(majorVersion := 10 * k.message.majorVersion + DigitValue(c))))
    ensures k.parser.state == HttpVersionMinorStart ==>
              Step(k, c) == StepResult(Incomplete,
                              WithLine(k, HttpVersionMinor, k.message.(minorVersion := DigitValue(c))))
    ensures k.parser.state == HttpVersionMinor ==>
              Step(k, c) == StepResult(Incomplete, WithLine(k, HttpVersionMinor,
                              k.message.(minorVersion := 10 * k.message.minorVersion + DigitValue(c))))
  {
    hide StepHeaderSection, StepStatusLine, StepChunkLine, StepChunkData, DigitValue;
  }

  lemma {:induction false} MajorRun(k: Config, s: string)
    requires k.parser.state == HttpVersionMajorStart && s != "" && AllDigits(s)
    ensures Leads(k, s, WithLine(k, HttpVersionMajor, k.message.(majorVersion := DecimalValue(s))))
  {
    hide Step, Run, DigitValue;
    var init, c := s[..|s| - 1], s[|s| - 1];
    assert s == init + [c];
    RunLast(k, init, c);
    assert DecimalValue(s) == 10 * DecimalValue(init) + DigitValue(c);
    if init == "" {
      NothingToRead(k, Start);
      VersionDigit(k, c);
    } else {
      MajorRun(k, init);
      VersionDigit(WithLine(k, HttpVersionMajor, k.message.(majorVersion := DecimalValue(init))), c);
    }
  }

  lemma {:induction false} MinorRun(k: Config, s: string)
    requires k.parser.state == HttpVersionMinorStart && s != "" && AllDigits(s)
    ensures Leads(k, s, WithLine(k, HttpVersionMinor, k.message.(minorVersion := DecimalValue(s))))
  {
    hide Step, Run, DigitValue;
    var init, c := s[..|s| - 1], s[|s| - 1];
    assert s == init + [c];
    RunLast(k, init, c);
    assert DecimalValue(s) == 10 * DecimalValue(init) + DigitValue(c);
    if init == "" {
      NothingToRead(k, Start);
      VersionDigit(k, c);
    } else {
      MinorRun(k, init);
      VersionDigit(WithLine(k, HttpVersionMinor, k.message.(minorVersion := DecimalValue(init))), c);
    }
  }

  lemma RequestLineStep(k: Config, c: char, s: ParserState)
    requires match k.parser.state
             case Method => c == ' ' && s == Uri
             case Uri => c == ' ' && s == HttpVersionH
             case HttpVersionH => c == 'H' && s == HttpVersionT1
             case HttpVersionT1 => c == 'T' && s == HttpVersionT2
             case HttpVersionT2 => c == 'T' && s == HttpVersionP
             case HttpVersionP => c == 'P' && s == HttpVersionSlash
             case HttpVersionMajor => c == '.' && s == HttpVersionMinorStart
             case HttpVersionMinor => c == '\r' && s == Newline1
             case Newline1 => c == '\n' && s == HeaderLineStart
             case _ => false
    ensures Leads(k, [c], WithLine(k, s, k.message))
  {
    hide StepHeaderSection, StepStatusLine, StepChunkLine, StepChunkData, Leads;
    LeadsOne(k, c);
  }

  lemma SlashStep(k: Config)
    requires k.parser.state == HttpVersionSlash
    ensures Leads(k, "/", WithLine(k, HttpVersionMajorStart, k.message.(majorVersion := 0, minorVersion := 0)))
  {
    hide StepHeaderSection, StepStatusLine, StepChunkLine, StepChunkData, Leads;
    LeadsOne(k, '/');
  }

  lemma FirstMethodStep(k: Config, c: char)
    requires k.parser.state == MethodStart && IsTokenChar(c)
    ensures Leads(k, [c], WithLine(k, Method, k.message.(requestMethod := k.message.requestMethod + [c])))
  {
    hide StepHeaderSection, StepStatusLine, StepChunkLine, StepChunkData, Leads;
    LeadsOne(k, c);
  }

  /** " HTTP/" after the request target. */
  lemma ProtocolRun(k: Config)
    requires k.parser.state == Uri
    ensures Leads(k, " HTTP/", WithLine(k, HttpVersionMajorStart, k.message.(majorVersion := 0, minorVersion := 0)))
  {
    hide Step, Run, Leads;
    var m := k.message;
    RequestLineStep(k, ' ', HttpVersionH);
    RequestLineStep(WithLine(k, HttpVersionH, m), 'H', HttpVersionT1);
    assert " " + "H" == " H";
    LeadsJoin(k, " ", WithLine(k, HttpVersionH, m), "H", WithLine(k, HttpVersionT1, m));
    RequestLineStep(WithLine(k, HttpVersionT1, m), 'T', HttpVersionT2);
    assert " H" + "T" == " HT";
    LeadsJoin(k, " H", WithLine(k, HttpVersionT1, m), "T", WithLine(k, HttpVersionT2, m));
    RequestLineStep(WithLine(k, HttpVersionT2, m), 'T', HttpVersionP);
    assert " HT" + "T" == " HTT";
    LeadsJoin(k, " HT", WithLine(k, HttpVersionT2, m), "T", WithLine(k, HttpVersionP, m));
    RequestLineStep(WithLine(k, HttpVersionP, m), 'P', HttpVersionSlash);
    assert " HTT" + "P" == " HTTP";
    LeadsJoin(k, " HTT", WithLine(k, HttpVersionP, m), "P", WithLine(k, HttpVersionSlash, m));
    SlashStep(WithLine(k, HttpVersionSlash, m));
    LeadsJoin(k, " HTTP", WithLine(k, HttpVersionSlash, m), "/",
              WithLine(k, HttpVersionMajorStart, m.(majorVersion := 0, minorVersion := 0)));
    assert " HTTP" + "/" == " HTTP/";
  }

  /** The method, the blank and the target. */
  lemma MethodAndTargetRun(k: Config, verb: string, target: string)
    requires k.parser.state == MethodStart && k.message == FRESH_MESSAGE
    requires verb != "" && IsToken(verb) && IsTarget(target)
    ensures Leads(k, verb + " " + target, WithLine(k, Uri, FRESH_MESSAGE.(requestMethod := verb, uri := target)))
  {
    hide Step, Run, Leads;
    var first, rest := verb[..1], verb[1..];
    assert first == [verb[0]] && verb == first + rest;
    var k1 := WithLine(k, Method, FRESH_MESSAGE.(requestMethod := first));
    FirstMethodStep(k, verb[0]);
    assert "" + [verb[0]] == first;
    var k2 := WithLine(k, Method, FRESH_MESSAGE.(requestMethod := verb));
    MethodRun(k1, rest);
    LeadsJoin(k, first, k1, rest, k2);
    var k3 := WithLine(k, Uri, FRESH_MESSAGE.(requestMethod := verb));
    RequestLineStep(k2, ' ', Uri);
    LeadsJoin(k, verb, k2, " ", k3);
    TargetRun(k3, target);
    assert "" + target == target;
    LeadsJoin(k, verb + " ", k3, target, WithLine(k, Uri, FRESH_MESSAGE.(requestMethod := verb, uri := target)));
  }

  /** The two version numbers and the line end. */
  lemma VersionRun(k: Config, a: string, b: string)
    requires k.parser.state == HttpVersionMajorStart && IsNumber(a) && IsNumber(b)
    ensures Leads(k, a + "." + b + "\r" + "\n",
                  WithLine(k, HeaderLineStart,
                           k.message.(majorVersion := DecimalValue(a), minorVersion := DecimalValue(b))))
  {
    hide Step, Run, Leads, DecimalValue;
    var m1 := k.message.(majorVersion := DecimalValue(a));
    var m2 := m1.(minorVersion := DecimalValue(b));
    MajorRun(k, a);
    RequestLineStep(WithLine(k, HttpVersionMajor, m1), '.', HttpVersionMinorStart);
    LeadsJoin(k, a, WithLine(k, HttpVersionMajor, m1), ".", WithLine(k, HttpVersionMinorStart, m1));
    MinorRun(WithLine(k, HttpVersionMinorStart, m1), b);
    LeadsJoin(k, a + ".", WithLine(k, HttpVersionMinorStart, m1), b, WithLine(k, HttpVersionMinor, m2));
    RequestLineStep(WithLine(k, HttpVersionMinor, m2), '\r', Newline1);
    LeadsJoin(k, a + "." + b, WithLine(k, HttpVersionMinor, m2), "\r", WithLine(k, Newline1, m2));
    RequestLineStep(WithLine(k, Newline1, m2), '\n', HeaderLineStart);
    LeadsJoin(k, a + "." + b + "\r", WithLine(k, Newline1, m2), "\n", WithLine(k, HeaderLineStart, m2));
  }

  /** Complete: every request line is read as what it says. */
  lemma RequestHeadRun(h: RequestHead)
    requires IsRequestHead(h)
    ensures Leads(REQUEST_PARSER, RequestHeadText(h), WithLine(REQUEST_PARSER, HeaderLineStart, RequestHeadMeaning(h)))
  {
    hide Step, Run, Leads, IsTarget, IsToken, IsNumber, DecimalValue;
    var k := REQUEST_PARSER;
    var m1 := FRESH_MESSAGE.(requestMethod := h.verb, uri := h.target);
    var start := h.verb + " " + h.target;
    var version := h.major + "." + h.minor + "\r" + "\n";
    MethodAndTargetRun(k, h.verb, h.target);
    ProtocolRun(WithLine(k, Uri, m1));
    LeadsJoin(k, start, WithLine(k, Uri, m1), " HTTP/", WithLine(k, HttpVersionMajorStart, m1));
    VersionRun(WithLine(k, HttpVersionMajorStart, m1), h.major, h.minor);
    LeadsJoin(k, start + " HTTP/", WithLine(k, HttpVersionMajorStart, m1), version,
              WithLine(k, HeaderLineStart, RequestHeadMeaning(h)));
    assert RequestHeadText(h) == start + " HTTP/" + version;
  }

  // ----- the status line -----

  /** A reason phrase as the parser reads one: 7-bit characters, no carriage return
      after the first. */
  predicate IsPhrase(s: string) {
    s != "" && SevenBit(s) && '\r' !in s[1..]
  }

  datatype StatusHead = StatusHead(major: string, minor: string, code: string, phrase: string)

  predicate IsStatusHead(h: StatusHead) {
    IsNumber(h.major) && IsNumber(h.minor) && IsNumber(h.code) && IsPhrase(h.phrase)
  }

  /** A status line up to the blank before the reason phrase. */
  function StatusFront(h: StatusHead): string {
    "HTTP/" + (h.major + "." + h.minor + " " + h.code + " ")
  }

  function StatusHeadText(h: StatusHead): string {
    StatusFront(h) + h.phrase + "\r\n"
  }

  function StatusNumbers(h: StatusHead): Message
    requires IsNumber(h.major) && IsNumber(h.minor) && IsNumber(h.code)
  {
    FRESH_MESSAGE.(majorVersion := DecimalValue(h.major), minorVersion := DecimalValue(h.minor),
                  statusCode := DecimalValue(h.code))
  }

  function StatusHeadMeaning(h: StatusHead): Message
    requires IsNumber(h.major) && IsNumber(h.minor) && IsNumber(h.code)
  {
    StatusNumbers(h).(statusMessage := h.phrase)
  }

  function Reading(s: ParserState, buffer: string, m: Message): Config {
    Config(RESPONSE_RESET.(state := s, buffer := buffer), m)
  }

  lemma MajorDigit(k: Config, c: char)
    requires IsDigit(c)
    ensures k.parser.state == ResponseMajorVersionStart ==>
              Step(k, c) == StepResult(Incomplete,
                              WithLine(k, ResponseMajorVersion, k.message.(majorVersion := DigitValue(c))))
    ensures k.parser.state == ResponseMajorVersion ==>
              Step(k, c) == StepResult(Incomplete, WithLine(k, ResponseMajorVersion,
                              k.message.(majorVersion := 10 * k.message.majorVersion + DigitValue(c))))
  {
    hide StepHeaderSection, StepRequestLine, StepChunkLine, StepChunkData, DigitValue;
  }

  lemma MinorDigit(k: Config, c: char)
    requires IsDigit(c)
    ensures k.parser.state == ResponseMinorVersionStart ==>
              Step(k, c) == StepResult(Incomplete,
                              WithLine(k, ResponseMinorVersion, k.message.(minorVersion := DigitValue(c))))
    ensures k.parser.state == ResponseMinorVersion ==>
              Step(k, c) == StepResult(Incomplete, WithLine(k, ResponseMinorVersion,
                              k.message.(minorVersion := 10 * k.message.minorVersion + DigitValue(c))))
  {
    hide StepHeaderSection, StepRequestLine, StepChunkLine, StepChunkData, DigitValue;
  }

  lemma CodeDigit(k: Config, c: char)
    requires IsDigit(c)
    ensures k.parser.state == ResponseStatusCodeStart ==>
              Step(k, c) == StepResult(Incomplete,
                              WithLine(k, ResponseStatusCode, k.message.(statusCode := DigitValue(c))))
    ensures k.parser.state == ResponseStatusCode ==>
              Step(k, c) == StepResult(Incomplete, WithLine(k, ResponseStatusCode,
                              k.message.(statusCode := 10 * k.message.statusCode + DigitValue(c))))
  {
    hide StepHeaderSection, StepRequestLine, StepChunkLine, StepChunkData, DigitValue;
  }

  /** A number of the status line: the state it is read in, and what it sets. */
  function NumberStart(s: ParserState): ParserState {
    match s
    case ResponseMajorVersion => ResponseMajorVersionStart
    case ResponseMinorVersion => ResponseMinorVersionStart
    case _ => ResponseStatusCodeStart
  }

  function WithNumber(m: Message, s: ParserState, n: nat): Message {
    match s
    case ResponseMajorVersion => m.(majorVersion := n)
    case ResponseMinorVersion => m.(minorVersion := n)
    case _ => m.(statusCode := n)
  }

  predicate IsNumberState(s: ParserState) {
    s == ResponseMajorVersion || s == ResponseMinorVersion || s == ResponseStatusCode
  }

  /** The first digit of a number. */
  lemma NumberBegins(k: Config, s: ParserState, c: char)
    requires IsNumberState(s) && k.parser.state == NumberStart(s) && IsDigit(c)
    ensures Step(k, c) == StepResult(Incomplete, WithLine(k, s, WithNumber(k.message, s, DigitValue(c))))
  {
    hide Step, DigitValue;
    match s {
      case ResponseMajorVersion => MajorDigit(k, c);
      case ResponseMinorVersion => MinorDigit(k, c);
      case ResponseStatusCode => CodeDigit(k, c);
    }
  }

  /** One more digit. */
  lemma NumberGoesOn(k: Config, s: ParserState, n: nat, c: char)
    requires IsNumberState(s) && IsDigit(c)
    ensures Step(WithLine(k, s, WithNumber(k.message, s, n)), c)
         == StepResult(Incomplete, WithLine(k, s, WithNumber(k.message, s, 10 * n + DigitValue(c))))
  {
    hide Step, DigitValue;
    var k' := WithLine(k, s, WithNumber(k.message, s, n));
    match s {
      case ResponseMajorVersion => MajorDigit(k', c);
      case ResponseMinorVersion => MinorDigit(k', c);
      case ResponseStatusCode => CodeDigit(k', c);
    }
  }

  lemma {:induction false} NumberRun(k: Config, s: ParserState, digits: string)
    requires IsNumberState(s)
    requires k.parser.state == NumberStart(s) && digits != "" && AllDigits(digits)
    ensures Leads(k, digits, WithLine(k, s, WithNumber(k.message, s, DecimalValue(digits))))
  {
    hide Step, Run, DigitValue, IsNumberState, NumberStart, WithNumber, WithLine;
    var init, c := digits[..|digits| - 1], digits[|digits| - 1];
    assert digits == init + [c];
    RunLast(k, init, c);
    assert DecimalValue(digits) == 10 * DecimalValue(init) + DigitValue(c);
    if init == "" {
      NothingToRead(k, Start);
      NumberBegins(k, s, c);
    } else {
      NumberRun(k, s, init);
      NumberGoesOn(k, s, DecimalValue(init), c);
    }
  }

  lemma StatusStep(k: Config, c: char, s: ParserState)
    requires match k.parser.state
             case ResponseStart => c == 'H' && s == ResponseHttpT1
             case ResponseHttpT1 => c == 'T' && s == ResponseHttpT2
             case ResponseHttpT2 => c == 'T' && s == ResponseHttpP
             case ResponseHttpP => c == 'P' && s == ResponseHttpSlash
             case ResponseHttpSlash => c == '/' && s == ResponseMajorVersionStart
             case ResponseMajorVersion => c == '.' && s == ResponseMinorVersionStart
             case ResponseMinorVersion => c == ' ' && s == ResponseStatusCodeStart
             case ResponseStatusCode => c == ' ' && s == ResponseStatusMessageStart
             case ResponseNewline => c == '\n' && s == HeaderLineStart
             case _ => false
    ensures Leads(k, [c], WithLine(k, s, k.message))
  {
    hide StepHeaderSection, StepRequestLine, StepChunkLine, StepChunkData, Leads;
    LeadsOne(k, c);
  }

  lemma StatusLettersRun(k: Config)
    requires k.parser.state == ResponseStart
    ensures Leads(k, "HTT", WithLine(k, ResponseHttpP, k.message))
  {
    hide Step, Run, Leads;
    var m := k.message;
    StatusStep(k, 'H', ResponseHttpT1);
    StatusStep(WithLine(k, ResponseHttpT1, m), 'T', ResponseHttpT2);
    assert "H" + "T" == "HT";
    LeadsJoin(k, "H", WithLine(k, ResponseHttpT1, m), "T", WithLine(k, ResponseHttpT2, m));
    StatusStep(WithLine(k, ResponseHttpT2, m), 'T', ResponseHttpP);
    assert "HT" + "T" == "HTT";
    LeadsJoin(k, "HT", WithLine(k, ResponseHttpT2, m), "T", WithLine(k, ResponseHttpP, m));
  }

  lemma StatusProtocolRun(k: Config)
    requires k.parser.state == ResponseStart
    ensures Leads(k, "HTTP/", WithLine(k, ResponseMajorVersionStart, k.message))
  {
    hide Step, Run, Leads;
    var m := k.message;
    StatusLettersRun(k);
    StatusStep(WithLine(k, ResponseHttpP, m), 'P', ResponseHttpSlash);
    assert "HTT" + "P" == "HTTP";
    LeadsJoin(k, "HTT", WithLine(k, ResponseHttpP, m), "P", WithLine(k, ResponseHttpSlash, m));
    StatusStep(WithLine(k, ResponseHttpSlash, m), '/', ResponseMajorVersionStart);
    assert "HTTP" + "/" == "HTTP/";
    LeadsJoin(k, "HTTP", WithLine(k, ResponseHttpSlash, m), "/", WithLine(k, ResponseMajorVersionStart, m));
  }

  lemma PhraseStep(k: Config, c: char)
    requires IsChar(c)
    ensures k.parser.state == ResponseStatusMessageStart ==>
              Step(k, c) == StepResult(Incomplete,
                              Config(k.parser.(state := ResponseStatusMessage, buffer := [c]), k.message))
    ensures k.parser.state == ResponseStatusMessage && c != '\r' ==>
              Step(k, c) == StepResult(Incomplete, Config(k.parser.(buffer := k.parser.buffer + [c]), k.message))
  {
    hide StepHeaderSection, StepRequestLine, StepChunkLine, StepChunkData;
  }

  lemma {:induction false} PhraseRun(k: Config, s: string)
    requires k.parser.state == ResponseStatusMessageStart && IsPhrase(s)
    ensures Leads(k, s, Config(k.parser.(state := ResponseStatusMessage, buffer := s), k.message))
  {
    hide Step, Run;
    var init, c := s[..|s| - 1], s[|s| - 1];
    assert s == init + [c];
    RunLast(k, init, c);
    if init == "" {
      NothingToRead(k, Start);
      PhraseStep(k, c);
    } else {
      assert c in s[1..];
      assert init[1..] == s[1..][..|s| - 2];
      PhraseRun(k, init);
      PhraseStep(Config(k.parser.(state := ResponseStatusMessage, buffer := init), k.message), c);
    }
  }

  /** The line end of a status line. */
  lemma PhraseEnd(k: Config)
    requires k.parser.state == ResponseStatusMessage
    ensures Leads(k, "\r\n", Config(k.parser.(state := HeaderLineStart), k.message.(statusMessage := k.parser.buffer)))
  {
    hide StepHeaderSection, StepRequestLine, StepChunkLine, StepChunkData, Leads;
    LeadsTwo(k, '\r', '\n');
  }

  lemma StatusVersionRun(k: Config, a: string, b: string)
    requires k.parser.state == ResponseMajorVersionStart && IsNumber(a) && IsNumber(b)
    ensures Leads(k, a + "." + b + " ",
                  WithLine(k, ResponseStatusCodeStart,
                           k.message.(majorVersion := DecimalValue(a), minorVersion := DecimalValue(b))))
  {
    hide Step, Run, Leads, DecimalValue;
    var m1 := k.message.(majorVersion := DecimalValue(a));
    var m2 := m1.(minorVersion := DecimalValue(b));
    NumberRun(k, ResponseMajorVersion, a);
    StatusStep(WithLine(k, ResponseMajorVersion, m1), '.', ResponseMinorVersionStart);
    LeadsJoin(k, a, WithLine(k, ResponseMajorVersion, m1), ".", WithLine(k, ResponseMinorVersionStart, m1));
    NumberRun(WithLine(k, ResponseMinorVersionStart, m1), ResponseMinorVersion, b);
    LeadsJoin(k, a + ".", WithLine(k, ResponseMinorVersionStart, m1), b, WithLine(k, ResponseMinorVersion, m2));
    StatusStep(WithLine(k, ResponseMinorVersion, m2), ' ', ResponseStatusCodeStart);
    LeadsJoin(k, a + "." + b, WithLine(k, ResponseMinorVersion, m2), " ", WithLine(k, ResponseStatusCodeStart, m2));
  }

  /** The two version numbers and the status code. */
  lemma StatusNumbersRun(k: Config, a: string, b: string, c: string)
    requires k.parser.state == ResponseMajorVersionStart && IsNumber(a) && IsNumber(b) && IsNumber(c)
    ensures Leads(k, a + "." + b + " " + c + " ",
                  WithLine(k, ResponseStatusMessageStart,
                           k.message.(majorVersion := DecimalValue(a), minorVersion := DecimalValue(b),
                                      statusCode := DecimalValue(c))))
  {
    hide Step, Run, Leads, DecimalValue;
    var m2 := k.message.(majorVersion := DecimalValue(a), minorVersion := DecimalValue(b));
    var m3 := m2.(statusCode := DecimalValue(c));
    StatusVersionRun(k, a, b);
    NumberRun(WithLine(k, ResponseStatusCodeStart, m2), ResponseStatusCode, c);
    LeadsJoin(k, a + "." + b + " ", WithLine(k, ResponseStatusCodeStart, m2), c, WithLine(k, ResponseStatusCode, m3));
    StatusStep(WithLine(k, ResponseStatusCode, m3), ' ', ResponseStatusMessageStart);
    LeadsJoin(k, a + "." + b + " " + c, WithLine(k, ResponseStatusCode, m3), " ",
              WithLine(k, ResponseStatusMessageStart, m3));
  }

  lemma StatusFrontRun(h: StatusHead)
    requires IsNumber(h.major) && IsNumber(h.minor) && IsNumber(h.code)
    ensures Leads(RESPONSE_PARSER, StatusFront(h), Reading(ResponseStatusMessageStart, "", StatusNumbers(h)))
  {
    hide Step, Run, Leads, IsNumber, DecimalValue;
    var k := WithLine(RESPONSE_PARSER, ResponseMajorVersionStart, FRESH_MESSAGE);
    StatusProtocolRun(RESPONSE_PARSER);
    StatusNumbersRun(k, h.major, h.minor, h.code);
    LeadsJoin(RESPONSE_PARSER, "HTTP/", k, h.major + "." + h.minor + " " + h.code + " ",
              Reading(ResponseStatusMessageStart, "", StatusNumbers(h)));
  }

  /** Complete: every status line is read as what it says. */
  lemma StatusHeadRun(h: StatusHead)
    requires IsStatusHead(h)
    ensures Leads(RESPONSE_PARSER, StatusHeadText(h), Reading(HeaderLineStart, h.phrase, StatusHeadMeaning(h)))
  {
    hide Step, Run, Leads, IsNumber, DecimalValue, IsPhrase, StatusFront;
    var m0 := StatusNumbers(h);
    StatusFrontRun(h);
    PhraseRun(Reading(ResponseStatusMessageStart, "", m0), h.phrase);
    LeadsJoin(RESPONSE_PARSER, StatusFront(h), Reading(ResponseStatusMessageStart, "", m0), h.phrase,
              Reading(ResponseStatusMessage, h.phrase, m0));
    PhraseEnd(Reading(ResponseStatusMessage, h.phrase, m0));
    LeadsJoin(RESPONSE_PARSER, StatusFront(h) + h.phrase, Reading(ResponseStatusMessage, h.phrase, m0), "\r\n",
              Reading(HeaderLineStart, h.phrase, StatusHeadMeaning(h)));
  }

  /** The line end after an empty reason phrase is taken for its beginning. */
  lemma EmptyPhrase(h: StatusHead)
    requires IsNumber(h.major) && IsNumber(h.minor) && IsNumber(h.code) && h.phrase == ""
    ensures Leads(RESPONSE_PARSER, StatusHeadText(h), Reading(ResponseStatusMessage, "\r\n", StatusNumbers(h)))
  {
    hide Step, Run, Leads, IsNumber, DecimalValue, StatusFront;
    var m0 := StatusNumbers(h);
    StatusFrontRun(h);
    PhraseRun(Reading(ResponseStatusMessageStart, "", m0), "\r\n");
    LeadsJoin(RESPONSE_PARSER, StatusFront(h), Reading(ResponseStatusMessageStart, "", m0), "\r\n",
              Reading(ResponseStatusMessage, "\r\n", m0));
    assert StatusHeadText(h) == StatusFront(h) + "\r\n";
  }

  // ----- every request line that is accepted -----

  /** The digits read so far, which the numbers in the message do not keep. */
  datatype Digits = Digits(major: string, minor: string, code: string)

  const NO_DIGITS := Digits("", "", "")

  /** The bytes of a request line that have brought the parser to a state. */
  function RequestSoFar(d: Digits, s: ParserState, m: Message): string {
    var front := m.requestMethod + " " + m.uri;
    match s
    case Method => m.requestMethod
    case Uri => front
    case HttpVersionH => front + " "
    case HttpVersionT1 => front + " H"
    case HttpVersionT2 => front + " HT"
    case HttpVersionP => front + " HTT"
    case HttpVersionSlash => front + " HTTP"
    case HttpVersionMajorStart => front + " HTTP/"
    case HttpVersionMajor => front + " HTTP/" + d.major
    case HttpVersionMinorStart => front + " HTTP/" + d.major + "."
    case HttpVersionMinor => front + " HTTP/" + d.major + "." + d.minor
    case Newline1 => front + " HTTP/" + d.major + "." + d.minor + "\r"
    case _ => ""
  }

  predicate PastMajor(s: ParserState) {
    s == HttpVersionMinorStart || s == HttpVersionMinor || s == Newline1
  }

  /** `digits` spell `n`, if they have begun. */
  predicate Spells(digits: string, n: nat, begun: bool) {
    if begun then IsNumber(digits) && DecimalValue(digits) == n else n == 0
  }

  predicate RequestExplains(d: Digits, k: Config, w: string) {
    var s, m := k.parser.state, k.message;
    && IsRequestLine(s)
    && k.parser == REQUEST_RESET.(state := s)
    && w == RequestSoFar(d, s, m)
    && m == FRESH_MESSAGE.(requestMethod := m.requestMethod, uri := m.uri,
                          majorVersion := m.majorVersion, minorVersion := m.minorVersion)
    && (s == MethodStart <==> m.requestMethod == "") && IsToken(m.requestMethod)
    && (s == MethodStart || s == Method ==> m.uri == "") && IsTarget(m.uri)
    && Spells(d.major, m.majorVersion, s == HttpVersionMajor || PastMajor(s))
    && Spells(d.minor, m.minorVersion, s == HttpVersionMinor || s == Newline1)
  }

  function RequestDigits(d: Digits, s: ParserState, c: char): Digits {
    match s
    case HttpVersionMajorStart => d.(major := [c])
    case HttpVersionMajor => if c == '.' then d else d.(major := d.major + [c])
    case HttpVersionMinorStart => d.(minor := [c])
    case HttpVersionMinor => if c == '\r' then d else d.(minor := d.minor + [c])
    case _ => d
  }

  lemma DigitSpells(digits: string, n: nat, c: char)
    requires IsDigit(c)
    ensures Spells([c], DigitValue(c), true)
    ensures Spells(digits, n, true) ==> Spells(digits + [c], 10 * n + DigitValue(c), true)
  {
    assert [c][..0] == "";
    assert (digits + [c])[..|digits|] == digits;
  }

  lemma VersionDigitExplained(d: Digits, k: Config, w: string, c: char)
    requires RequestExplains(d, k, w) && Step(k, c).outcome == Incomplete && IsDigit(c)
    requires k.parser.state == HttpVersionMajorStart || k.parser.state == HttpVersionMajor
             || k.parser.state == HttpVersionMinorStart || k.parser.state == HttpVersionMinor
    ensures RequestExplains(RequestDigits(d, k.parser.state, c), Step(k, c).config, w + [c])
  {
    hide Step, Spells, DigitValue, IsToken, IsTarget;
    VersionDigit(k, c);
    DigitSpells(d.major, k.message.majorVersion, c);
    DigitSpells(d.minor, k.message.minorVersion, c);
    assert k.parser.state == HttpVersionMajor ==> Spells(d.major, k.message.majorVersion, true);
    assert k.parser.state == HttpVersionMinor ==> Spells(d.minor, k.message.minorVersion, true);
  }

  lemma MethodExplained(d: Digits, k: Config, w: string, c: char)
    requires RequestExplains(d, k, w) && Step(k, c).outcome == Incomplete
    requires k.parser.state == MethodStart || k.parser.state == Method || k.parser.state == Uri
    ensures RequestExplains(d, Step(k, c).config, w + [c])
  {
    hide StepHeaderSection, StepStatusLine, StepChunkLine, StepChunkData, Spells;
    assert k.parser.state == Method && c == ' ' ==> w + " " == k.message.requestMethod + " " + "";
    assert k.parser.state == Uri && c != ' ' ==>
        w + [c] == k.message.requestMethod + " " + (k.message.uri + [c]);
  }

  lemma ProtocolExplained(d: Digits, k: Config, w: string, c: char)
    requires RequestExplains(d, k, w) && Step(k, c).outcome == Incomplete && !IsDigit(c)
    requires k.parser.state != MethodStart && k.parser.state != Method && k.parser.state != Uri
    requires k.parser.state != HttpVersionMajor && !PastMajor(k.parser.state)
    ensures RequestExplains(d, Step(k, c).config, w + [c])
    ensures RequestDigits(d, k.parser.state, c) == d
  {
    hide StepHeaderSection, StepStatusLine, StepChunkLine, StepChunkData, IsToken, IsTarget, IsNumber, DecimalValue;
    var front := k.message.requestMethod + " " + k.message.uri;
    assert front + " " + "H" == front + " H";
    assert front + " H" + "T" == front + " HT";
    assert front + " HT" + "T" == front + " HTT";
    assert front + " HTT" + "P" == front + " HTTP";
    assert front + " HTTP" + "/" == front + " HTTP/";
  }

  lemma SeparatorExplained(d: Digits, k: Config, w: string, c: char)
    requires RequestExplains(d, k, w) && Step(k, c).outcome == Incomplete && !IsDigit(c)
    requires k.parser.state == HttpVersionMajor || PastMajor(k.parser.state)
    requires k.parser.state != Newline1
    ensures RequestExplains(d, Step(k, c).config, w + [c])
    ensures RequestDigits(d, k.parser.state, c) == d
  {
    hide StepHeaderSection, StepStatusLine, StepChunkLine, StepChunkData, IsToken, IsTarget, IsNumber, DecimalValue;
  }

  lemma RequestStepExplained(d: Digits, k: Config, w: string, c: char)
    requires RequestExplains(d, k, w) && Step(k, c).outcome == Incomplete && k.parser.state != Newline1
    ensures RequestExplains(RequestDigits(d, k.parser.state, c), Step(k, c).config, w + [c])
  {
    hide Step, RequestExplains;
    if k.parser.state == MethodStart || k.parser.state == Method || k.parser.state == Uri {
      MethodExplained(d, k, w, c);
    } else if IsDigit(c) {
      DigitsOnlyInVersion(d, k, w, c);
      VersionDigitExplained(d, k, w, c);
    } else if k.parser.state == HttpVersionMajor || PastMajor(k.parser.state) {
      SeparatorExplained(d, k, w, c);
    } else {
      ProtocolExplained(d, k, w, c);
    }
  }

  lemma DigitsOnlyInVersion(d: Digits, k: Config, w: string, c: char)
    requires RequestExplains(d, k, w) && Step(k, c).outcome == Incomplete && IsDigit(c)
    requires k.parser.state != MethodStart && k.parser.state != Method && k.parser.state != Uri
    ensures k.parser.state == HttpVersionMajorStart || k.parser.state == HttpVersionMajor
            || k.parser.state == HttpVersionMinorStart || k.parser.state == HttpVersionMinor
  {
    hide StepHeaderSection, StepStatusLine, StepChunkLine, StepChunkData, IsToken, IsTarget, Spells, RequestSoFar;
  }

  lemma KindStays(k: Config, c: char)
    requires Step(k, c).outcome == Incomplete
    ensures var s, s' := k.parser.state, Step(k, c).config.parser.state;
            && (IsRequestLine(s) ==> IsRequestLine(s') || (s == Newline1 && c == '\n'))
            && (IsStatusLine(s) ==> IsStatusLine(s') || (s == ResponseNewline && c == '\n'))
            && (s == Newline1 || s == ResponseNewline ==>
                  c == '\n' && Step(k, c).config == WithLine(k, HeaderLineStart, k.message))
  {
    hide StepHeaderSection, StepChunkLine, StepChunkData;
  }

  lemma FirstPart(s: ParserState)
    ensures Part(s) == 0 <==> IsRequestLine(s) || IsStatusLine(s)
    ensures !(IsRequestLine(s) && IsStatusLine(s))
  {}

  /** The intermediate states: whatever has been read of a request line is its beginning,
      and the message says what the beginning says. */
  lemma {:induction false} RequestLineSoFar(w: string, k: Config) returns (d: Digits)
    requires Leads(REQUEST_PARSER, w, k) && IsRequestLine(k.parser.state)
    ensures RequestExplains(d, k, w)
    decreases |w|
  {
    hide Step, Run, Leads, Part, RequestExplains;
    if w == "" {
      NothingLeads(REQUEST_PARSER, k);
      d := NO_DIGITS;
      assert RequestExplains(d, k, w) by { NoRequestYet(); }
    } else {
      var init, c := w[..|w| - 1], w[|w| - 1];
      assert w == init + [c];
      LeadsLast(REQUEST_PARSER, init, c, k);
      var before := Run(REQUEST_PARSER, init).config;
      PartGrows(before, c);
      PartBounds(before.parser.state);
      FirstPart(k.parser.state);
      FirstPart(before.parser.state);
      KindStays(before, c);
      var d0 := RequestLineSoFar(init, before);
      RequestStepExplained(d0, before, init, c);
      d := RequestDigits(d0, before.parser.state, c);
    }
  }

  lemma NoRequestYet()
    ensures RequestExplains(NO_DIGITS, REQUEST_PARSER, "")
  {}

  /** Sound: what takes the parser through the first line of a request is a request line,
      and the message is what it says. */
  lemma RequestLineIsHead(w: string, k: Config, c: char) returns (h: RequestHead)
    requires Leads(REQUEST_PARSER, w, k) && IsRequestLine(k.parser.state)
    requires Step(k, c).outcome == Incomplete && !IsRequestLine(Step(k, c).config.parser.state)
    ensures IsRequestHead(h) && w + [c] == RequestHeadText(h)
    ensures Step(k, c).config == WithLine(REQUEST_PARSER, HeaderLineStart, RequestHeadMeaning(h))
  {
    hide Step, Run, Leads, IsToken, IsTarget;
    var d := RequestLineSoFar(w, k);
    KindStays(k, c);
    h := RequestHead(k.message.requestMethod, k.message.uri, d.major, d.minor);
  }

  // ----- every status line that is accepted -----

  /** The bytes of a status line that have brought the parser to a state. */
  function StatusSoFar(d: Digits, s: ParserState, buffer: string): string {
    var version := "HTTP/" + d.major + "." + d.minor;
    match s
    case ResponseHttpT1 => "H"
    case ResponseHttpT2 => "HT"
    case ResponseHttpP => "HTT"
    case ResponseHttpSlash => "HTTP"
    case ResponseMajorVersionStart => "HTTP/"
    case ResponseMajorVersion => "HTTP/" + d.major
    case ResponseMinorVersionStart => "HTTP/" + d.major + "."
    case ResponseMinorVersion => version
    case ResponseStatusCodeStart => version + " "
    case ResponseStatusCode => version + " " + d.code
    case ResponseStatusMessageStart => version + " " + d.code + " "
    case ResponseStatusMessage => version + " " + d.code + " " + buffer
    case ResponseNewline => version + " " + d.code + " " + buffer + "\r"
    case _ => ""
  }

  /** How far a status line has come: 1 in the major version, 2 before the minor, up to
      7 in the reason phrase. */
  function StatusStage(s: ParserState): nat {
    match s
    case ResponseMajorVersion => 1
    case ResponseMinorVersionStart => 2
    case ResponseMinorVersion => 3
    case ResponseStatusCodeStart => 4
    case ResponseStatusCode => 5
    case ResponseStatusMessageStart => 6
    case ResponseStatusMessage => 7
    case ResponseNewline => 8
    case _ => 0
  }

  predicate StatusExplains(d: Digits, k: Config, w: string) {
    var s, m := k.parser.state, k.message;
    && IsStatusLine(s)
    && k.parser == RESPONSE_RESET.(state := s, buffer := k.parser.buffer)
    && w == StatusSoFar(d, s, k.parser.buffer)
    && m == FRESH_MESSAGE.(majorVersion := m.majorVersion, minorVersion := m.minorVersion,
                          statusCode := m.statusCode, statusMessage := m.statusMessage)
    && Spells(d.major, m.majorVersion, StatusStage(s) >= 1)
    && Spells(d.minor, m.minorVersion, StatusStage(s) >= 3)
    && Spells(d.code, m.statusCode, StatusStage(s) >= 5)
    && (if StatusStage(s) >= 7 then IsPhrase(k.parser.buffer) else k.parser.buffer == "")
    && m.statusMessage == (if s == ResponseNewline then k.parser.buffer else "")
  }

  function StatusDigits(d: Digits, s: ParserState, c: char): Digits {
    match s
    case ResponseMajorVersionStart => d.(major := [c])
    case ResponseMajorVersion => if c == '.' then d else d.(major := d.major + [c])
    case ResponseMinorVersionStart => d.(minor := [c])
    case ResponseMinorVersion => if c == ' ' then d else d.(minor := d.minor + [c])
    case ResponseStatusCodeStart => d.(code := [c])
    case ResponseStatusCode => if c == ' ' then d else d.(code := d.code + [c])
    case _ => d
  }

  /** The state in which a digit of a status line is read on. */
  function NumberState(s: ParserState): ParserState {
    match s
    case ResponseMajorVersionStart => ResponseMajorVersion
    case ResponseMinorVersionStart => ResponseMinorVersion
    case ResponseStatusCodeStart => ResponseStatusCode
    case _ => s
  }

  /** One more digit of the text of a status line. */
  lemma StatusDigitText(d: Digits, s: ParserState, buffer: string, c: char)
    requires s == ResponseMajorVersionStart || 1 <= StatusStage(s) <= 5
    ensures StatusSoFar(StatusDigits(d, s, c), NumberState(s), buffer)
         == StatusSoFar(d, s, buffer) + [c] || !IsDigit(c)
  {
    if IsDigit(c) {
      var version := "HTTP/" + d.major + ".";
      match s {
        case ResponseMajorVersion => assert "HTTP/" + (d.major + [c]) == "HTTP/" + d.major + [c];
        case ResponseMinorVersion => assert version + (d.minor + [c]) == version + d.minor + [c];
        case ResponseStatusCode =>
          assert version + d.minor + " " + (d.code + [c]) == version + d.minor + " " + d.code + [c];
        case _ =>
      }
    }
  }

  lemma StatusMajorExplained(d: Digits, k: Config, w: string, c: char)
    requires StatusExplains(d, k, w) && Step(k, c).outcome == Incomplete && IsDigit(c)
    requires k.parser.state == ResponseMajorVersionStart || k.parser.state == ResponseMajorVersion
    ensures StatusExplains(StatusDigits(d, k.parser.state, c), Step(k, c).config, w + [c])
  {
    hide Step, Spells, DigitValue, IsPhrase, StatusSoFar;
    MajorDigit(k, c);
    StatusDigitText(d, k.parser.state, k.parser.buffer, c);
    DigitSpells(d.major, k.message.majorVersion, c);
  }

  lemma StatusMinorExplained(d: Digits, k: Config, w: string, c: char)
    requires StatusExplains(d, k, w) && Step(k, c).outcome == Incomplete && IsDigit(c)
    requires k.parser.state == ResponseMinorVersionStart || k.parser.state == ResponseMinorVersion
    ensures StatusExplains(StatusDigits(d, k.parser.state, c), Step(k, c).config, w + [c])
  {
    hide Step, Spells, DigitValue, IsPhrase, StatusSoFar;
    MinorDigit(k, c);
    StatusDigitText(d, k.parser.state, k.parser.buffer, c);
    DigitSpells(d.minor, k.message.minorVersion, c);
  }

  lemma StatusCodeExplained(d: Digits, k: Config, w: string, c: char)
    requires StatusExplains(d, k, w) && Step(k, c).outcome == Incomplete && IsDigit(c)
    requires k.parser.state == ResponseStatusCodeStart || k.parser.state == ResponseStatusCode
    ensures StatusExplains(StatusDigits(d, k.parser.state, c), Step(k, c).config, w + [c])
  {
    hide Step, Spells, DigitValue, IsPhrase, StatusSoFar;
    CodeDigit(k, c);
    StatusDigitText(d, k.parser.state, k.parser.buffer, c);
    DigitSpells(d.code, k.message.statusCode, c);
  }

  lemma PhraseGrows(phrase: string, c: char)
    requires IsChar(c)
    ensures IsPhrase([c])
    ensures IsPhrase(phrase) && c != '\r' ==> IsPhrase(phrase + [c])
  {
    if IsPhrase(phrase) && c != '\r' {
      assert (phrase + [c])[1..] == phrase[1..] + [c];
    }
  }

  lemma PhraseExplained(d: Digits, k: Config, w: string, c: char)
    requires StatusExplains(d, k, w) && Step(k, c).outcome == Incomplete
    requires k.parser.state == ResponseStatusMessageStart || k.parser.state == ResponseStatusMessage
    ensures StatusExplains(d, Step(k, c).config, w + [c])
  {
    hide StepHeaderSection, StepRequestLine, StepChunkLine, StepChunkData, Spells, IsPhrase;
    PhraseCharacter(k, c);
    PhraseGrows(k.parser.buffer, c);
    var front := "HTTP/" + d.major + "." + d.minor + " " + d.code + " ";
    assert front + (k.parser.buffer + [c]) == front + k.parser.buffer + [c];
  }

  lemma PhraseCharacter(k: Config, c: char)
    requires Step(k, c).outcome == Incomplete
    requires k.parser.state == ResponseStatusMessageStart || k.parser.state == ResponseStatusMessage
    ensures IsChar(c)
  {
    hide StepHeaderSection, StepRequestLine, StepChunkLine, StepChunkData;
  }

  lemma StatusProtocolExplained(d: Digits, k: Config, w: string, c: char)
    requires StatusExplains(d, k, w) && Step(k, c).outcome == Incomplete && !IsDigit(c)
    requires StatusStage(k.parser.state) == 0
    ensures StatusExplains(d, Step(k, c).config, w + [c])
  {
    hide StepHeaderSection, StepRequestLine, StepChunkLine, StepChunkData, Spells, IsPhrase;
    assert "H" + "T" == "HT" && "HT" + "T" == "HTT" && "HTT" + "P" == "HTTP" && "HTTP" + "/" == "HTTP/";
  }

  lemma StatusSeparatorExplained(d: Digits, k: Config, w: string, c: char)
    requires StatusExplains(d, k, w) && Step(k, c).outcome == Incomplete && !IsDigit(c)
    requires 1 <= StatusStage(k.parser.state) <= 5
    ensures StatusExplains(d, Step(k, c).config, w + [c])
  {
    hide StepHeaderSection, StepRequestLine, StepChunkLine, StepChunkData, IsNumber, DecimalValue, IsPhrase;
  }

  lemma SeparatorsAreNoDigits(d: Digits, k: Config, w: string, c: char)
    requires StatusExplains(d, k, w) && Step(k, c).outcome == Incomplete && !IsDigit(c)
    requires StatusStage(k.parser.state) <= 5
    ensures StatusDigits(d, k.parser.state, c) == d
  {
    hide StepHeaderSection, StepRequestLine, StepChunkLine, StepChunkData, Spells, StatusSoFar, IsPhrase;
  }

  lemma StatusStepExplained(d: Digits, k: Config, w: string, c: char)
    requires StatusExplains(d, k, w) && Step(k, c).outcome == Incomplete && k.parser.state != ResponseNewline
    ensures StatusExplains(StatusDigits(d, k.parser.state, c), Step(k, c).config, w + [c])
  {
    hide Step, StatusExplains;
    StagesOf(d, k, w);
    if k.parser.state == ResponseStatusMessageStart || k.parser.state == ResponseStatusMessage {
      PhraseExplained(d, k, w, c);
    } else if IsDigit(c) {
      DigitsOnlyInNumbers(d, k, w, c);
      match k.parser.state {
        case ResponseMinorVersionStart => StatusMinorExplained(d, k, w, c);
        case ResponseMinorVersion => StatusMinorExplained(d, k, w, c);
        case ResponseStatusCodeStart => StatusCodeExplained(d, k, w, c);
        case ResponseStatusCode => StatusCodeExplained(d, k, w, c);
        case _ => StatusMajorExplained(d, k, w, c);
      }
    } else {
      SeparatorsAreNoDigits(d, k, w, c);
      if StatusStage(k.parser.state) == 0 {
        StatusProtocolExplained(d, k, w, c);
      } else {
        StatusSeparatorExplained(d, k, w, c);
      }
    }
  }

  lemma StagesOf(d: Digits, k: Config, w: string)
    requires StatusExplains(d, k, w)
    ensures IsStatusLine(k.parser.state)
  {}

  lemma DigitsOnlyInNumbers(d: Digits, k: Config, w: string, c: char)
    requires StatusExplains(d, k, w) && Step(k, c).outcome == Incomplete && IsDigit(c)
    requires StatusStage(k.parser.state) <= 5
    ensures k.parser.state == ResponseMajorVersionStart || 1 <= StatusStage(k.parser.state) <= 5
  {
    hide StepHeaderSection, StepRequestLine, StepChunkLine, StepChunkData, Spells, StatusSoFar, IsPhrase;
  }

  /** The intermediate states of a status line. */
  lemma {:induction false} StatusLineSoFar(w: string, k: Config) returns (d: Digits)
    requires Leads(RESPONSE_PARSER, w, k) && IsStatusLine(k.parser.state)
    ensures StatusExplains(d, k, w)
    decreases |w|
  {
    hide Step, Run, Leads, Part, StatusExplains;
    if w == "" {
      NothingLeads(RESPONSE_PARSER, k);
      d := NO_DIGITS;
      assert StatusExplains(d, k, w) by { NoStatusYet(); }
    } else {
      var init, c := w[..|w| - 1], w[|w| - 1];
      assert w == init + [c];
      LeadsLast(RESPONSE_PARSER, init, c, k);
      var before := Run(RESPONSE_PARSER, init).config;
      PartGrows(before, c);
      PartBounds(before.parser.state);
      FirstPart(k.parser.state);
      FirstPart(before.parser.state);
      KindStays(before, c);
      var d0 := StatusLineSoFar(init, before);
      StatusStepExplained(d0, before, init, c);
      d := StatusDigits(d0, before.parser.state, c);
    }
  }

  lemma NoStatusYet()
    ensures StatusExplains(NO_DIGITS, RESPONSE_PARSER, "")
  {}

  /** Sound: what takes the parser through the first line of a response is a status line,
      and the message is what it says. */
  lemma StatusLineIsHead(w: string, k: Config, c: char) returns (h: StatusHead)
    requires Leads(RESPONSE_PARSER, w, k) && IsStatusLine(k.parser.state)
    requires Step(k, c).outcome == Incomplete && !IsStatusLine(Step(k, c).config.parser.state)
    ensures IsStatusHead(h) && w + [c] == StatusHeadText(h)
    ensures Step(k, c).config == Reading(HeaderLineStart, h.phrase, StatusHeadMeaning(h))
  {
    hide Step, Run, Leads, IsPhrase;
    var d := StatusLineSoFar(w, k);
    KindStays(k, c);
    h := StatusHead(d.major, d.minor, d.code, k.parser.buffer);
    assert w + [c] == "HTTP/" + (d.major + "." + d.minor + " " + d.code + " ") + k.parser.buffer + "\r\n";
  }
}
