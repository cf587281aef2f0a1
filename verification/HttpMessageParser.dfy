/** The incremental parser of HTTP/1.x messages: one byte moves an automaton of
    named states. `Step` is the meaning of one byte; the class holds the parser's
    mutable fields and `Consume` updates them and the message in place. */
module Parser {
  import opened Bytes
  import opened Text
  import opened HeaderFields
  import opened Messages

  datatype ParsePhase = Start | ReceivedMessageLine | ReceivedHeaders | ReceivedBody | ReceivedFullMessage

  /** What consuming a byte says about the message. `Fatal` stands for the calls
      that abort the process. */
  datatype Outcome = Incomplete | Valid | Invalid | Fatal

  datatype ParserState =
    // request line
    | MethodStart | Method | Uri
    | HttpVersionH | HttpVersionT1 | HttpVersionT2 | HttpVersionP | HttpVersionSlash
    | HttpVersionMajorStart | HttpVersionMajor | HttpVersionMinorStart | HttpVersionMinor
    | Newline1
    // status line
    | ResponseStart | ResponseHttpT1 | ResponseHttpT2 | ResponseHttpP | ResponseHttpSlash
    | ResponseMajorVersionStart | ResponseMajorVersion
    | ResponseMinorVersionStart | ResponseMinorVersion
    | ResponseStatusCodeStart | ResponseStatusCode
    | ResponseStatusMessageStart | ResponseStatusMessage | ResponseNewline
    // headers
    | HeaderLineStart | HeaderLws | HeaderName | HeaderSpace | HeaderValue | Newline2 | Newline3
    // chunked bodies
    | ChunkLengthStart | ChunkLength | ChunkExtension | ChunkLengthNewline
    | Chunk | ChunkTrailingNewline
    | ChunkTrailingHeaderLineStart | ChunkTrailingHeaderLws | ChunkTrailingHeaderName
    | ChunkTrailingHeaderSpace | ChunkTrailingHeaderValue | ChunkTerminatingNewline
    // bodies of a declared length
    | FixedLengthEntity

  datatype ParserData = ParserData(state: ParserState, remaining: UInt64, buffer: string, valueBuffer: string)

  const REQUEST_RESET := ParserData(MethodStart, 0, "", "")
  const RESPONSE_RESET := ParserData(ResponseStart, 0, "", "")

  /** A parser together with the message it is filling in. */
  datatype Config = Config(parser: ParserData, message: Message)

  datatype StepResult = StepResult(outcome: Outcome, config: Config)

  predicate IsRequestLine(s: ParserState) {
    || s.MethodStart? || s.Method? || s.Uri?
    || s.HttpVersionH? || s.HttpVersionT1? || s.HttpVersionT2? || s.HttpVersionP? || s.HttpVersionSlash?
    || s.HttpVersionMajorStart? || s.HttpVersionMajor? || s.HttpVersionMinorStart? || s.HttpVersionMinor?
    || s.Newline1?
  }

  predicate IsStatusLine(s: ParserState) {
    || s.ResponseStart? || s.ResponseHttpT1? || s.ResponseHttpT2? || s.ResponseHttpP? || s.ResponseHttpSlash?
    || s.ResponseMajorVersionStart? || s.ResponseMajorVersion?
    || s.ResponseMinorVersionStart? || s.ResponseMinorVersion?
    || s.ResponseStatusCodeStart? || s.ResponseStatusCode?
    || s.ResponseStatusMessageStart? || s.ResponseStatusMessage? || s.ResponseNewline?
  }

  predicate IsHeaderSection(s: ParserState) {
    || s.HeaderLineStart? || s.HeaderLws? || s.HeaderName? || s.HeaderSpace? || s.HeaderValue?
    || s.Newline2? || s.Newline3?
  }

  predicate IsChunkLine(s: ParserState) {
    s.ChunkLengthStart? || s.ChunkLength? || s.ChunkLengthNewline?
  }

  predicate IsChunkData(s: ParserState) {
    || s.Chunk? || s.ChunkTrailingNewline?
    || s.ChunkTrailingHeaderLineStart? || s.ChunkTerminatingNewline?
  }

  /** How the body is delimited, as decided at the end of the header section. */
  datatype Framing = Chunked | Fixed(length: UInt64) | NoBody | BadLength

  /** The framing that a list of transfer encodings and a list of content lengths,
      each newest first, call for. */
  function FramingFrom(encodings: seq<string>, lengths: seq<string>): (f: Framing)
    ensures f.Fixed? ==> f.length > 0
  {
    if AnyHasToken(encodings, "chunked") then Chunked
    else if lengths == [] then NoBody
    else
      match ToUInt64(lengths[0])
      case None => BadLength
      case Some(n) => if n == 0 then NoBody else Fixed(n)
  }

  function FramingOf(h: HeaderData): (f: Framing)
    ensures f.Fixed? ==> f.length > 0
  {
    FramingFrom(Find(h, Spelling(TransferEncoding)), Find(h, Spelling(ContentLength)))
  }

  // ----- one byte -----

  function Go(k: Config, s: ParserState): StepResult {
    StepResult(Incomplete, k.(parser := k.parser.(state := s)))
  }

  function Stop(k: Config, outcome: Outcome): StepResult {
    StepResult(outcome, k)
  }

  function Expect(k: Config, c: char, wanted: char, next: ParserState): StepResult {
    if c == wanted then Go(k, next) else Stop(k, Invalid)
  }

  function Buffered(k: Config, buffer: string): Config {
    k.(parser := k.parser.(buffer := buffer))
  }

  function ValueBuffered(k: Config, buffer: string): Config {
    k.(parser := k.parser.(valueBuffer := buffer))
  }

  function Counting(k: Config, remaining: UInt64): Config {
    k.(parser := k.parser.(remaining := remaining))
  }

  function Filled(k: Config, message: Message): Config {
    k.(message := message)
  }

  function StepRequestLine(k: Config, c: char): StepResult
    requires IsRequestLine(k.parser.state)
  {
    var m := k.message;
    match k.parser.state
    case MethodStart =>
      if !IsTokenChar(c) then Stop(k, Invalid)
      else Go(Filled(k, m.(requestMethod := m.requestMethod + [c])), Method)
    case Method =>
      if c == ' ' then Go(k, Uri)
      else if !IsTokenChar(c) then Stop(k, Invalid)
      else Stop(Filled(k, m.(requestMethod := m.requestMethod + [c])), Incomplete)
    case Uri =>
      if c == ' ' then Go(k, HttpVersionH)
      else if IsCtl(c) then Stop(k, Invalid)
      else Stop(Filled(k, m.(uri := m.uri + [c])), Incomplete)
    case HttpVersionH => Expect(k, c, 'H', HttpVersionT1)
    case HttpVersionT1 => Expect(k, c, 'T', HttpVersionT2)
    case HttpVersionT2 => Expect(k, c, 'T', HttpVersionP)
    case HttpVersionP => Expect(k, c, 'P', HttpVersionSlash)
    case HttpVersionSlash =>
      if c == '/' then Go(Filled(k, m.(majorVersion := 0, minorVersion := 0)), HttpVersionMajorStart)
      else Stop(k, Invalid)
    case HttpVersionMajorStart =>
      if IsDigit(c) then Go(Filled(k, m.(majorVersion := DigitValue(c))), HttpVersionMajor)
      else Stop(k, Invalid)
    case HttpVersionMajor =>
      if c == '.' then Go(k, HttpVersionMinorStart)
      else if IsDigit(c) then Stop(Filled(k, m.(majorVersion := 10 * m.majorVersion + DigitValue(c))), Incomplete)
      else Stop(k, Invalid)
    case HttpVersionMinorStart =>
      if IsDigit(c) then Go(Filled(k, m.(minorVersion := DigitValue(c))), HttpVersionMinor)
      else Stop(k, Invalid)
    case HttpVersionMinor =>
      if c == '\r' then Go(k, Newline1)
      else if IsDigit(c) then Stop(Filled(k, m.(minorVersion := 10 * m.minorVersion + DigitValue(c))), Incomplete)
      else Stop(k, Invalid)
    case Newline1 => Expect(k, c, '\n', HeaderLineStart)
  }

  function StepStatusLine(k: Config, c: char): StepResult
    requires IsStatusLine(k.parser.state)
  {
    var m := k.message;
    match k.parser.state
    case ResponseStart => Expect(k, c, 'H', ResponseHttpT1)
    case ResponseHttpT1 => Expect(k, c, 'T', ResponseHttpT2)
    case ResponseHttpT2 => Expect(k, c, 'T', ResponseHttpP)
    case ResponseHttpP => Expect(k, c, 'P', ResponseHttpSlash)
    case ResponseHttpSlash => Expect(k, c, '/', ResponseMajorVersionStart)
    case ResponseMajorVersionStart =>
      if IsDigit(c) then Go(Filled(k, m.(majorVersion := DigitValue(c))), ResponseMajorVersion)
      else Stop(k, Invalid)
    case ResponseMajorVersion =>
      if c == '.' then Go(k, ResponseMinorVersionStart)
      else if IsDigit(c) then Stop(Filled(k, m.(majorVersion := 10 * m.majorVersion + DigitValue(c))), Incomplete)
      else Stop(k, Invalid)
    case ResponseMinorVersionStart =>
      if IsDigit(c) then Go(Filled(k, m.(minorVersion := DigitValue(c))), ResponseMinorVersion)
      else Stop(k, Invalid)
    case ResponseMinorVersion =>
      if c == ' ' then Go(k, ResponseStatusCodeStart)
      else if IsDigit(c) then Stop(Filled(k, m.(minorVersion := 10 * m.minorVersion + DigitValue(c))), Incomplete)
      else Stop(k, Invalid)
    case ResponseStatusCodeStart =>
      if IsDigit(c) then Go(Filled(k, m.(statusCode := DigitValue(c))), ResponseStatusCode)
      else Stop(k, Invalid)
    case ResponseStatusCode =>
      if c == ' ' then Go(k, ResponseStatusMessageStart)
      else if IsDigit(c) then Stop(Filled(k, m.(statusCode := 10 * m.statusCode + DigitValue(c))), Incomplete)
      else Stop(k, Invalid)
    case ResponseStatusMessageStart =>
      if IsChar(c) then Go(Buffered(k, [c]), ResponseStatusMessage)
      else Stop(k, Invalid)
    case ResponseStatusMessage =>
      if c == '\r' then Go(Filled(k, m.(statusMessage := k.parser.buffer)), ResponseNewline)
      else if IsChar(c) then Stop(Buffered(k, k.parser.buffer + [c]), Incomplete)
      else Stop(k, Invalid)
    case ResponseNewline => Expect(k, c, '\n', HeaderLineStart)
  }

  function StepHeaderSection(k: Config, c: char): StepResult
    requires IsHeaderSection(k.parser.state)
  {
    var m := k.message;
    match k.parser.state
    case HeaderLineStart =>
      if c == '\r' then Go(k, Newline3)
      else if m.headers.values != map[] && (c == ' ' || c == '\t') then Go(k, HeaderLws)
      else if !IsTokenChar(c) then Stop(k, Invalid)
      else Go(Buffered(k, [c]), HeaderName)
    case HeaderLws =>
      if c == '\r' then Go(k, Newline2)
      else if c == ' ' || c == '\t' then Stop(k, Incomplete)
      else if IsCtl(c) then Stop(k, Invalid)
      else Go(k, HeaderValue)
    case HeaderName =>
      if c == ':' then Go(k, HeaderSpace)
      else if !IsTokenChar(c) then Stop(k, Invalid)
      else Stop(Buffered(k, k.parser.buffer + [c]), Incomplete)
    case HeaderSpace =>
      if c == ' ' then Go(ValueBuffered(k, ""), HeaderValue) else Stop(k, Invalid)
    case HeaderValue =>
      if c == '\r' then
        Go(Filled(Buffered(ValueBuffered(k, ""), ""),
                  m.(headers := Inserted(m.headers, k.parser.buffer, k.parser.valueBuffer))),
           Newline2)
      else if !IsCtl(c) then Stop(ValueBuffered(k, k.parser.valueBuffer + [c]), Incomplete)
      else Stop(k, Invalid)
    case Newline2 => Expect(k, c, '\n', HeaderLineStart)
    case Newline3 => if c == '\n' then BeginBody(k) else Stop(k, Invalid)
  }

  /** The choice made on the line feed of the blank line. */
  function BeginBody(k: Config): StepResult {
    var empty := Filled(k, k.message.(body := ""));
    match FramingOf(k.message.headers)
    case Chunked => Go(empty, ChunkLengthStart)
    case Fixed(n) => Go(Counting(empty, n), FixedLengthEntity)
    case NoBody => Stop(k, Valid)
    case BadLength => Stop(k, Invalid)
  }

  function Decrement(n: UInt64): UInt64 {
    if n == 0 then TWO_TO_THE_64 - 1 else n - 1
  }

  /** One more hexadecimal digit of a chunk length, kept in 64 bits. */
  function ShiftIn(n: UInt64, digit: nat): UInt64 {
    (n * 16 + digit) % TWO_TO_THE_64
  }

  /** A byte of the line that gives a chunk's length. */
  function StepChunkLine(k: Config, c: char): StepResult
    requires IsChunkLine(k.parser.state)
  {
    var remaining := k.parser.remaining;
    match k.parser.state
    case ChunkLengthStart =>
      if IsHex(c) then Go(Counting(k, HexDigitValue(c)), ChunkLength) else Stop(k, Invalid)
    case ChunkLength =>
      if c == '\r' then Go(k, ChunkLengthNewline)
      else if IsHex(c) then Stop(Counting(k, ShiftIn(remaining, HexDigitValue(c))), Incomplete)
      else if c == ';' then Stop(k, Fatal)
      else Stop(k, Invalid)
    case ChunkLengthNewline =>
      if c != '\n' then Stop(k, Invalid)
      else Go(k, if remaining > 0 then Chunk else ChunkTrailingHeaderLineStart)
  }

  /** A byte of a chunk's data, or of what ends the chunk or the body. */
  function StepChunkData(k: Config, c: char): StepResult
    requires IsChunkData(k.parser.state)
  {
    var m, remaining := k.message, k.parser.remaining;
    match k.parser.state
    case Chunk =>
      if remaining == 0 then Expect(k, c, '\r', ChunkTrailingNewline)
      else Stop(Counting(Filled(k, m.(body := m.body + [c])), remaining - 1), Incomplete)
    case ChunkTrailingNewline => Expect(k, c, '\n', ChunkLengthStart)
    case ChunkTrailingHeaderLineStart =>
      if c == '\r' then Go(k, ChunkTerminatingNewline) else Stop(k, Fatal)
    case ChunkTerminatingNewline => Stop(k, if c == '\n' then Valid else Invalid)
  }

  /** A byte of a body of declared length; every other state is unimplemented. */
  function StepFixedLength(k: Config, c: char): StepResult {
    if k.parser.state != FixedLengthEntity then Stop(k, Fatal)
    else
      var remaining := Decrement(k.parser.remaining);
      Stop(Counting(Filled(k, k.message.(body := k.message.body + [c])), remaining),
           if remaining == 0 then Valid else Incomplete)
  }

  /** The meaning of one byte. */
  function Step(k: Config, c: char): StepResult {
    var s := k.parser.state;
    if IsRequestLine(s) then StepRequestLine(k, c)
    else if IsStatusLine(s) then StepStatusLine(k, c)
    else if IsHeaderSection(s) then StepHeaderSection(k, c)
    else if IsChunkLine(s) then StepChunkLine(k, c)
    else if IsChunkData(s) then StepChunkData(k, c)
    else StepFixedLength(k, c)
  }

  /** The coarse phase after a change of state. */
  function PhaseForTransition(phase: ParsePhase, oldState: ParserState, newState: ParserState): ParsePhase {
    if oldState == newState then phase
    else
      match newState
      case HeaderLineStart => if phase == Start then ReceivedMessageLine else phase
      case ChunkLengthStart => if phase == ReceivedMessageLine then ReceivedHeaders else phase
      case FixedLengthEntity => if phase == ReceivedMessageLine then ReceivedHeaders else phase
      case _ => phase
  }

  function Moved(phase: Option<ParsePhase>, oldState: ParserState, newState: ParserState): Option<ParsePhase> {
    match phase
    case None => None
    case Some(p) => Some(PhaseForTransition(p, oldState, newState))
  }

  /** The phase, when one is being tracked, after a step from `before` to `after`. */
  function Tracked(phase: Option<ParsePhase>, before: Config, after: Config): Option<ParsePhase> {
    Moved(phase, before.parser.state, after.parser.state)
  }

  // ----- parsing a buffer, pausing when the phase changes -----

  datatype ParseResult = ParseResult(outcome: Outcome, config: Config, phase: Option<ParsePhase>, consumed: nat)

  function ParseFrom(k: Config, phase: Option<ParsePhase>, starting: ParsePhase, input: string): (r: ParseResult)
    ensures r.consumed <= |input|
    ensures r.phase.Some? <==> phase.Some?
    ensures phase == Some(starting) && r.phase != phase ==> r.consumed > 0
    decreases |input|
  {
    if input == "" then ParseResult(Incomplete, k, phase, 0)
    else
      var s := Step(k, input[0]);
      var phase' := Tracked(phase, k, s.config);
      if s.outcome != Incomplete then
        ParseResult(s.outcome, s.config,
                    if s.outcome == Valid && phase.Some? then Some(ReceivedFullMessage) else phase', 1)
      else if phase'.Some? && phase'.value != starting then
        ParseResult(Incomplete, s.config, phase', 1)
      else
        var r := ParseFrom(s.config, phase', starting, input[1..]);
        r.(consumed := r.consumed + 1)
  }

  /** One call of `parse`. */
  function Parsed(k: Config, phase: Option<ParsePhase>, input: string): ParseResult {
    ParseFrom(k, phase, if phase.Some? then phase.value else Start, input)
  }

  class HttpMessageParser {
    var state_: ParserState
    var remaining_: UInt64
    var buffer_: string
    var value_buffer_: string

    function Data(): ParserData
      reads this
    {
      ParserData(state_, remaining_, buffer_, value_buffer_)
    }

    function View(message: HttpMessage): Config
      reads this, message, message.headers_
    {
      Config(Data(), message.Data())
    }

    constructor ()
      ensures Data() == REQUEST_RESET
    {
      state_, remaining_, buffer_, value_buffer_ := MethodStart, 0, "", "";
    }

    method ResetForRequest()
      modifies this
      ensures Data() == REQUEST_RESET
    {
      state_, remaining_, buffer_, value_buffer_ := MethodStart, 0, "", "";
    }

    method ResetForResponse()
      modifies this
      ensures Data() == RESPONSE_RESET
    {
      state_, remaining_, buffer_, value_buffer_ := ResponseStart, 0, "", "";
    }

    method ConsumeRequestLine(message: HttpMessage, input: char, phase: Option<ParsePhase>)
      returns (outcome: Outcome, phase': Option<ParsePhase>)
      requires IsRequestLine(state_)
      modifies this`state_, message`method_, message`uri_, message`major_version_, message`minor_version_
      ensures StepResult(outcome, View(message)) == StepRequestLine(old(View(message)), input)
      ensures phase' == Tracked(phase, old(View(message)), View(message))
    {
      phase' := phase;
      match state_ {
        case MethodStart =>
          if !IsChar(input) || IsCtl(input) || IsTSpecial(input) {
            return Invalid, phase';
          }
          phase', state_ := Moved(phase, state_, Method), Method;
          message.method_ := message.method_ + [input];
          return Incomplete, phase';
        case Method =>
          if input == ' ' {
            phase', state_ := Moved(phase, state_, Uri), Uri;
            return Incomplete, phase';
          } else if !IsChar(input) || IsCtl(input) || IsTSpecial(input) {
            return Invalid, phase';
          } else {
            message.method_ := message.method_ + [input];
            return Incomplete, phase';
          }
        case Uri =>
          if input == ' ' {
            phase', state_ := Moved(phase, state_, HttpVersionH), HttpVersionH;
            return Incomplete, phase';
          } else if IsCtl(input) {
            return Invalid, phase';
          } else {
            message.uri_ := message.uri_ + [input];
            return Incomplete, phase';
          }
        case HttpVersionH =>
          if input == 'H' {
            phase', state_ := Moved(phase, state_, HttpVersionT1), HttpVersionT1;
            return Incomplete, phase';
          }
          return Invalid, phase';
        case HttpVersionT1 =>
          if input == 'T' {
            phase', state_ := Moved(phase, state_, HttpVersionT2), HttpVersionT2;
            return Incomplete, phase';
          }
          return Invalid, phase';
        case HttpVersionT2 =>
          if input == 'T' {
            phase', state_ := Moved(phase, state_, HttpVersionP), HttpVersionP;
            return Incomplete, phase';
          }
          return Invalid, phase';
        case HttpVersionP =>
          if input == 'P' {
            phase', state_ := Moved(phase, state_, HttpVersionSlash), HttpVersionSlash;
            return Incomplete, phase';
          }
          return Invalid, phase';
        case HttpVersionSlash =>
          if input == '/' {
            phase', state_ := Moved(phase, state_, HttpVersionMajorStart), HttpVersionMajorStart;
            message.major_version_ := 0;
            message.minor_version_ := 0;
            return Incomplete, phase';
          }
          return Invalid, phase';
        case HttpVersionMajorStart =>
          if IsDigit(input) {
            phase', state_ := Moved(phase, state_, HttpVersionMajor), HttpVersionMajor;
            message.major_version_ := DigitValue(input);
            return Incomplete, phase';
          }
          return Invalid, phase';
        case HttpVersionMajor =>
          if input == '.' {
            phase', state_ := Moved(phase, state_, HttpVersionMinorStart), HttpVersionMinorStart;
            return Incomplete, phase';
          } else if IsDigit(input) {
            message.major_version_ := message.major_version_ * 10;
            message.major_version_ := message.major_version_ + DigitValue(input);
            return Incomplete, phase';
          }
          return Invalid, phase';
        case HttpVersionMinorStart =>
          if IsDigit(input) {
            phase', state_ := Moved(phase, state_, HttpVersionMinor), HttpVersionMinor;
            message.minor_version_ := DigitValue(input);
            return Incomplete, phase';
          }
          return Invalid, phase';
        case HttpVersionMinor =>
          if input == '\r' {
            phase', state_ := Moved(phase, state_, Newline1), Newline1;
            return Incomplete, phase';
          } else if IsDigit(input) {
            message.minor_version_ := message.minor_version_ * 10;
            message.minor_version_ := message.minor_version_ + DigitValue(input);
            return Incomplete, phase';
          }
          return Invalid, phase';
        case Newline1 =>
          if input == '\n' {
            phase', state_ := Moved(phase, state_, HeaderLineStart), HeaderLineStart;
            return Incomplete, phase';
          }
          return Invalid, phase';
      }
    }

    method ConsumeStatusLine(message: HttpMessage, input: char, phase: Option<ParsePhase>)
      returns (outcome: Outcome, phase': Option<ParsePhase>)
      requires IsStatusLine(state_)
      modifies this`state_, this`buffer_, message`status_code_, message`status_message_,
               message`major_version_, message`minor_version_
      ensures StepResult(outcome, View(message)) == StepStatusLine(old(View(message)), input)
      ensures phase' == Tracked(phase, old(View(message)), View(message))
    {
      phase' := phase;
      match state_ {
        case ResponseStart =>
          if input == 'H' {
            phase', state_ := Moved(phase, state_, ResponseHttpT1), ResponseHttpT1;
            return Incomplete, phase';
          }
          return Invalid, phase';
        case ResponseHttpT1 =>
          if input == 'T' {
            phase', state_ := Moved(phase, state_, ResponseHttpT2), ResponseHttpT2;
            return Incomplete, phase';
          }
          return Invalid, phase';
        case ResponseHttpT2 =>
          if input == 'T' {
            phase', state_ := Moved(phase, state_, ResponseHttpP), ResponseHttpP;
            return Incomplete, phase';
          }
          return Invalid, phase';
        case ResponseHttpP =>
          if input == 'P' {
            phase', state_ := Moved(phase, state_, ResponseHttpSlash), ResponseHttpSlash;
            return Incomplete, phase';
          }
          return Invalid, phase';
        case ResponseHttpSlash =>
          if input == '/' {
            phase', state_ := Moved(phase, state_, ResponseMajorVersionStart), ResponseMajorVersionStart;
            return Incomplete, phase';
          }
          return Invalid, phase';
        case ResponseMajorVersionStart =>
          if IsDigit(input) {
            phase', state_ := Moved(phase, state_, ResponseMajorVersion), ResponseMajorVersion;
            message.major_version_ := DigitValue(input);
            return Incomplete, phase';
          }
          return Invalid, phase';
        case ResponseMajorVersion =>
          if input == '.' {
            phase', state_ := Moved(phase, state_, ResponseMinorVersionStart), ResponseMinorVersionStart;
            return Incomplete, phase';
          } else if IsDigit(input) {
            message.major_version_ := message.major_version_ * 10 + DigitValue(input);
            return Incomplete, phase';
          }
          return Invalid, phase';
        case ResponseMinorVersionStart =>
          if IsDigit(input) {
            phase', state_ := Moved(phase, state_, ResponseMinorVersion), ResponseMinorVersion;
            message.minor_version_ := DigitValue(input);
            return Incomplete, phase';
          }
          return Invalid, phase';
        case ResponseMinorVersion =>
          if input == ' ' {
            phase', state_ := Moved(phase, state_, ResponseStatusCodeStart), ResponseStatusCodeStart;
            return Incomplete, phase';
          } else if IsDigit(input) {
            message.minor_version_ := message.minor_version_ * 10 + DigitValue(input);
            return Incomplete, phase';
          }
          return Invalid, phase';
        case ResponseStatusCodeStart =>
          if IsDigit(input) {
            phase', state_ := Moved(phase, state_, ResponseStatusCode), ResponseStatusCode;
            message.status_code_ := DigitValue(input);
            return Incomplete, phase';
          }
          return Invalid, phase';
        case ResponseStatusCode =>
          if input == ' ' {
            phase', state_ := Moved(phase, state_, ResponseStatusMessageStart), ResponseStatusMessageStart;
            return Incomplete, phase';
          } else if IsDigit(input) {
            message.status_code_ := message.status_code_ * 10 + DigitValue(input);
            return Incomplete, phase';
          }
          return Invalid, phase';
        case ResponseStatusMessageStart =>
          if IsChar(input) {
            phase', state_ := Moved(phase, state_, ResponseStatusMessage), ResponseStatusMessage;
            buffer_ := [input];
            return Incomplete, phase';
          }
          return Invalid, phase';
        case ResponseStatusMessage =>
          if input == '\r' {
            phase', state_ := Moved(phase, state_, ResponseNewline), ResponseNewline;
            message.status_message_ := buffer_;
            return Incomplete, phase';
          } else if IsChar(input) || input == ' ' {
            buffer_ := buffer_ + [input];
            return Incomplete, phase';
          }
          return Invalid, phase';
        case ResponseNewline =>
          if input == '\n' {
            phase', state_ := Moved(phase, state_, HeaderLineStart), HeaderLineStart;
            return Incomplete, phase';
          }
          return Invalid, phase';
      }
    }

    method ConsumeHeaderSection(message: HttpMessage, input: char, phase: Option<ParsePhase>)
      returns (outcome: Outcome, phase': Option<ParsePhase>)
      requires IsHeaderSection(state_)
      modifies this, message`body_, message.headers_
      ensures StepResult(outcome, View(message)) == StepHeaderSection(old(View(message)), input)
      ensures phase' == Tracked(phase, old(View(message)), View(message))
    {
      phase' := phase;
      match state_ {
        case HeaderLineStart =>
          if input == '\r' {
            phase', state_ := Moved(phase, state_, Newline3), Newline3;
            return Incomplete, phase';
          } else if !message.headers_.Empty() && (input == ' ' || input == '\t') {
            phase', state_ := Moved(phase, state_, HeaderLws), HeaderLws;
            return Incomplete, phase';
          } else if !IsChar(input) || IsCtl(input) || IsTSpecial(input) {
            return Invalid, phase';
          } else {
            phase', state_ := Moved(phase, state_, HeaderName), HeaderName;
            buffer_ := [input];
            return Incomplete, phase';
          }
        case HeaderLws =>
          if input == '\r' {
            phase', state_ := Moved(phase, state_, Newline2), Newline2;
            return Incomplete, phase';
          } else if input == ' ' || input == '\t' {
            return Incomplete, phase';
          } else if IsCtl(input) {
            return Invalid, phase';
          } else {
            phase', state_ := Moved(phase, state_, HeaderValue), HeaderValue;
            return Incomplete, phase';
          }
        case HeaderName =>
          if input == ':' {
            phase', state_ := Moved(phase, state_, HeaderSpace), HeaderSpace;
            return Incomplete, phase';
          } else if !IsChar(input) || IsCtl(input) || IsTSpecial(input) {
            return Invalid, phase';
          } else {
            buffer_ := buffer_ + [input];
            return Incomplete, phase';
          }
        case HeaderSpace =>
          if input == ' ' {
            phase', state_ := Moved(phase, state_, HeaderValue), HeaderValue;
            value_buffer_ := "";
            return Incomplete, phase';
          }
          return Invalid, phase';
        case HeaderValue =>
          if input == '\r' {
            phase', state_ := Moved(phase, state_, Newline2), Newline2;
            message.headers_.Insert(buffer_, value_buffer_);
            buffer_ := "";
            value_buffer_ := "";
            return Incomplete, phase';
          } else if !IsCtl(input) {
            value_buffer_ := value_buffer_ + [input];
            return Incomplete, phase';
          }
          return Invalid, phase';
        case Newline2 =>
          if input == '\n' {
            phase', state_ := Moved(phase, state_, HeaderLineStart), HeaderLineStart;
            return Incomplete, phase';
          }
          return Invalid, phase';
        case Newline3 =>
          if input == '\n' {
            outcome, phase' := ConsumeBlankLine(message, phase);
          } else {
            return Invalid, phase';
          }
      }
    }

    /** Looks for a chunked body, then for a declared length: the first of the
        lengths decides. */
    method ChooseFraming(encodings: seq<string>, lengths: seq<string>) returns (framing: Framing)
      ensures framing == FramingFrom(encodings, lengths)
    {
      var chunked := SearchToken(encodings, "chunked");
      if chunked {
        return Chunked;
      }
      if lengths != [] {
        var length := ToUInt64(lengths[0]);
        if length.None? {
          return BadLength;
        }
        if length.value == 0 {
          return NoBody;
        }
        return Fixed(length.value);
      }
      return NoBody;
    }

    /** The line feed of the blank line. */
    method ConsumeBlankLine(message: HttpMessage, phase: Option<ParsePhase>)
      returns (outcome: Outcome, phase': Option<ParsePhase>)
      modifies this`state_, this`remaining_, message`body_
      ensures StepResult(outcome, View(message)) == BeginBody(old(View(message)))
      ensures phase' == Tracked(phase, old(View(message)), View(message))
    {
      hide FramingFrom, Canonical;
      phase' := phase;
      var encodings := message.headers_.FindByName(Spelling(TransferEncoding));
      var lengths := message.headers_.FindByName(Spelling(ContentLength));
      var framing := ChooseFraming(encodings, lengths);
      match framing {
        case Chunked =>
          phase', state_ := Moved(phase, state_, ChunkLengthStart), ChunkLengthStart;
          message.body_ := "";
          return Incomplete, phase';
        case Fixed(length) =>
          phase', state_ := Moved(phase, state_, FixedLengthEntity), FixedLengthEntity;
          remaining_ := length;
          message.body_ := "";
          return Incomplete, phase';
        case NoBody => return Valid, phase';
        case BadLength => return Invalid, phase';
      }
    }

    method ConsumeChunkLine(message: HttpMessage, input: char, phase: Option<ParsePhase>)
      returns (outcome: Outcome, phase': Option<ParsePhase>)
      requires IsChunkLine(state_)
      modifies this`state_, this`remaining_
      ensures StepResult(outcome, View(message)) == StepChunkLine(old(View(message)), input)
      ensures phase' == Tracked(phase, old(View(message)), View(message))
    {
      phase' := phase;
      match state_ {
        case ChunkLengthStart =>
          if IsHex(input) {
            phase', state_ := Moved(phase, state_, ChunkLength), ChunkLength;
            remaining_ := HexDigitValue(input);
            return Incomplete, phase';
          }
          return Invalid, phase';
        case ChunkLength =>
          if input == '\r' {
            phase', state_ := Moved(phase, state_, ChunkLengthNewline), ChunkLengthNewline;
            return Incomplete, phase';
          } else if IsHex(input) {
            remaining_ := ShiftIn(remaining_, HexDigitValue(input));
            return Incomplete, phase';
          } else if input == ';' {
            return Fatal, phase';
          }
          return Invalid, phase';
        case ChunkLengthNewline =>
          if input == '\n' {
            if remaining_ > 0 {
              phase', state_ := Moved(phase, state_, Chunk), Chunk;
            } else {
              phase', state_ := Moved(phase, state_, ChunkTrailingHeaderLineStart), ChunkTrailingHeaderLineStart;
            }
            return Incomplete, phase';
          }
          return Invalid, phase';
      }
    }

    method ConsumeChunkData(message: HttpMessage, input: char, phase: Option<ParsePhase>)
      returns (outcome: Outcome, phase': Option<ParsePhase>)
      requires IsChunkData(state_)
      modifies this`state_, this`remaining_, message`body_
      ensures StepResult(outcome, View(message)) == StepChunkData(old(View(message)), input)
      ensures phase' == Tracked(phase, old(View(message)), View(message))
    {
      phase' := phase;
      match state_ {
        case Chunk =>
          if remaining_ == 0 {
            if input == '\r' {
              phase', state_ := Moved(phase, state_, ChunkTrailingNewline), ChunkTrailingNewline;
              return Incomplete, phase';
            }
            return Invalid, phase';
          } else {
            message.body_ := message.body_ + [input];
            remaining_ := remaining_ - 1;
            return Incomplete, phase';
          }
        case ChunkTrailingNewline =>
          if input == '\n' {
            phase', state_ := Moved(phase, state_, ChunkLengthStart), ChunkLengthStart;
            return Incomplete, phase';
          }
          return Invalid, phase';
        case ChunkTrailingHeaderLineStart =>
          if input == '\r' {
            phase', state_ := Moved(phase, state_, ChunkTerminatingNewline), ChunkTerminatingNewline;
            return Incomplete, phase';
          }
          return Fatal, phase';
        case ChunkTerminatingNewline =>
          if input == '\n' {
            return Valid, phase';
          }
          return Invalid, phase';
      }
    }

    method ConsumeFixedLength(message: HttpMessage, input: char, phase: Option<ParsePhase>)
      returns (outcome: Outcome, phase': Option<ParsePhase>)
      modifies this`remaining_, message`body_
      ensures StepResult(outcome, View(message)) == StepFixedLength(old(View(message)), input)
      ensures phase' == Tracked(phase, old(View(message)), View(message))
    {
      phase' := phase;
      if state_ != FixedLengthEntity {
        return Fatal, phase';
      }
      message.body_ := message.body_ + [input];
      remaining_ := Decrement(remaining_);
      if remaining_ == 0 {
        return Valid, phase';
      } else {
        return Incomplete, phase';
      }
    }

    /** Consumes one byte: the parser's fields and the message change exactly as
        `Step` says, and a tracked phase follows the change of state. */
    method Consume(message: HttpMessage, input: char, phase: Option<ParsePhase>)
      returns (outcome: Outcome, phase': Option<ParsePhase>)
      modifies this, message, message.headers_
      ensures StepResult(outcome, View(message)) == Step(old(View(message)), input)
      ensures phase' == Tracked(phase, old(View(message)), View(message))
    {
      hide StepRequestLine, StepStatusLine, StepHeaderSection, StepChunkLine,
           StepChunkData, StepFixedLength;
      if IsRequestLine(state_) {
        outcome, phase' := ConsumeRequestLine(message, input, phase);
      } else if IsStatusLine(state_) {
        outcome, phase' := ConsumeStatusLine(message, input, phase);
      } else if IsHeaderSection(state_) {
        outcome, phase' := ConsumeHeaderSection(message, input, phase);
      } else if IsChunkLine(state_) {
        outcome, phase' := ConsumeChunkLine(message, input, phase);
      } else if IsChunkData(state_) {
        outcome, phase' := ConsumeChunkData(message, input, phase);
      } else {
        outcome, phase' := ConsumeFixedLength(message, input, phase);
      }
    }

    /** Consumes bytes from `begin` on until the message ends, the buffer ends or the
        tracked phase changes. */
    method Parse(message: HttpMessage, input: string, begin: nat, phase: Option<ParsePhase>)
      returns (outcome: Outcome, begin': nat, phase': Option<ParsePhase>)
      requires begin <= |input|
      modifies this, message, message.headers_
      ensures begin <= begin' <= |input|
      ensures ParseResult(outcome, View(message), phase', begin' - begin)
           == Parsed(old(View(message)), phase, input[begin..])
    {
      hide Step;
      var starting := if phase.Some? then phase.value else Start;
      phase', begin' := phase, begin;
      while begin' != |input|
        invariant begin <= begin' <= |input|
        invariant phase'.Some? <==> phase.Some?
        invariant var rest := ParseFrom(View(message), phase', starting, input[begin'..]);
                  Parsed(old(View(message)), phase, input[begin..])
                  == rest.(consumed := begin' - begin + rest.consumed)
        decreases |input| - begin'
      {
        var c := input[begin'];
        assert input[begin'..][0] == c && input[begin'..][1..] == input[begin' + 1..];
        begin' := begin' + 1;
        outcome, phase' := Consume(message, c, phase');
        if outcome != Incomplete {
          if outcome == Valid && phase'.Some? {
            phase' := Some(ReceivedFullMessage);
          }
          return;
        }
        if phase'.Some? && phase'.value != starting {
          break;
        }
      }
      return Incomplete, begin', phase';
    }
  }
}
