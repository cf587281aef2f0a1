/** Chunked bodies (section 4.1 of RFC 7230, without extensions or trailers). The
    bytes that the parser accepts from the start of a chunked body are exactly the
    encodings of lists of chunks, and the body it builds is the list's data. */
module ChunkedBodies {
  import opened Bytes
  import opened Parser
  import opened ParserRuns

  /** One chunk on the wire: the spelling of its length, and its data. */
  datatype WireChunk = WireChunk(length: string, data: string)

  /** A length is spelled with hexadecimal digits of either case; zeros may lead. */
  predicate IsLength(s: string) {
    s != "" && AllHex(s)
  }

  /** The length the 64-bit counter holds after the digits of `s`. */
  function LengthRead(s: string): UInt64
    requires AllHex(s)
  {
    HexValue(s) % TWO_TO_THE_64
  }

  predicate IsWireChunk(c: WireChunk) {
    IsLength(c.length) && LengthRead(c.length) == |c.data| && c.data != ""
  }

  predicate AreWireChunks(chunks: seq<WireChunk>) {
    forall i | 0 <= i < |chunks| :: IsWireChunk(chunks[i])
  }

  predicate IsLastLength(s: string) {
    IsLength(s) && LengthRead(s) == 0
  }

  function Wire(c: WireChunk): string {
    c.length + "\r\n" + c.data + "\r\n"
  }

  function WireAll(chunks: seq<WireChunk>): string {
    if chunks == [] then "" else WireAll(chunks[..|chunks| - 1]) + Wire(chunks[|chunks| - 1])
  }

  /** The data of a list of chunks. */
  function Payload(chunks: seq<WireChunk>): string {
    if chunks == [] then "" else Payload(chunks[..|chunks| - 1]) + chunks[|chunks| - 1].data
  }

  /** A whole chunked body: chunks, a zero length, and a blank line. */
  function Encoding(chunks: seq<WireChunk>, last: string): string {
    WireAll(chunks) + last + "\r\n\r\n"
  }

  predicate IsEncoding(w: string, chunks: seq<WireChunk>, last: string) {
    AreWireChunks(chunks) && IsLastLength(last) && w == Encoding(chunks, last)
  }

  // ----- every encoding is decoded -----

  lemma ShiftInReads(x: nat, digit: nat)
    ensures ShiftIn(x % TWO_TO_THE_64, digit) == (16 * x + digit) % TWO_TO_THE_64
  {
    var q, r := x / TWO_TO_THE_64, x % TWO_TO_THE_64;
    assert 16 * x + digit == (16 * q) * TWO_TO_THE_64 + (r * 16 + digit);
    RemainderOfSum(16 * q, r * 16 + digit);
  }

  lemma RemainderOfSum(q: nat, r: nat)
    ensures (q * TWO_TO_THE_64 + r) % TWO_TO_THE_64 == r % TWO_TO_THE_64
  {}

  lemma DigitStep(k: Config, c: char)
    requires IsHex(c) && (k.parser.state == ChunkLengthStart || k.parser.state == ChunkLength)
    ensures Step(k, c) == StepResult(Incomplete,
              InState(k, ChunkLength,
                      if k.parser.state == ChunkLengthStart then HexDigitValue(c)
                      else ShiftIn(k.parser.remaining, HexDigitValue(c)),
                      k.message.body))
  {
    hide StepRequestLine, StepStatusLine, StepHeaderSection, StepChunkData, ShiftIn, HexDigitValue;
  }

  lemma {:induction false} LengthRun(k: Config, s: string)
    requires k.parser.state == ChunkLengthStart && IsLength(s)
    ensures Leads(k, s, InState(k, ChunkLength, LengthRead(s), k.message.body))
  {
    hide Step, Run, ShiftIn;
    var init, c := s[..|s| - 1], s[|s| - 1];
    assert s == init + [c];
    RunLast(k, init, c);
    assert HexValue(s) == 16 * HexValue(init) + HexDigitValue(c);
    if init == "" {
      NothingToRead(k, Start);
      DigitStep(k, c);
    } else {
      LengthRun(k, init);
      DigitStep(InState(k, ChunkLength, LengthRead(init), k.message.body), c);
      ShiftInReads(HexValue(init), HexDigitValue(c));
    }
  }

  lemma {:induction false} DataRun(k: Config, data: string)
    requires k.parser.state == Chunk && |data| <= k.parser.remaining
    ensures Leads(k, data, InState(k, Chunk, k.parser.remaining - |data|, k.message.body + data))
  {
    hide StepRequestLine, StepStatusLine, StepHeaderSection, StepChunkLine, Run;
    if data == "" {
      NothingToRead(k, Start);
    } else {
      var init, c := data[..|data| - 1], data[|data| - 1];
      assert data == init + [c];
      RunLast(k, init, c);
      DataRun(k, init);
      assert (k.message.body + init) + [c] == k.message.body + data;
    }
  }

  lemma LengthLineEnd(k: Config)
    requires k.parser.state == ChunkLength
    ensures Leads(k, "\r\n", InState(k, if k.parser.remaining > 0 then Chunk else ChunkTrailingHeaderLineStart,
                                     k.parser.remaining, k.message.body))
  {
    hide StepRequestLine, StepStatusLine, StepHeaderSection, StepChunkData, Run, Leads;
    LeadsTwo(k, '\r', '\n');
  }

  lemma ChunkEnd(k: Config)
    requires k.parser.state == Chunk && k.parser.remaining == 0
    ensures Leads(k, "\r\n", InState(k, ChunkLengthStart, 0, k.message.body))
  {
    hide StepRequestLine, StepStatusLine, StepHeaderSection, StepChunkLine, Run, Leads;
    LeadsTwo(k, '\r', '\n');
  }

  lemma BodyEnd(k: Config, rest: string)
    requires k.parser.state == ChunkTrailingHeaderLineStart
    ensures Run(k, "\r\n" + rest)
         == RunResult(Valid, InState(k, ChunkTerminatingNewline, k.parser.remaining, k.message.body), 2)
  {
    hide StepRequestLine, StepStatusLine, StepHeaderSection, StepChunkLine;
    var w := "\r\n" + rest;
    assert w[0] == '\r' && w[1..] == "\n" + rest && w[1..][0] == '\n';
  }

  lemma ChunkRun(k: Config, c: WireChunk)
    requires k.parser.state == ChunkLengthStart && IsWireChunk(c)
    ensures Leads(k, Wire(c), InState(k, ChunkLengthStart, 0, k.message.body + c.data))
  {
    hide Step, Run, Leads, HexValue;
    var n := |c.data|;
    var k1 := InState(k, ChunkLength, n, k.message.body);
    LengthRun(k, c.length);
    var k2 := InState(k, Chunk, n, k.message.body);
    LengthLineEnd(k1);
    LeadsJoin(k, c.length, k1, "\r\n", k2);
    var k3 := InState(k, Chunk, 0, k.message.body + c.data);
    DataRun(k2, c.data);
    LeadsJoin(k, c.length + "\r\n", k2, c.data, k3);
    ChunkEnd(k3);
    LeadsJoin(k, c.length + "\r\n" + c.data, k3, "\r\n",
              InState(k, ChunkLengthStart, 0, k.message.body + c.data));
  }

  /** Where the parser stands after a list of chunks. */
  function AfterChunks(k: Config, chunks: seq<WireChunk>): Config {
    InState(k, ChunkLengthStart, if chunks == [] then k.parser.remaining else 0,
            k.message.body + Payload(chunks))
  }

  lemma {:induction false} ChunksRun(k: Config, chunks: seq<WireChunk>)
    requires k.parser.state == ChunkLengthStart && AreWireChunks(chunks)
    ensures Leads(k, WireAll(chunks), AfterChunks(k, chunks))
  {
    hide Step, Run, IsWireChunk, Leads, Wire;
    if chunks == [] {
      LeadsNothing(k);
      assert AfterChunks(k, chunks) == k;
    } else {
      var init, last := chunks[..|chunks| - 1], chunks[|chunks| - 1];
      ChunksRun(k, init);
      ChunkRun(AfterChunks(k, init), last);
      assert InState(AfterChunks(k, init), ChunkLengthStart, 0, AfterChunks(k, init).message.body + last.data)
          == AfterChunks(k, chunks);
      LeadsJoin(k, WireAll(init), AfterChunks(k, init), Wire(last), AfterChunks(k, chunks));
    }
  }

  lemma LastLengthRun(k: Config, last: string, rest: string)
    requires k.parser.state == ChunkLengthStart && IsLastLength(last)
    ensures Run(k, last + "\r\n\r\n" + rest)
         == RunResult(Valid, InState(k, ChunkTerminatingNewline, 0, k.message.body), |last| + 4)
  {
    hide Step, Run, Leads, LengthRead;
    var k1 := InState(k, ChunkLength, 0, k.message.body);
    var k2 := InState(k, ChunkTrailingHeaderLineStart, 0, k.message.body);
    LengthRun(k, last);
    LengthLineEnd(k1);
    LeadsJoin(k, last, k1, "\r\n", k2);
    BodyEnd(k2, rest);
    LeadsThen(k, last + "\r\n", k2, "\r\n" + rest);
    assert last + "\r\n\r\n" + rest == (last + "\r\n") + ("\r\n" + rest);
  }

  /** Complete: whatever follows, an encoding is consumed exactly, and the body grows
      by its data. */
  lemma EncodingRun(k: Config, chunks: seq<WireChunk>, last: string, rest: string)
    requires k.parser.state == ChunkLengthStart
    requires AreWireChunks(chunks) && IsLastLength(last)
    ensures Run(k, Encoding(chunks, last) + rest)
         == RunResult(Valid, InState(k, ChunkTerminatingNewline, 0, k.message.body + Payload(chunks)),
                      |Encoding(chunks, last)|)
  {
    hide Run, Leads, AreWireChunks, IsLastLength, WireAll, Payload;
    ChunksRun(k, chunks);
    LastLengthRun(AfterChunks(k, chunks), last, rest);
    LeadsThen(k, WireAll(chunks), AfterChunks(k, chunks), last + "\r\n\r\n" + rest);
    assert Encoding(chunks, last) + rest == WireAll(chunks) + (last + "\r\n\r\n" + rest);
  }

  // ----- everything decoded is an encoding -----

  /** How the bytes read so far divide up: the chunks completed, and the length and
      the data of the chunk in progress. */
  datatype Progress = Progress(done: seq<WireChunk>, length: string, data: string)

  /** The bytes of the chunk in progress. */
  function Unfinished(p: Progress, s: ParserState): string {
    match s
    case ChunkLength => p.length
    case ChunkLengthNewline => p.length + "\r"
    case Chunk => p.length + "\r\n" + p.data
    case ChunkTrailingNewline => p.length + "\r\n" + p.data + "\r"
    case ChunkTrailingHeaderLineStart => p.length + "\r\n"
    case ChunkTerminatingNewline => p.length + "\r\n" + "\r"
    case _ => ""
  }

  /** The counter and the progress agree: while data is being read, what is missing
      from the current chunk is what remains. */
  predicate Counts(p: Progress, s: ParserState, remaining: UInt64) {
    if s == ChunkLengthStart then p.length == "" && p.data == ""
    else
      && IsLength(p.length)
      && (s == ChunkLength || s == ChunkLengthNewline ==> remaining == LengthRead(p.length) && p.data == "")
      && (s == Chunk ==> |p.data| + remaining == LengthRead(p.length) && LengthRead(p.length) > 0)
      && (s == ChunkTrailingNewline ==> |p.data| == LengthRead(p.length) && LengthRead(p.length) > 0)
      && (s == ChunkTrailingHeaderLineStart || s == ChunkTerminatingNewline ==>
            LengthRead(p.length) == 0 && p.data == "")
      && (s == ChunkTrailingNewline || s == ChunkTrailingHeaderLineStart || s == ChunkTerminatingNewline ==>
            remaining == 0)
      && (IsChunkLine(s) || IsChunkData(s))
  }

  /** After the bytes `w`, read from `from` on, the parser stands at `k` because `w`
      divides up as `p`; the message has changed in its body alone, which has grown by
      the completed chunks and the part of the current one. */
  predicate Explains(from: Config, p: Progress, k: Config, w: string) {
    && AreWireChunks(p.done)
    && w == WireAll(p.done) + Unfinished(p, k.parser.state)
    && k.message == from.message.(body := from.message.body + Payload(p.done) + p.data)
    && Counts(p, k.parser.state, k.parser.remaining)
  }

  function Advance(p: Progress, k: Config, c: char): Progress {
    match k.parser.state
    case ChunkLengthStart => p.(length := [c])
    case ChunkLength => if c == '\r' then p else p.(length := p.length + [c])
    case Chunk => if k.parser.remaining == 0 then p else p.(data := p.data + [c])
    case ChunkTrailingNewline => Progress(p.done + [WireChunk(p.length, p.data)], "", "")
    case _ => p
  }

  lemma DigitAppended(s: string, c: char)
    requires AllHex(s) && IsHex(c)
    ensures IsLength(s + [c])
    ensures LengthRead(s + [c]) == if s == "" then HexDigitValue(c) else ShiftIn(LengthRead(s), HexDigitValue(c))
  {
    assert (s + [c])[..|s|] == s;
    ShiftInReads(HexValue(s), HexDigitValue(c));
  }

  lemma ExplainDigit(from: Config, p: Progress, k: Config, w: string, c: char)
    requires Explains(from, p, k, w) && IsHex(c)
    requires k.parser.state == ChunkLengthStart || k.parser.state == ChunkLength
    ensures Explains(from, Advance(p, k, c), Step(k, c).config, w + [c])
  {
    hide Step, HexValue, LengthRead, ShiftIn, HexDigitValue, IsHex, AreWireChunks, WireAll, Payload;
    DigitStep(k, c);
    DigitAppended(p.length, c);
    assert p.length == "" ==> p.length + [c] == [c];
    assert c != '\r' by { NotHex(c); }
    assert Unfinished(Advance(p, k, c), ChunkLength) == Unfinished(p, k.parser.state) + [c];
  }

  lemma NotHex(c: char)
    requires IsHex(c)
    ensures c != '\r'
  {}

  lemma ExplainLengthEnd(from: Config, p: Progress, k: Config, w: string, c: char)
    requires Explains(from, p, k, w) && IsChunkLine(k.parser.state)
    requires !IsHex(c) || k.parser.state == ChunkLengthNewline
    requires Step(k, c).outcome == Incomplete
    ensures Explains(from, Advance(p, k, c), Step(k, c).config, w + [c])
  {
    hide StepRequestLine, StepStatusLine, StepHeaderSection, StepChunkData, HexValue, LengthRead,
         AreWireChunks, WireAll, Payload;
    assert Unfinished(Advance(p, k, c), Step(k, c).config.parser.state)
        == Unfinished(p, k.parser.state) + [c];
  }

  lemma ExplainDataByte(from: Config, p: Progress, k: Config, w: string, c: char)
    requires Explains(from, p, k, w) && k.parser.state == Chunk
    requires Step(k, c).outcome == Incomplete
    ensures Explains(from, Advance(p, k, c), Step(k, c).config, w + [c])
  {
    hide StepRequestLine, StepStatusLine, StepHeaderSection, StepChunkLine, HexValue, LengthRead, AreWireChunks,
         WireAll;
    assert Unfinished(Advance(p, k, c), Step(k, c).config.parser.state)
        == Unfinished(p, k.parser.state) + [c];
  }

  lemma OneMoreChunk(done: seq<WireChunk>, chunk: WireChunk)
    ensures WireAll(done + [chunk]) == WireAll(done) + Wire(chunk)
    ensures Payload(done + [chunk]) == Payload(done) + chunk.data
  {
    assert (done + [chunk])[..|done|] == done;
  }

  lemma ChunkLineFeed(k: Config, c: char)
    requires k.parser.state == ChunkTrailingNewline && Step(k, c).outcome == Incomplete
    ensures c == '\n' && Step(k, c).config == InState(k, ChunkLengthStart, k.parser.remaining, k.message.body)
  {
    hide StepRequestLine, StepStatusLine, StepHeaderSection, StepChunkLine;
  }

  lemma ExplainChunkEnd(from: Config, p: Progress, k: Config, w: string, c: char)
    requires Explains(from, p, k, w) && k.parser.state == ChunkTrailingNewline
    requires Step(k, c).outcome == Incomplete
    ensures Explains(from, Advance(p, k, c), Step(k, c).config, w + [c])
  {
    hide Step, HexValue, LengthRead, WireAll, Payload;
    var chunk := WireChunk(p.length, p.data);
    ChunkLineFeed(k, c);
    OneMoreChunk(p.done, chunk);
    assert IsWireChunk(chunk);
    assert Unfinished(p, ChunkTrailingNewline) + [c] == Wire(chunk);
    assert Advance(p, k, c) == Progress(p.done + [chunk], "", "");
  }

  lemma ExplainBodyEnd(from: Config, p: Progress, k: Config, w: string, c: char)
    requires Explains(from, p, k, w) && k.parser.state == ChunkTrailingHeaderLineStart
    requires Step(k, c).outcome == Incomplete
    ensures Explains(from, Advance(p, k, c), Step(k, c).config, w + [c])
  {
    hide StepRequestLine, StepStatusLine, StepHeaderSection, StepChunkLine, HexValue, LengthRead, AreWireChunks,
         WireAll;
    assert Unfinished(Advance(p, k, c), Step(k, c).config.parser.state)
        == Unfinished(p, k.parser.state) + [c];
  }

  lemma ExplainStep(from: Config, p: Progress, k: Config, w: string, c: char)
    requires Explains(from, p, k, w)
    requires Step(k, c).outcome == Incomplete
    ensures Explains(from, Advance(p, k, c), Step(k, c).config, w + [c])
  {
    var s := k.parser.state;
    StatesOfBody(p, k);
    if s == ChunkTerminatingNewline {
      hide StepRequestLine, StepStatusLine, StepHeaderSection, StepChunkLine, Explains;
    } else {
      hide Step, Explains, Advance;
      if IsChunkLine(s) {
        if IsHex(c) && s != ChunkLengthNewline {
          ExplainDigit(from, p, k, w, c);
        } else {
          ExplainLengthEnd(from, p, k, w, c);
        }
      } else if s == Chunk {
        ExplainDataByte(from, p, k, w, c);
      } else if s == ChunkTrailingNewline {
        ExplainChunkEnd(from, p, k, w, c);
      } else {
        ExplainBodyEnd(from, p, k, w, c);
      }
    }
  }

  /** At every byte of a chunked body that is still incomplete, the bytes read are
      completed chunks and a part of one more, the body is their data, and the
      counter is what the current chunk lacks. */
  lemma {:induction false} BodySoFar(k: Config, w: string) returns (p: Progress)
    requires k.parser.state == ChunkLengthStart && Run(k, w).outcome == Incomplete
    ensures Explains(k, p, Run(k, w).config, w)
  {
    hide Step, Run, Counts, Advance;
    if w == "" {
      NothingToRead(k, Start);
      p := Progress([], "", "");
      assert Counts(p, ChunkLengthStart, k.parser.remaining) by { CountsAtStart(k.parser.remaining); }
    } else {
      var init, c := w[..|w| - 1], w[|w| - 1];
      assert w == init + [c];
      RunLast(k, init, c);
      var before := BodySoFar(k, init);
      var mid := Run(k, init).config;
      p := Advance(before, mid, c);
      ExplainStep(k, before, mid, init, c);
    }
  }

  lemma CountsAtStart(remaining: UInt64)
    ensures Counts(Progress([], "", ""), ChunkLengthStart, remaining)
  {}

  lemma StatesOfBody(p: Progress, k: Config)
    requires Counts(p, k.parser.state, k.parser.remaining)
    ensures IsChunkLine(k.parser.state) || IsChunkData(k.parser.state)
  {}

  lemma ValidOnLastLineFeed(p: Progress, k: Config, c: char)
    requires Counts(p, k.parser.state, k.parser.remaining)
    requires Step(k, c).outcome == Valid
    ensures k.parser.state == ChunkTerminatingNewline && c == '\n' && Step(k, c).config == k
  {
    hide StepRequestLine, StepStatusLine, StepHeaderSection, HexValue, LengthRead;
  }

  /** Sound: bytes accepted as a chunked body are an encoding, and the body has grown
      by its data. */
  lemma AcceptedIsEncoding(k: Config, input: string) returns (chunks: seq<WireChunk>, last: string)
    requires k.parser.state == ChunkLengthStart && Run(k, input).outcome == Valid
    ensures IsEncoding(input[..Run(k, input).consumed], chunks, last)
    ensures Run(k, input).config.message == k.message.(body := k.message.body + Payload(chunks))
  {
    hide Step, Run, Counts, AreWireChunks, WireAll, LengthRead;
    RunEnds(k, input);
    var n := Run(k, input).consumed;
    var before, c := input[..n - 1], input[n - 1];
    var p := BodySoFar(k, before);
    var mid := Run(k, before).config;
    ValidOnLastLineFeed(p, mid, c);
    chunks, last := p.done, p.length;
    TerminalCounts(p, mid.parser.remaining);
    assert mid.message.body == k.message.body + Payload(chunks);
    assert input[..n] == before + [c];
    assert Unfinished(p, ChunkTerminatingNewline) + [c] == last + "\r\n\r\n";
  }

  lemma TerminalCounts(p: Progress, remaining: UInt64)
    requires Counts(p, ChunkTerminatingNewline, remaining)
    ensures IsLastLength(p.length) && p.data == ""
  {}

  /** The parser accepts a string as a chunked body, to its last byte, exactly when the
      string is the encoding of some list of chunks. */
  lemma AcceptsExactlyEncodings(k: Config, w: string)
    requires k.parser.state == ChunkLengthStart
    ensures Run(k, w).outcome == Valid && Run(k, w).consumed == |w|
       <==> exists chunks, last :: IsEncoding(w, chunks, last)
  {
    hide Run, Encoding;
    if Run(k, w).outcome == Valid && Run(k, w).consumed == |w| {
      var chunks, last := AcceptedIsEncoding(k, w);
      assert w[..|w|] == w;
    }
    if chunks, last :| IsEncoding(w, chunks, last) {
      EncodingRun(k, chunks, last, "");
      assert w + "" == w;
    }
  }

  // ----- an encoding can be read in one way only -----

  lemma {:induction false} FirstChunk(chunks: seq<WireChunk>)
    requires chunks != []
    ensures WireAll(chunks) == Wire(chunks[0]) + WireAll(chunks[1..])
  {
    hide Wire;
    var init, last := chunks[..|chunks| - 1], chunks[|chunks| - 1];
    if init == [] {
      assert chunks[1..] == [];
    } else {
      FirstChunk(init);
      assert chunks[1..][..|chunks| - 2] == init[1..];
      assert WireAll(chunks[1..]) == WireAll(init[1..]) + Wire(last);
    }
  }

  /** The first length of an encoding, and everything after its line end. */
  function FirstLength(chunks: seq<WireChunk>, last: string): string {
    if chunks == [] then last else chunks[0].length
  }

  function AfterFirstLength(chunks: seq<WireChunk>, last: string): string {
    if chunks == [] then "\n\r\n" else "\n" + chunks[0].data + "\r\n" + Encoding(chunks[1..], last)
  }

  lemma NothingFront(last: string)
    ensures Encoding([], last) == FirstLength([], last) + "\r" + AfterFirstLength([], last)
  {
    assert last + "\r\n\r\n" == last + "\r" + "\n\r\n";
  }

  lemma WireFront(c: WireChunk, rest: string)
    ensures Wire(c) + rest == c.length + "\r" + ("\n" + c.data + "\r\n" + rest)
  {
    assert "\r" + "\n" == "\r\n";
  }

  lemma EncodingFront(chunks: seq<WireChunk>, last: string)
    ensures Encoding(chunks, last) == FirstLength(chunks, last) + "\r" + AfterFirstLength(chunks, last)
  {
    hide WireAll, Wire;
    if chunks == [] {
      NothingFront(last);
    } else {
      FirstChunk(chunks);
      WireFront(chunks[0], Encoding(chunks[1..], last));
      assert Encoding(chunks, last) == Wire(chunks[0]) + Encoding(chunks[1..], last);
    }
  }

  lemma SameBeforeCr(s: string, t: string, s': string, t': string)
    requires AllHex(s) && AllHex(s')
    requires s + "\r" + t == s' + "\r" + t'
    ensures s == s' && t == t'
  {
    var w := s + "\r" + t;
    assert w[|s|] == '\r' && w[|s'|] == '\r';
    assert forall i | 0 <= i < |s| :: w[i] == s[i] && IsHex(s[i]);
    assert forall i | 0 <= i < |s'| :: w[i] == s'[i] && IsHex(s'[i]);
    assert |s| == |s'|;
    assert s == w[..|s|] && s' == w[..|s'|];
    assert t == w[|s| + 1..] && t' == w[|s'| + 1..];
  }

  lemma SameData(a: string, t: string, a': string, t': string)
    requires |a| == |a'| && "\n" + a + "\r\n" + t == "\n" + a' + "\r\n" + t'
    ensures a == a' && t == t'
  {
    var w := "\n" + a + "\r\n" + t;
    assert a == w[1..1 + |a|] && a' == w[1..1 + |a'|];
    assert t == w[|a| + 3..] && t' == w[|a'| + 3..];
  }

  /** Two lists of chunks with the same encoding are the same list: the body that is
      decoded is the only one the bytes can mean. */
  lemma {:induction false} EncodingUnique(chunks: seq<WireChunk>, last: string, chunks': seq<WireChunk>, last': string)
    requires AreWireChunks(chunks) && IsLastLength(last)
    requires AreWireChunks(chunks') && IsLastLength(last')
    requires Encoding(chunks, last) == Encoding(chunks', last')
    ensures chunks == chunks' && last == last'
    decreases |chunks|
  {
    hide Encoding, LengthRead, AllHex;
    EncodingFront(chunks, last);
    EncodingFront(chunks', last');
    SameBeforeCr(FirstLength(chunks, last), AfterFirstLength(chunks, last),
                 FirstLength(chunks', last'), AfterFirstLength(chunks', last'));
    if chunks != [] && chunks' != [] {
      SameData(chunks[0].data, Encoding(chunks[1..], last), chunks'[0].data, Encoding(chunks'[1..], last'));
      EncodingUnique(chunks[1..], last, chunks'[1..], last');
      assert chunks == [chunks[0]] + chunks[1..] && chunks' == [chunks'[0]] + chunks'[1..];
    }
  }

  // ----- lengths as they are printed -----

  /** A piece of data, and how its length is to be spelled: how many zeros come first, and in
      which case the letters are. */
  datatype Piece = Piece(data: string, zeros: nat, capitals: bool)

  /** The piece as a chunk. */
  function Spelled(p: Piece): WireChunk {
    WireChunk(Zeros(p.zeros) + Hex(|p.data|, if p.capitals then UPPER_HEX else LOWER_HEX), p.data)
  }

  function AllSpelled(pieces: seq<Piece>): (chunks: seq<WireChunk>)
    ensures |chunks| == |pieces| && forall i | 0 <= i < |pieces| :: chunks[i] == Spelled(pieces[i])
  {
    if pieces == [] then [] else AllSpelled(pieces[..|pieces| - 1]) + [Spelled(pieces[|pieces| - 1])]
  }

  function AllData(pieces: seq<Piece>): string {
    if pieces == [] then "" else AllData(pieces[..|pieces| - 1]) + pieces[|pieces| - 1].data
  }

  lemma SpelledIsChunk(p: Piece)
    requires 0 < |p.data| < TWO_TO_THE_64
    ensures IsWireChunk(Spelled(p))
  {
    hide HexValue, Hex, Zeros;
    HexRoundTrip(|p.data|, p.zeros, if p.capitals then UPPER_HEX else LOWER_HEX);
  }

  lemma {:induction false} SpelledPayload(pieces: seq<Piece>)
    ensures Payload(AllSpelled(pieces)) == AllData(pieces)
  {
    hide Spelled;
    if pieces != [] {
      var init, last := pieces[..|pieces| - 1], pieces[|pieces| - 1];
      SpelledPayload(init);
      OneMoreChunk(AllSpelled(init), Spelled(last));
      assert Spelled(last).data == last.data by { SpelledData(last); }
    }
  }

  lemma SpelledData(p: Piece)
    ensures Spelled(p).data == p.data
  {}

  /** Any data, cut into pieces anyhow, sent in chunks whose lengths are printed in
      hexadecimal, in either case, with any number of zeros in front, and closed by a zero:
      the parser completes on the last byte, and the body grows by exactly the data. */
  lemma PrintedLengthsRun(k: Config, pieces: seq<Piece>, zeros: nat, rest: string)
    requires k.parser.state == ChunkLengthStart
    requires forall i | 0 <= i < |pieces| :: 0 < |pieces[i].data| < TWO_TO_THE_64
    ensures var w, k' := Encoding(AllSpelled(pieces), Zeros(zeros) + "0"),
                         InState(k, ChunkTerminatingNewline, 0, k.message.body + AllData(pieces));
            Run(k, w + rest) == RunResult(Valid, k', |w|)
  {
    hide Run, IsWireChunk, Spelled, Encoding, Payload, Zeros, AllSpelled;
    forall i | 0 <= i < |pieces| ensures IsWireChunk(AllSpelled(pieces)[i]) {
      SpelledIsChunk(pieces[i]);
    }
    assert IsLastLength(Zeros(zeros) + "0") by { ZeroEnds(zeros); }
    SpelledPayload(pieces);
    EncodingRun(k, AllSpelled(pieces), Zeros(zeros) + "0", rest);
  }

  lemma ZeroEnds(zeros: nat)
    ensures IsLastLength(Zeros(zeros) + "0")
  {
    ZerosAreZero(zeros);
    var s := Zeros(zeros) + "0";
    assert s[..|s| - 1] == Zeros(zeros);
  }

  // ----- lengths of 2^64 and more -----

  /** After the digits of a length the parser's counter holds the number they spell
      exactly when that number fits in 64 bits. */
  lemma LengthReadIff(k: Config, s: string)
    requires k.parser.state == ChunkLengthStart && IsLength(s)
    ensures Run(k, s).outcome == Incomplete
    ensures Run(k, s).config.parser.remaining == HexValue(s) <==> HexValue(s) < TWO_TO_THE_64
  {
    hide Run, HexValue;
    LengthRun(k, s);
    assert Run(k, s).config.parser.remaining == LengthRead(s) by { LeadsTo(k, s, LengthRead(s)); }
  }

  lemma LeadsTo(k: Config, s: string, n: UInt64)
    requires Leads(k, s, InState(k, ChunkLength, n, k.message.body))
    ensures Run(k, s).outcome == Incomplete && Run(k, s).config.parser.remaining == n
  {
    hide Run;
  }

  /** Every chunk is as long as its length spells, and the last length spells zero. */
  predicate AsSpelled(chunks: seq<WireChunk>, last: string)
    requires AreWireChunks(chunks) && IsLastLength(last)
  {
    (forall i | 0 <= i < |chunks| :: HexValue(chunks[i].length) == |chunks[i].data|) && HexValue(last) == 0
  }

  predicate LengthsFit(chunks: seq<WireChunk>, last: string)
    requires AreWireChunks(chunks) && IsLastLength(last)
  {
    (forall i | 0 <= i < |chunks| :: HexValue(chunks[i].length) < TWO_TO_THE_64) && HexValue(last) < TWO_TO_THE_64
  }

  /** The one way in which an accepted body divides into chunks is the way its lengths
      are spelled, as section 4.1 of RFC 7230 has it, if and only if no length that is
      spelled reaches 2^64. */
  lemma DividedAsSpelledIff(k: Config, w: string) returns (chunks: seq<WireChunk>, last: string)
    requires k.parser.state == ChunkLengthStart && Run(k, w).outcome == Valid && Run(k, w).consumed == |w|
    ensures IsEncoding(w, chunks, last)
    ensures forall chunks', last' :: IsEncoding(w, chunks', last') ==> chunks' == chunks && last' == last
    ensures AsSpelled(chunks, last) <==> LengthsFit(chunks, last)
  {
    hide Run, Encoding, HexValue, AllHex;
    chunks, last := AcceptedIsEncoding(k, w);
    assert w[..|w|] == w;
    forall chunks', last' | IsEncoding(w, chunks', last') ensures chunks' == chunks && last' == last {
      EncodingUnique(chunks', last', chunks, last);
    }
    forall i | 0 <= i < |chunks|
      ensures HexValue(chunks[i].length) == |chunks[i].data| <==> HexValue(chunks[i].length) < TWO_TO_THE_64
    {
      assert IsWireChunk(chunks[i]);
      ReadAsSpelled(chunks[i].length);
    }
    ReadAsSpelled(last);
  }

  lemma ReadAsSpelled(s: string)
    requires AllHex(s)
    ensures LengthRead(s) == HexValue(s) <==> HexValue(s) < TWO_TO_THE_64
  {
    hide HexValue;
  }

  /** Seventeen digits that spell 2^64 are read as zero, and so end a body. */
  lemma LengthWraps(k: Config) returns (s: string)
    requires k.parser.state == ChunkLengthStart
    ensures |s| == 17 && IsLength(s) && HexValue(s) == TWO_TO_THE_64
    ensures Run(k, s + "\r\n\r\n").outcome == Valid
  {
    hide Run, HexValue, AllHex, SixteenTo;
    s := PowerSpelled(16);
    PowerIs();
    SpelledPowerEnds(k, s);
  }

  lemma SpelledPowerEnds(k: Config, s: string)
    requires k.parser.state == ChunkLengthStart
    requires IsLength(s) && HexValue(s) == TWO_TO_THE_64
    ensures Run(k, s + "\r\n\r\n").outcome == Valid
  {
    hide Run, AllHex;
    LastLengthRun(k, s, "");
    assert s + "\r\n\r\n" + "" == s + "\r\n\r\n";
  }

  lemma PowerIs()
    ensures SixteenTo(16) == TWO_TO_THE_64
  {
    assert SixteenTo(2) == 0x100;
    assert SixteenTo(4) == 0x1_0000;
    assert SixteenTo(6) == 0x100_0000;
    assert SixteenTo(8) == 0x1_0000_0000;
    assert SixteenTo(10) == 0x100_0000_0000;
    assert SixteenTo(12) == 0x1_0000_0000_0000;
    assert SixteenTo(14) == 0x100_0000_0000_0000;
  }

  function SixteenTo(n: nat): nat {
    if n == 0 then 1 else 16 * SixteenTo(n - 1)
  }

  lemma {:induction false} PowerSpelled(n: nat) returns (s: string)
    ensures |s| == n + 1 && AllHex(s) && HexValue(s) == SixteenTo(n)
  {
    if n == 0 {
      s := "1";
      assert s[..0] == "";
    } else {
      var t := PowerSpelled(n - 1);
      s := t + "0";
      assert s[..|s| - 1] == t;
    }
  }
}
