/** When the parser pauses. The coarse phase is a function of the automaton's state,
    it only moves forward, and it changes exactly at the end of the first line and at
    the end of the header section. */
module Phases {
  import opened Messages
  import opened Parser
  import opened ParserRuns

  function PhaseOfState(s: ParserState): ParsePhase {
    if IsRequestLine(s) || IsStatusLine(s) then Start
    else if IsHeaderSection(s) then ReceivedMessageLine
    else ReceivedHeaders
  }

  /** The phases passed on the way from one phase to another. */
  function Between(from: ParsePhase, to: ParsePhase): seq<ParsePhase> {
    (if from == Start && to != Start then [ReceivedMessageLine] else [])
    + (if from != ReceivedHeaders && to == ReceivedHeaders then [ReceivedHeaders] else [])
  }

  /** A step from one state to another moves the phase by at most one. */
  predicate PhaseMove(s: ParserState, s': ParserState) {
    var p, p' := PhaseOfState(s), PhaseOfState(s');
    && PhaseForTransition(p, s, s') == p'
    && (p == p' || (p == Start && p' == ReceivedMessageLine && s'.HeaderLineStart?)
        || (p == ReceivedMessageLine && p' == ReceivedHeaders))
  }

  lemma FirstLineFollowsPhase(k: Config, c: char)
    requires IsRequestLine(k.parser.state) || IsStatusLine(k.parser.state)
    ensures PhaseMove(k.parser.state, Step(k, c).config.parser.state)
    ensures Step(k, c).outcome != Incomplete ==> Step(k, c).config.parser.state == k.parser.state
  {
    hide StepHeaderSection, StepChunkLine, StepChunkData, StepFixedLength;
    if IsRequestLine(k.parser.state) {
      hide StepStatusLine;
    } else {
      hide StepRequestLine;
    }
  }

  lemma HeadersFollowPhase(k: Config, c: char)
    requires IsHeaderSection(k.parser.state)
    ensures PhaseMove(k.parser.state, Step(k, c).config.parser.state)
    ensures Step(k, c).outcome != Incomplete ==> Step(k, c).config.parser.state == k.parser.state
  {
    hide FramingOf, HeaderFields.Inserted, StepStatusLine, StepRequestLine, StepChunkLine, StepChunkData,
         StepFixedLength;
  }

  lemma StepFollowsPhase(k: Config, c: char)
    ensures PhaseMove(k.parser.state, Step(k, c).config.parser.state)
    ensures Step(k, c).outcome != Incomplete ==> Step(k, c).config.parser.state == k.parser.state
  {
    if IsRequestLine(k.parser.state) || IsStatusLine(k.parser.state) {
      hide PhaseMove, Step;
      FirstLineFollowsPhase(k, c);
    } else if IsHeaderSection(k.parser.state) {
      hide PhaseMove, Step;
      HeadersFollowPhase(k, c);
    } else {
      hide StepHeaderSection, StepStatusLine, StepRequestLine;
    }
  }

  /** Along every run that starts in the phase of its state, the phase stays the phase
      of the state, so it never moves back; it ends at `ReceivedFullMessage` exactly
      when the message is complete; and the pauses are the phases passed, in order,
      each at most once. */
  lemma {:induction false} PhaseTracksState(k: Config, input: string)
    ensures var phase := PhaseOfState(k.parser.state);
            var r, t := Run(k, input), PhasesOf(k, phase, input);
            && t.final == (if r.outcome == Valid then ReceivedFullMessage
                           else PhaseOfState(r.config.parser.state))
            && t.announced == Between(phase, PhaseOfState(r.config.parser.state))
    decreases |input|
  {
    hide Step, PhaseForTransition, IsRequestLine, IsStatusLine, IsHeaderSection;
    if input != "" {
      var s := Step(k, input[0]);
      StepFollowsPhase(k, input[0]);
      if s.outcome == Incomplete {
        PhaseTracksState(s.config, input[1..]);
        PhaseOnlyGrows(s.config, input[1..]);
      }
    }
  }

  lemma {:induction false} PhaseOnlyGrows(k: Config, input: string)
    ensures var p, p' := PhaseOfState(k.parser.state), PhaseOfState(Run(k, input).config.parser.state);
            p == p' || p == Start || (p == ReceivedMessageLine && p' == ReceivedHeaders)
    decreases |input|
  {
    hide Step, PhaseForTransition, IsRequestLine, IsStatusLine, IsHeaderSection;
    if input != "" {
      StepFollowsPhase(k, input[0]);
      PhaseOnlyGrows(Step(k, input[0]).config, input[1..]);
    }
  }

  // ----- where the pauses fall in the text -----

  predicate EndsCr(w: string) {
    |w| >= 1 && w[|w| - 1] == '\r'
  }

  predicate EndsLf(w: string) {
    |w| >= 1 && w[|w| - 1] == '\n'
  }

  predicate EndsCrLf(w: string) {
    EndsLf(w) && |w| >= 2 && w[|w| - 2] == '\r'
  }

  /** Carriage return and line feed, twice, end at position `i`. */
  predicate BlankLineAt(w: string, i: nat)
    requires i <= |w|
  {
    i >= 4 && w[i - 4] == '\r' && w[i - 3] == '\n' && w[i - 2] == '\r' && w[i - 1] == '\n'
  }

  predicate HasLineFeed(w: string) {
    exists i :: 0 <= i < |w| && w[i] == '\n'
  }

  predicate HasBlankLine(w: string) {
    exists i :: 0 <= i <= |w| && BlankLineAt(w, i)
  }

  lemma GrowText(w: string, c: char)
    ensures HasLineFeed(w + [c]) <==> HasLineFeed(w) || c == '\n'
    ensures HasBlankLine(w + [c]) <==> HasBlankLine(w) || BlankLineAt(w + [c], |w| + 1)
  {
    var w' := w + [c];
    assert w'[|w|] == c;
    if i :| 0 <= i < |w| && w[i] == '\n' {
      assert w'[i] == '\n';
    }
    if i :| 0 <= i <= |w| && BlankLineAt(w, i) {
      assert BlankLineAt(w', i);
    }
    if i :| 0 <= i <= |w'| && BlankLineAt(w', i) {
      assert i <= |w| ==> BlankLineAt(w, i);
    }
  }

  /** Which bytes lead from which states to which, as far as line ends go. */
  predicate LineEndMove(s: ParserState, c: char, s': ParserState) {
    && (s'.Newline1? || s'.ResponseNewline? ==> c == '\r')
    && (s'.Newline2? ==> c == '\r' && InsideLine(s))
    && (s'.HeaderLineStart? ==> c == '\n' && (s.Newline1? || s.ResponseNewline? || s.Newline2?))
    && (s'.Newline3? ==> c == '\r' && s.HeaderLineStart?)
    && (InsideLine(s') ==> c != '\n' && IsHeaderSection(s))
    && (IsRequestLine(s') ==> IsRequestLine(s) && c != '\n')
    && (PhaseOfState(s') == ReceivedHeaders && PhaseOfState(s) != ReceivedHeaders ==> s.Newline3? && c == '\n')
    && (IsStatusLine(s') ==> IsStatusLine(s))
  }

  predicate InsideLine(s: ParserState) {
    s.HeaderLws? || s.HeaderName? || s.HeaderSpace? || s.HeaderValue?
  }

  lemma LineMoves(k: Config, c: char)
    requires IsRequestLine(k.parser.state) || IsStatusLine(k.parser.state)
    requires Step(k, c).outcome == Incomplete
    ensures LineEndMove(k.parser.state, c, Step(k, c).config.parser.state)
  {
    hide StepHeaderSection, StepChunkLine, StepChunkData, StepFixedLength;
    if IsRequestLine(k.parser.state) {
      hide StepStatusLine;
    } else {
      hide StepRequestLine;
    }
  }

  lemma StepMoves(k: Config, c: char)
    requires Step(k, c).outcome == Incomplete
    ensures LineEndMove(k.parser.state, c, Step(k, c).config.parser.state)
  {
    hide FramingOf, HeaderFields.Inserted, StepStatusLine, StepRequestLine;
    if IsRequestLine(k.parser.state) || IsStatusLine(k.parser.state) {
      hide LineEndMove;
      LineMoves(k, c);
    }
  }

  /** What the bytes read so far look like in each state of the header section. */
  predicate LooksLike(s: ParserState, w: string) {
    && (s.Newline1? || s.ResponseNewline? ==> EndsCr(w))
    && (s.Newline2? ==> EndsCr(w) && !EndsLf(w[..|w| - 1]))
    && (s.HeaderLineStart? ==> EndsCrLf(w))
    && (s.Newline3? ==> EndsCr(w) && EndsCrLf(w[..|w| - 1]))
    && (InsideLine(s) ==> !EndsLf(w))
  }

  /** For a request, the phase can be read off the text. */
  predicate ReadsAs(s: ParserState, w: string) {
    && !IsStatusLine(s)
    && (IsRequestLine(s) <==> !HasLineFeed(w))
    && (HasBlankLine(w) <==> PhaseOfState(s) == ReceivedHeaders)
  }

  lemma TextStep(s: ParserState, w: string, c: char, s': ParserState)
    requires LooksLike(s, w) && LineEndMove(s, c, s')
    ensures LooksLike(s', w + [c])
  {
    assert (w + [c])[..|w|] == w;
    hide IsRequestLine, IsStatusLine, IsHeaderSection;
  }

  lemma RequestTextStep(s: ParserState, w: string, c: char, s': ParserState)
    requires LooksLike(s, w) && ReadsAs(s, w) && LineEndMove(s, c, s')
    requires PhaseOfState(s) == ReceivedHeaders ==> PhaseOfState(s') == ReceivedHeaders
    ensures ReadsAs(s', w + [c])
  {
    GrowText(w, c);
    if BlankLineAt(w + [c], |w| + 1) {
      assert c == '\n' && EndsCr(w) && EndsCrLf(w[..|w| - 1]);
      assert w[|w| - 2] == '\n';
    }
  }

  /** A parser that has just been reset. */
  predicate AtStart(k: Config) {
    k.parser.state == MethodStart || k.parser.state == ResponseStart
  }

  lemma {:induction false} TextInvariant(k: Config, w: string)
    requires AtStart(k) && Run(k, w).outcome == Incomplete
    ensures LooksLike(Run(k, w).config.parser.state, w)
    ensures k.parser.state == MethodStart ==> ReadsAs(Run(k, w).config.parser.state, w)
    decreases |w|
  {
    if w == "" {
    } else {
      hide Step, LooksLike, ReadsAs, LineEndMove, PhaseForTransition, Run;
      var init, c := w[..|w| - 1], w[|w| - 1];
      assert w == init + [c];
      RunLast(k, init, c);
      TextInvariant(k, init);
      var mid := Run(k, init).config;
      StepMoves(mid, c);
      StepFollowsPhase(mid, c);
      TextStep(mid.parser.state, init, c, Step(mid, c).config.parser.state);
      if k.parser.state == MethodStart {
        RequestTextStep(mid.parser.state, init, c, Step(mid, c).config.parser.state);
      }
    }
  }

  /** While a request is incomplete, its phase is a fact about the bytes alone: the
      first line has been received exactly when a line feed has been, and the headers
      exactly when a blank line has been. */
  lemma RequestPhaseIsTextual(m: Message, w: string)
    requires Run(Config(REQUEST_RESET, m), w).outcome == Incomplete
    ensures var phase := PhasesOf(Config(REQUEST_RESET, m), Start, w).final;
            && (phase == Start <==> !HasLineFeed(w))
            && (phase == ReceivedHeaders <==> HasBlankLine(w))
            && (phase == ReceivedMessageLine <==> HasLineFeed(w) && !HasBlankLine(w))
  {
    hide Run, PhasesOf, LooksLike, HasLineFeed, HasBlankLine;
    TextInvariant(Config(REQUEST_RESET, m), w);
    PhaseTracksState(Config(REQUEST_RESET, m), w);
  }

  /** In requests and responses alike, the byte on which the phase changes is the line
      feed of a line end, and of a blank line when the headers have been received. */
  lemma PausesFallOnLineEnds(k: Config, w: string, c: char)
    requires AtStart(k) && Run(k, w + [c]).outcome == Incomplete
    ensures var before, after := PhasesOf(k, Start, w).final, PhasesOf(k, Start, w + [c]).final;
            before != after ==>
              EndsCrLf(w + [c]) && (after == ReceivedHeaders ==> BlankLineAt(w + [c], |w| + 1))
  {
    hide Run, PhasesOf, PhaseForTransition, Step, LineEndMove, LooksLike, EndsCrLf, BlankLineAt;
    RunLast(k, w, c);
    PhaseTracksState(k, w);
    PhaseTracksState(k, w + [c]);
    TextInvariant(k, w);
    var mid := Run(k, w).config;
    StepMoves(mid, c);
    StepFollowsPhase(mid, c);
    NewPhaseText(mid.parser.state, w, c, Step(mid, c).config.parser.state);
  }

  lemma NewPhaseText(s: ParserState, w: string, c: char, s': ParserState)
    requires LooksLike(s, w) && LineEndMove(s, c, s')
    requires var p, p' := PhaseOfState(s), PhaseOfState(s');
             p == p' || (p == Start && p' == ReceivedMessageLine && s'.HeaderLineStart?)
             || (p == ReceivedMessageLine && p' == ReceivedHeaders)
    ensures PhaseOfState(s) != PhaseOfState(s') ==>
              EndsCrLf(w + [c])
              && (PhaseOfState(s') == ReceivedHeaders ==> BlankLineAt(w + [c], |w| + 1))
  {}
}
