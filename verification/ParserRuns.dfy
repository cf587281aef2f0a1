/** Whole runs of the parser. `Run` is the plain meaning of a byte string: one step
    a byte until the message ends. The parser as it is used is different: it pauses
    at every change of phase, is resumed by a loop, and is fed reads of any size.
    The theorems here say that this makes no difference. */
module ParserRuns {
  import opened Bytes
  import opened Messages
  import opened Parser

  /** A reset parser with a fresh message, for either kind of message. */
  const REQUEST_PARSER := Config(REQUEST_RESET, FRESH_MESSAGE)
  const RESPONSE_PARSER := Config(RESPONSE_RESET, FRESH_MESSAGE)

  datatype RunResult = RunResult(outcome: Outcome, config: Config, consumed: nat)

  function Run(k: Config, input: string): (r: RunResult)
    ensures r.consumed <= |input|
    ensures r.outcome == Incomplete ==> r.consumed == |input|
    decreases |input|
  {
    if input == "" then RunResult(Incomplete, k, 0)
    else
      var s := Step(k, input[0]);
      if s.outcome != Incomplete then RunResult(s.outcome, s.config, 1)
      else
        var r := Run(s.config, input[1..]);
        r.(consumed := r.consumed + 1)
  }

  /** What happens to the phase along a run: the phases announced on the way, and the
      phase at the end. */
  datatype PhaseTrace = PhaseTrace(announced: seq<ParsePhase>, final: ParsePhase)

  function PhasesOf(k: Config, phase: ParsePhase, input: string): PhaseTrace
    decreases |input|
  {
    if input == "" then PhaseTrace([], phase)
    else
      var s := Step(k, input[0]);
      var phase' := PhaseForTransition(phase, k.parser.state, s.config.parser.state);
      if s.outcome == Valid then PhaseTrace([], ReceivedFullMessage)
      else if s.outcome != Incomplete then PhaseTrace([], phase')
      else
        var t := PhasesOf(s.config, phase', input[1..]);
        if phase' == phase then t else t.(announced := [phase'] + t.announced)
  }

  // ----- cutting a run in two -----

  /** A run over two pieces is the run over the first, resumed over the second. */
  lemma {:induction false} RunSplit(k: Config, a: string, b: string)
    ensures var first := Run(k, a);
            Run(k, a + b) == if first.outcome != Incomplete then first
                             else var rest := Run(first.config, b);
                                  rest.(consumed := |a| + rest.consumed)
    decreases |a|
  {
    hide Step;
    if a == "" {
      assert a + b == b;
    } else {
      var s := Step(k, a[0]);
      assert (a + b)[1..] == a[1..] + b;
      if s.outcome == Incomplete {
        RunSplit(s.config, a[1..], b);
      }
    }
  }

  lemma {:induction false} PhasesSplit(k: Config, phase: ParsePhase, a: string, b: string)
    ensures var first, t := Run(k, a), PhasesOf(k, phase, a);
            PhasesOf(k, phase, a + b) ==
              if first.outcome != Incomplete then t
              else var rest := PhasesOf(first.config, t.final, b);
                   PhaseTrace(t.announced + rest.announced, rest.final)
    decreases |a|
  {
    hide Step, PhaseForTransition;
    if a == "" {
      assert a + b == b;
    } else {
      var s := Step(k, a[0]);
      assert (a + b)[1..] == a[1..] + b;
      if s.outcome == Incomplete {
        var phase' := PhaseForTransition(phase, k.parser.state, s.config.parser.state);
        PhasesSplit(s.config, phase', a[1..], b);
        var first, rest := PhasesOf(s.config, phase', a[1..]).announced,
                           PhasesOf(Run(k, a).config, PhasesOf(k, phase, a).final, b).announced;
        assert [phase'] + (first + rest) == ([phase'] + first) + rest;
      }
    }
  }

  // ----- the parser, unpaused and paused -----

  /** A call of `parse` that tracks no phase is the plain run. */
  lemma {:induction false} UnpausedParseIsRun(k: Config, starting: ParsePhase, input: string)
    ensures var r := Run(k, input);
            ParseFrom(k, None, starting, input) == ParseResult(r.outcome, r.config, None, r.consumed)
    decreases |input|
  {
    hide Step;
    if input != "" {
      UnpausedParseIsRun(Step(k, input[0]).config, starting, input[1..]);
    }
  }

  /** The result of the loop that resumes a paused parse. */
  datatype DriveResult = DriveResult(
    outcome: Outcome, config: Config, phase: ParsePhase, announced: seq<ParsePhase>, consumed: nat)

  /** One read buffer: parse, and while that stops early for a new phase, announce the
      phase and parse the rest. */
  function Drive(k: Config, phase: ParsePhase, input: string): (r: DriveResult)
    ensures r.consumed <= |input|
    decreases |input|
  {
    var p := Parsed(k, Some(phase), input);
    if p.outcome == Incomplete && p.phase.value != phase then
      var r := Drive(p.config, p.phase.value, input[p.consumed..]);
      r.(announced := [p.phase.value] + r.announced, consumed := p.consumed + r.consumed)
    else DriveResult(p.outcome, p.config, p.phase.value, [], p.consumed)
  }

  /** A paused parse is a run over the bytes it consumed; when it stops without an
      outcome it stands at a new phase or at the end of the buffer. */
  lemma {:induction false} PausedParseIsRun(k: Config, phase: ParsePhase, input: string)
    ensures var p := Parsed(k, Some(phase), input);
            var r, t := Run(k, input[..p.consumed]), PhasesOf(k, phase, input[..p.consumed]);
            && r == RunResult(p.outcome, p.config, p.consumed)
            && p.phase == Some(t.final)
            && t.announced == (if p.outcome == Incomplete && t.final != phase then [t.final] else [])
            && (p.outcome == Incomplete && t.final == phase ==> p.consumed == |input|)
    decreases |input|
  {
    hide Step, PhaseForTransition;
    if input != "" {
      var s := Step(k, input[0]);
      var p := Parsed(k, Some(phase), input);
      var taken := input[..p.consumed];
      assert taken[0] == input[0];
      if s.outcome == Incomplete && PhaseForTransition(phase, k.parser.state, s.config.parser.state) == phase {
        PausedParseIsRun(s.config, phase, input[1..]);
        assert taken[1..] == input[1..][..p.consumed - 1];
      } else {
        assert taken[1..] == "";
      }
    }
  }

  /** The resuming loop over one read buffer refines the plain run over it: same
      outcome, message, parser fields and count of bytes consumed, and it announces
      the phases of the run. In particular, when the outcome is `Incomplete` every
      byte of the buffer has been consumed. */
  lemma {:induction false} DriveIsRun(k: Config, phase: ParsePhase, input: string)
    ensures var d, r, t := Drive(k, phase, input), Run(k, input), PhasesOf(k, phase, input);
            d == DriveResult(r.outcome, r.config, t.final, t.announced, r.consumed)
    decreases |input|
  {
    hide Step, PhaseForTransition, Run, PhasesOf, ParseFrom;
    var p := Parsed(k, Some(phase), input);
    var taken, rest := input[..p.consumed], input[p.consumed..];
    PausedParseIsRun(k, phase, input);
    assert input == taken + rest;
    RunSplit(k, taken, rest);
    PhasesSplit(k, phase, taken, rest);
    if p.outcome == Incomplete {
      if p.phase.value != phase {
        DriveIsRun(p.config, p.phase.value, rest);
      } else {
        assert rest == "";
        NothingToRead(p.config, phase);
      }
    }
  }

  lemma NothingToRead(k: Config, phase: ParsePhase)
    ensures Run(k, "") == RunResult(Incomplete, k, 0)
    ensures PhasesOf(k, phase, "") == PhaseTrace([], phase)
  {}

  // ----- reads of any size -----

  function Flatten(buffers: seq<string>): string {
    if buffers == [] then "" else buffers[0] + Flatten(buffers[1..])
  }

  /** Reads one buffer after another until the message ends. */
  function DriveReads(k: Config, phase: ParsePhase, buffers: seq<string>): DriveResult
    decreases |buffers|
  {
    if buffers == [] then DriveResult(Incomplete, k, phase, [], 0)
    else
      var d := Drive(k, phase, buffers[0]);
      if d.outcome != Incomplete then d
      else
        var rest := DriveReads(d.config, d.phase, buffers[1..]);
        rest.(announced := d.announced + rest.announced, consumed := d.consumed + rest.consumed)
  }

  /** However a byte string is cut into reads, the paused and resumed parser ends as
      one unpaused run over the whole string, and announces the same phases. */
  lemma {:induction false} ReadsAreRun(k: Config, phase: ParsePhase, buffers: seq<string>)
    ensures var d := DriveReads(k, phase, buffers);
            var r, t := Run(k, Flatten(buffers)), PhasesOf(k, phase, Flatten(buffers));
            d == DriveResult(r.outcome, r.config, t.final, t.announced, r.consumed)
    decreases |buffers|
  {
    hide Step, PhaseForTransition, Run, PhasesOf, Drive;
    if buffers == [] {
      NothingToRead(k, phase);
    } else {
      var d := Drive(k, phase, buffers[0]);
      DriveIsRun(k, phase, buffers[0]);
      RunSplit(k, buffers[0], Flatten(buffers[1..]));
      PhasesSplit(k, phase, buffers[0], Flatten(buffers[1..]));
      if d.outcome == Incomplete {
        ReadsAreRun(d.config, d.phase, buffers[1..]);
      }
    }
  }

  /** Two ways of cutting one byte string into reads cannot be told apart. */
  lemma ReadSizesDoNotMatter(k: Config, phase: ParsePhase, buffers: seq<string>, buffers': seq<string>)
    requires Flatten(buffers) == Flatten(buffers')
    ensures DriveReads(k, phase, buffers) == DriveReads(k, phase, buffers')
  {
    ReadsAreRun(k, phase, buffers);
    ReadsAreRun(k, phase, buffers');
  }

  // ----- chaining runs -----

  /** `k` with another state, counter and body. */
  function InState(k: Config, s: ParserState, remaining: UInt64, body: string): Config {
    Config(k.parser.(state := s, remaining := remaining), k.message.(body := body))
  }

  /** The bytes `w` take the parser from `k` to `k'` without ending the message. */
  predicate Leads(k: Config, w: string, k': Config) {
    Run(k, w) == RunResult(Incomplete, k', |w|)
  }

  lemma LeadsThen(k: Config, a: string, k': Config, b: string)
    requires Leads(k, a, k')
    ensures Run(k, a + b) == var rest := Run(k', b); rest.(consumed := |a| + rest.consumed)
  {
    RunSplit(k, a, b);
  }

  lemma LeadsJoin(k: Config, a: string, k': Config, b: string, k'': Config)
    requires Leads(k, a, k') && Leads(k', b, k'')
    ensures Leads(k, a + b, k'')
  {
    hide Run;
    LeadsThen(k, a, k', b);
  }

  lemma LeadsOne(k: Config, c: char)
    requires Step(k, c).outcome == Incomplete
    ensures Leads(k, [c], Step(k, c).config)
  {
    hide Step;
    assert [c][1..] == "";
    assert Run(Step(k, c).config, "") == RunResult(Incomplete, Step(k, c).config, 0);
  }

  /** Two bytes, one after the other. */
  lemma LeadsTwo(k: Config, a: char, b: char)
    requires Step(k, a).outcome == Incomplete
    requires Step(Step(k, a).config, b).outcome == Incomplete
    ensures Leads(k, [a, b], Step(Step(k, a).config, b).config)
  {
    hide Step;
    assert [a, b][1..] == [b];
    LeadsOne(Step(k, a).config, b);
  }

  lemma LeadsNothing(k: Config)
    ensures Leads(k, "", k)
  {}

  /** The last byte of a run. */
  lemma RunLast(k: Config, w: string, c: char)
    ensures Run(k, w).outcome == Incomplete ==>
              var s := Step(Run(k, w).config, c);
              Run(k, w + [c]) == RunResult(s.outcome, s.config, |w| + 1)
    ensures Run(k, w).outcome != Incomplete ==> Run(k, w + [c]) == Run(k, w)
  {
    hide Step;
    RunSplit(k, w, [c]);
    assert [c][1..] == "";
  }

  /** A run that ends does so on its last consumed byte, and not before. */
  lemma {:induction false} RunEnds(k: Config, input: string)
    requires Run(k, input).outcome != Incomplete
    ensures var r := Run(k, input);
            && r.consumed > 0
            && Run(k, input[..r.consumed - 1]).outcome == Incomplete
            && Step(Run(k, input[..r.consumed - 1]).config, input[r.consumed - 1])
               == StepResult(r.outcome, r.config)
    decreases |input|
  {
    hide Step;
    var r := Run(k, input);
    var s := Step(k, input[0]);
    if s.outcome != Incomplete {
      assert input[..0] == "";
    } else {
      RunEnds(s.config, input[1..]);
      var before := input[..r.consumed - 1];
      assert before[0] == input[0] && before[1..] == input[1..][..r.consumed - 2];
    }
  }

  // ----- cutting a run where a part of the message ends -----

  /** The last byte of a run that goes on. */
  lemma LeadsLast(k: Config, w: string, c: char, k': Config)
    requires Leads(k, w + [c], k')
    ensures Leads(k, w, Run(k, w).config)
    ensures Step(Run(k, w).config, c) == StepResult(Incomplete, k')
  {
    hide Step;
    RunLast(k, w, c);
  }

  /** The first line, the header section, the body. */
  function Part(s: ParserState): nat {
    if IsRequestLine(s) || IsStatusLine(s) then 0 else if IsHeaderSection(s) then 1 else 2
  }

  lemma HeadersGoOn(k: Config, c: char)
    requires Part(k.parser.state) == 1 && Step(k, c).outcome == Incomplete
    ensures Part(Step(k, c).config.parser.state) == 1 || (k.parser.state == Newline3 && c == '\n')
    ensures Part(Step(k, c).config.parser.state) >= 1
  {
    hide StepRequestLine, StepStatusLine, StepChunkLine, StepChunkData, FramingOf;
  }

  lemma BodyGoesOn(k: Config, c: char)
    requires Part(k.parser.state) == 2 && Step(k, c).outcome == Incomplete
    ensures Part(Step(k, c).config.parser.state) == 2
  {
    hide StepRequestLine, StepStatusLine, StepHeaderSection;
  }

  lemma PartGrows(k: Config, c: char)
    requires Step(k, c).outcome == Incomplete
    ensures Part(k.parser.state) <= Part(Step(k, c).config.parser.state)
  {
    hide Step, Part;
    if Part(k.parser.state) == 1 {
      HeadersGoOn(k, c);
    } else if Part(k.parser.state) == 2 {
      BodyGoesOn(k, c);
    }
    PartBounds(k.parser.state);
  }

  lemma PartBounds(s: ParserState)
    ensures Part(s) == 0 || Part(s) == 1 || Part(s) == 2
  {}

  lemma {:induction false} PartsGrow(k: Config, w: string, k': Config)
    requires Leads(k, w, k')
    ensures Part(k.parser.state) <= Part(k'.parser.state)
    decreases |w|
  {
    hide Step, Part, Run, Leads;
    if w == "" {
      NothingLeads(k, k');
    } else {
      var init, c := w[..|w| - 1], w[|w| - 1];
      assert w == init + [c];
      LeadsLast(k, init, c, k');
      PartsGrow(k, init, Run(k, init).config);
      PartGrows(Run(k, init).config, c);
    }
  }

  lemma NothingLeads(k: Config, k': Config)
    requires Leads(k, "", k')
    ensures k' == k
  {}

  /** A run that gets past a part of the message passes the byte that ends the part. */
  lemma {:induction false} LeavesPart(k: Config, w: string, k': Config) returns (a: string, c: char, b: string)
    requires Leads(k, w, k') && Part(k.parser.state) < Part(k'.parser.state)
    ensures w == a + [c] + b
    ensures var last := Run(k, a).config;
            && Leads(k, a, last) && Part(last.parser.state) == Part(k.parser.state)
            && Step(last, c).outcome == Incomplete
            && Part(Step(last, c).config.parser.state) > Part(k.parser.state)
            && Leads(Step(last, c).config, b, k')
    decreases |w|
  {
    hide Step, Part, Run, Leads;
    if w == "" {
      NothingLeads(k, k');
    }
    var init, d := w[..|w| - 1], w[|w| - 1];
    assert w == init + [d];
    LeadsLast(k, init, d, k');
    var before := Run(k, init).config;
    PartsGrow(k, init, before);
    if Part(before.parser.state) == Part(k.parser.state) {
      a, c, b := init, d, "";
      LeadsNothing(k');
      assert a + [c] + b == w;
    } else {
      var b';
      a, c, b' := LeavesPart(k, init, before);
      b := b' + [d];
      assert a + [c] + b == w;
      LeadsOne(before, d);
      LeadsJoin(Step(Run(k, a).config, c).config, b', before, [d], k');
    }
  }

  // ----- the line feed of the blank line -----

  lemma BlankLineStops(k: Config, body: string)
    requires k.parser.state == Newline3
    requires FramingOf(k.message.headers).NoBody? || FramingOf(k.message.headers).BadLength?
    ensures Run(k, "\n" + body)
         == RunResult(if FramingOf(k.message.headers).NoBody? then Valid else Invalid, k, 1)
  {
    hide StepRequestLine, StepStatusLine, FramingOf;
    assert ("\n" + body)[0] == '\n';
  }

  lemma BlankLineChunked(k: Config)
    requires k.parser.state == Newline3 && FramingOf(k.message.headers).Chunked?
    ensures Leads(k, "\n", InState(k, ChunkLengthStart, k.parser.remaining, ""))
  {
    hide StepRequestLine, StepStatusLine, FramingOf, Leads;
    LeadsOne(k, '\n');
  }
}
