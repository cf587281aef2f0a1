/** Bodies of a declared length: the parser takes exactly the declared number of
    bytes, completes on the last of them and leaves what follows unread. */
module FixedBodies {
  import opened Bytes
  import opened Parser
  import opened ParserRuns

  lemma FixedByte(k: Config, c: char)
    requires k.parser.state == FixedLengthEntity && k.parser.remaining > 0
    ensures var n := k.parser.remaining - 1;
            Step(k, c) == StepResult(if n == 0 then Valid else Incomplete,
                                     InState(k, FixedLengthEntity, n, k.message.body + [c]))
  {
    hide StepRequestLine, StepStatusLine, StepHeaderSection, StepChunkLine, StepChunkData;
  }

  /** Every body byte takes one from the counter, which has 64 bits: one taken from zero would
      leave the largest number. */
  lemma CounterDrops(k: Config, c: char)
    requires k.parser.state == FixedLengthEntity
    ensures var s := Step(k, c);
            && (s.config.parser.remaining + 1) % TWO_TO_THE_64 == k.parser.remaining
            && (s.outcome == Valid <==> k.parser.remaining == 1)
  {
    hide StepRequestLine, StepStatusLine, StepHeaderSection, StepChunkLine, StepChunkData;
  }

  /** With n bytes outstanding, fewer than n bytes leave the body longer by them and
      that many fewer outstanding; n bytes or more complete the message on the n-th. */
  lemma {:induction false} FixedRun(k: Config, w: string)
    requires k.parser.state == FixedLengthEntity && k.parser.remaining > 0
    ensures var n := k.parser.remaining;
            Run(k, w) ==
              if |w| < n
              then RunResult(Incomplete, InState(k, FixedLengthEntity, n - |w|, k.message.body + w), |w|)
              else RunResult(Valid, InState(k, FixedLengthEntity, 0, k.message.body + w[..n]), n)
    decreases |w|
  {
    hide Step;
    if w == "" {
      assert k.message.body + w == k.message.body;
    } else {
      var n := k.parser.remaining;
      FixedByte(k, w[0]);
      if n == 1 {
        assert w[..1] == [w[0]];
      } else {
        FixedRun(Step(k, w[0]).config, w[1..]);
        if |w| < n {
          assert (k.message.body + [w[0]]) + w[1..] == k.message.body + w;
        } else {
          assert (k.message.body + [w[0]]) + w[1..][..n - 1] == k.message.body + w[..n];
        }
      }
    }
  }

  /** From the line feed of the blank line on: while a body of n bytes is incomplete,
      the bytes received and the bytes outstanding add up to n and some are
      outstanding; the message is complete on the n-th byte after the blank line. */
  lemma FixedLengthFraming(k: Config, w: string)
    requires k.parser.state == Newline3 && FramingOf(k.message.headers).Fixed?
    ensures var n, r := FramingOf(k.message.headers).length, Run(k, "\n" + w);
            && r.config.message == k.message.(body := if |w| < n then w else w[..n])
            && |r.config.message.body| + r.config.parser.remaining == n
            && (r.outcome == Incomplete <==> r.config.parser.remaining > 0)
            && (r.outcome == Valid <==> |w| >= n)
            && (r.outcome == Valid ==> r.consumed == n + 1)
  {
    var k' := BlankLineFixed(k);
    LeadsThen(k, "\n", k', w);
    FixedRun(k', w);
    assert "" + w == w;
  }

  lemma BlankLineFixed(k: Config) returns (k': Config)
    requires k.parser.state == Newline3 && FramingOf(k.message.headers).Fixed?
    ensures k' == InState(k, FixedLengthEntity, FramingOf(k.message.headers).length, "")
    ensures Leads(k, "\n", k')
  {
    hide StepRequestLine, StepStatusLine, FramingOf, Leads;
    k' := InState(k, FixedLengthEntity, FramingOf(k.message.headers).length, "");
    LeadsOne(k, '\n');
  }
}
