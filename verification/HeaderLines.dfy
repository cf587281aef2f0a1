/** Header sections as text: a list of well-formed, unfolded lines in, the same list
    of inserts out. */
module HeaderLines {
  import opened Bytes
  import opened HeaderFields
  import opened Parser
  import opened ParserRuns

  /** A field whose name is a token and whose value has no control characters. */
  predicate IsField(f: Field) {
    f.name != "" && IsToken(f.name) && NoCtl(f.value)
  }

  predicate AreFields(fields: seq<Field>) {
    forall i | 0 <= i < |fields| :: IsField(fields[i])
  }

  function Line(f: Field): string {
    f.name + ": " + f.value + "\r\n"
  }

  function Lines(fields: seq<Field>): string {
    if fields == [] then "" else Lines(fields[..|fields| - 1]) + Line(fields[|fields| - 1])
  }

  function InLine(k: Config, s: ParserState, buffer: string, valueBuffer: string): Config {
    k.(parser := k.parser.(state := s, buffer := buffer, valueBuffer := valueBuffer))
  }

  lemma {:induction false} NameRun(k: Config, s: string)
    requires k.parser.state == HeaderName && IsToken(s)
    ensures Leads(k, s, InLine(k, HeaderName, k.parser.buffer + s, k.parser.valueBuffer))
  {
    hide StepRequestLine, StepStatusLine, StepChunkLine, StepChunkData, Run, FramingOf, Inserted;
    if s == "" {
      NothingToRead(k, Start);
      assert k.parser.buffer + s == k.parser.buffer;
    } else {
      var init, c := s[..|s| - 1], s[|s| - 1];
      assert s == init + [c];
      NameRun(k, init);
      RunLast(k, init, c);
      assert (k.parser.buffer + init) + [c] == k.parser.buffer + s;
    }
  }

  lemma {:induction false} ValueRun(k: Config, s: string)
    requires k.parser.state == HeaderValue && NoCtl(s)
    ensures Leads(k, s, InLine(k, HeaderValue, k.parser.buffer, k.parser.valueBuffer + s))
  {
    hide StepRequestLine, StepStatusLine, StepChunkLine, StepChunkData, Run, FramingOf, Inserted;
    if s == "" {
      NothingToRead(k, Start);
      assert k.parser.valueBuffer + s == k.parser.valueBuffer;
    } else {
      var init, c := s[..|s| - 1], s[|s| - 1];
      assert s == init + [c];
      ValueRun(k, init);
      RunLast(k, init, c);
      assert (k.parser.valueBuffer + init) + [c] == k.parser.valueBuffer + s;
    }
  }

  /** The first character of a name, the separator, and the line end. */
  lemma NameBegins(k: Config, c: char)
    requires k.parser.state == HeaderLineStart && IsTokenChar(c)
    ensures Leads(k, [c], InLine(k, HeaderName, [c], k.parser.valueBuffer))
  {
    hide StepRequestLine, StepStatusLine, StepChunkLine, StepChunkData, Leads, FramingOf, Inserted;
    LeadsOne(k, c);
  }

  lemma SeparatorRun(k: Config)
    requires k.parser.state == HeaderName
    ensures Leads(k, ": ", InLine(k, HeaderValue, k.parser.buffer, ""))
  {
    hide StepRequestLine, StepStatusLine, StepChunkLine, StepChunkData, Leads, FramingOf, Inserted;
    LeadsTwo(k, ':', ' ');
  }

  lemma LineEndRun(k: Config)
    requires k.parser.state == HeaderValue
    ensures Leads(k, "\r\n", AfterField(k, Field(k.parser.buffer, k.parser.valueBuffer)))
  {
    hide StepRequestLine, StepStatusLine, StepChunkLine, StepChunkData, Leads, FramingOf, Inserted;
    LeadsTwo(k, '\r', '\n');
  }

  /** After a field's line: the field is inserted and both scratch buffers are empty. */
  function AfterField(k: Config, f: Field): Config {
    InLine(k.(message := k.message.(headers := Inserted(k.message.headers, f.name, f.value))),
           HeaderLineStart, "", "")
  }

  lemma FieldRun(k: Config, f: Field)
    requires k.parser.state == HeaderLineStart && IsField(f)
    ensures Leads(k, Line(f), AfterField(k, f))
  {
    hide Step, Run, Leads, Inserted;
    var first, rest := f.name[..1], f.name[1..];
    assert f.name == first + rest && first == [f.name[0]];
    var k1 := InLine(k, HeaderName, first, k.parser.valueBuffer);
    NameBegins(k, f.name[0]);
    var k2 := InLine(k, HeaderName, f.name, k.parser.valueBuffer);
    NameRun(k1, rest);
    LeadsJoin(k, first, k1, rest, k2);
    var k3 := InLine(k, HeaderValue, f.name, "");
    SeparatorRun(k2);
    LeadsJoin(k, f.name, k2, ": ", k3);
    var k4 := InLine(k, HeaderValue, f.name, f.value);
    ValueRun(k3, f.value);
    assert "" + f.value == f.value;
    LeadsJoin(k, f.name + ": ", k3, f.value, k4);
    LineEndRun(k4);
    LeadsJoin(k, f.name + ": " + f.value, k4, "\r\n", AfterField(k, f));
  }

  /** After a list of lines. */
  function AfterFields(k: Config, fields: seq<Field>): Config {
    if fields == [] then k
    else
      InLine(k.(message := k.message.(headers := InsertAll(k.message.headers, fields))),
             HeaderLineStart, "", "")
  }

  /** Well-formed lines, in any letter case and with repeats, leave the headers equal
      to inserting their fields one after another, and both scratch buffers empty. */
  lemma {:induction false} FieldsRun(k: Config, fields: seq<Field>)
    requires k.parser.state == HeaderLineStart && AreFields(fields)
    ensures Leads(k, Lines(fields), AfterFields(k, fields))
  {
    hide Step, Run, Leads, Inserted, Line, IsField;
    if fields == [] {
      LeadsNothing(k);
    } else {
      var init, last := fields[..|fields| - 1], fields[|fields| - 1];
      FieldsRun(k, init);
      FieldRun(AfterFields(k, init), last);
      var h := k.message.headers;
      assert InsertAll(h, fields) == Inserted(InsertAll(h, init), last.name, last.value);
      assert InsertAll(h, []) == h;
      assert AfterField(AfterFields(k, init), last) == AfterFields(k, fields);
      LeadsJoin(k, Lines(init), AfterFields(k, init), Line(last), AfterFields(k, fields));
    }
  }

  /** The carriage return of the blank line. */
  lemma BlankLineBegins(k: Config)
    requires k.parser.state == HeaderLineStart
    ensures Leads(k, "\r", InLine(k, Newline3, k.parser.buffer, k.parser.valueBuffer))
  {
    hide StepRequestLine, StepStatusLine, StepChunkLine, StepChunkData, Leads, FramingOf, Inserted;
    LeadsOne(k, '\r');
  }

  /** A whole header section up to the blank line's line feed. */
  lemma HeaderSectionRun(k: Config, fields: seq<Field>)
    requires k.parser.state == HeaderLineStart && AreFields(fields)
    ensures Leads(k, Lines(fields) + "\r",
                  AfterFields(k, fields).(parser := AfterFields(k, fields).parser.(state := Newline3)))
  {
    hide Step, Run, Leads, Inserted, AreFields;
    var k1 := AfterFields(k, fields);
    FieldsRun(k, fields);
    BlankLineBegins(k1);
    LeadsJoin(k, Lines(fields), k1, "\r", InLine(k1, Newline3, k1.parser.buffer, k1.parser.valueBuffer));
  }
}
