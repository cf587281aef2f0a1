/** The request printer: `Format` builds the text of a request with two nested loops,
    `Formatted` says what the text is. */
module RequestPrinter {
  import opened Bytes
  import opened Text
  import opened HeaderFields
  import opened HeaderLines
  import opened Messages

  /** The values of each name in turn, joined on one line. */
  function PrintedFields(h: HeaderData, names: seq<string>): seq<Field> {
    if names == [] then []
    else
      var last := names[|names| - 1];
      PrintedFields(h, names[..|names| - 1]) + [Field(last, Join(Find(h, last)))]
  }

  function RequestLine(m: Message): string {
    m.requestMethod + " " + m.uri + " HTTP/" + Decimal(m.majorVersion) + "." + Decimal(m.minorVersion) + "\r\n"
  }

  /** The text of a request. A body is printed as it is held, already decoded. */
  function Formatted(m: Message): string {
    RequestLine(m) + Lines(PrintedFields(m.headers, m.headers.order)) + "\r\n" + m.body
  }

  lemma {:induction false} JoinAppend(values: seq<string>, i: nat)
    requires 0 < i < |values|
    ensures Join(values[..i + 1]) == Join(values[..i]) + ", " + values[i]
  {
    var all, some := values[..i + 1], values[..i];
    if i > 1 {
      var rest := values[1..];
      JoinAppend(rest, i - 1);
      assert all[1..] == rest[..i] && some[1..] == rest[..i - 1];
    } else {
      assert all[1..] == [values[1]] && some == [values[0]];
    }
  }

  /** Prints the values of one header, with ", " between them. */
  method FormatValues(values: seq<string>) returns (text: string)
    ensures text == Join(values)
  {
    text := "";
    var first := true;
    for i := 0 to |values|
      invariant first <==> i == 0
      invariant text == Join(values[..i])
    {
      if i > 0 {
        JoinAppend(values, i);
      }
      if !first {
        text := text + ", ";
      }
      text := text + values[i];
      first := false;
      assert i == 0 ==> values[..1] == [values[0]];
    }
    assert values[..|values|] == values;
  }

  method FormatHeaders(headers: Headers) returns (text: string)
    ensures text == Lines(PrintedFields(headers.Data(), headers.insertion_order_))
  {
    hide Join, Find, Lines, PrintedFields;
    var names := headers.Names();
    ghost var h := headers.Data();
    text := "";
    PrintNothing(h);
    for i := 0 to |names|
      invariant text == Lines(PrintedFields(h, names[..i]))
    {
      var name := names[i];
      var values := FormatValues(headers.FindByName(name));
      text := text + name + ": " + values + "\r\n";
      PrintOneMore(h, names, i);
    }
    assert names[..|names|] == names;
  }

  method Format(message: HttpMessage) returns (text: string)
    ensures text == Formatted(message.Data())
  {
    hide Lines, PrintedFields, Decimal;
    text := message.method_ + " " + message.uri_ + " HTTP/" + Decimal(message.major_version_)
            + "." + Decimal(message.minor_version_) + "\r\n";
    var headers := FormatHeaders(message.headers_);
    text := text + headers + "\r\n";
    if |message.body_| > 0 {
      text := text + message.body_;
    }
  }

  lemma PrintNothing(h: HeaderData)
    ensures Lines(PrintedFields(h, [])) == ""
  {}

  lemma PrintOneMore(h: HeaderData, names: seq<string>, i: nat)
    requires i < |names|
    ensures Lines(PrintedFields(h, names[..i + 1]))
         == Lines(PrintedFields(h, names[..i])) + names[i] + ": " + Join(Find(h, names[i])) + "\r\n"
  {
    var before, field := PrintedFields(h, names[..i]), Field(names[i], Join(Find(h, names[i])));
    assert names[..i + 1][..i] == names[..i];
    assert PrintedFields(h, names[..i + 1]) == before + [field];
    assert (before + [field])[..|before|] == before;
    assert Line(field) == names[i] + ": " + Join(Find(h, names[i])) + "\r\n";
  }
}
