/** Header fields: canonical names, a multi-map of values and the order in which
    names were first inserted. */
module HeaderFields {
  import opened Bytes

  predicate IsLetter(c: char) {
    'a' <= c <= 'z' || 'A' <= c <= 'Z'
  }

  function Upper(c: char): char {
    if 'a' <= c <= 'z' then (c as int - 32) as char else c
  }

  function Lower(c: char): char {
    if 'A' <= c <= 'Z' then (c as int + 32) as char else c
  }

  /** Two names are the same field name: equal up to the case of ASCII letters. */
  predicate SameName(a: string, b: string) {
    |a| == |b| && forall i | 0 <= i < |a| :: Lower(a[i]) == Lower(b[i])
  }

  /** The next letter at or after position `i` begins a word: no letter stands
      between it and the start of the name or the last hyphen. */
  predicate BeginsWord(name: string, i: nat)
    requires i <= |name|
  {
    i == 0 || name[i - 1] == '-' || (!IsLetter(name[i - 1]) && BeginsWord(name, i - 1))
  }

  function CanonicalChar(name: string, i: nat): char
    requires i < |name|
  {
    if !IsLetter(name[i]) then name[i]
    else if BeginsWord(name, i) then Upper(name[i])
    else Lower(name[i])
  }

  /** The canonical spelling: the first letter of each hyphenated word in upper case,
      every other letter in lower case. */
  function Canonical(name: string): (canon: string)
    ensures |canon| == |name|
  {
    seq(|name|, i requires 0 <= i < |name| => CanonicalChar(name, i))
  }

  /** Canonicalising changes nothing but the case of letters. */
  lemma CanonicalSameName(name: string)
    ensures SameName(Canonical(name), name)
  {}

  lemma {:induction false} SameNameSameWords(a: string, b: string, i: nat)
    requires SameName(a, b) && i <= |a|
    ensures BeginsWord(a, i) == BeginsWord(b, i)
  {
    if i > 0 {
      assert Lower(a[i - 1]) == Lower(b[i - 1]);
      SameNameSameWords(a, b, i - 1);
    }
  }

  /** Two names have one canonical form exactly when they are the same name. */
  lemma CanonicalIffSameName(a: string, b: string)
    ensures Canonical(a) == Canonical(b) <==> SameName(a, b)
  {
    CanonicalSameName(a);
    CanonicalSameName(b);
    if SameName(a, b) {
      forall i | 0 <= i < |a| ensures Canonical(a)[i] == Canonical(b)[i] {
        assert Lower(a[i]) == Lower(b[i]);
        SameNameSameWords(a, b, i);
      }
    }
    if Canonical(a) == Canonical(b) {
      assert |a| == |Canonical(a)| == |b|;
      forall i | 0 <= i < |a| ensures Lower(a[i]) == Lower(b[i]) {
        assert Lower(a[i]) == Lower(Canonical(a)[i]) == Lower(b[i]);
      }
    }
  }

  lemma CanonicalIdempotent(name: string)
    ensures Canonical(Canonical(name)) == Canonical(name)
  {
    CanonicalSameName(name);
    CanonicalIffSameName(Canonical(name), name);
  }

  /** A canonical name is made of token characters when the name is. */
  lemma CanonicalToken(name: string)
    ensures IsToken(Canonical(name)) <==> IsToken(name)
  {
    CanonicalSameName(name);
    var c := Canonical(name);
    forall i | 0 <= i < |name|
      ensures IsTokenChar(c[i]) <==> IsTokenChar(name[i])
    {
      assert Lower(c[i]) == Lower(name[i]);
    }
  }

  /** The field names the proxy itself looks up. */
  datatype KnownName = TransferEncoding | ContentLength | Host

  function Spelling(name: KnownName): string {
    match name
    case TransferEncoding => "Transfer-Encoding"
    case ContentLength => "Content-Length"
    case Host => "Host"
  }

  /** `values` holds the values of each canonical name, newest first; `order` the
      names in order of first insertion. */
  datatype HeaderData = HeaderData(values: map<string, seq<string>>, order: seq<string>)

  datatype Field = Field(name: string, value: string)

  const NO_HEADERS := HeaderData(map[], [])

  function Lookup(values: map<string, seq<string>>, name: string): seq<string> {
    if name in values then values[name] else []
  }

  function Find(h: HeaderData, name: string): seq<string> {
    Lookup(h.values, Canonical(name))
  }

  function Inserted(h: HeaderData, name: string, value: string): HeaderData {
    var canon := Canonical(name);
    HeaderData(
      h.values[canon := [value] + Lookup(h.values, canon)],
      if canon in h.values then h.order else h.order + [canon])
  }

  /** Inserts a list of fields, first to last. */
  function InsertAll(h: HeaderData, fields: seq<Field>): HeaderData {
    if fields == [] then h
    else
      var last := fields[|fields| - 1];
      Inserted(InsertAll(h, fields[..|fields| - 1]), last.name, last.value)
  }

  /** How many values the names in `order` have together. */
  function CountValues(values: map<string, seq<string>>, order: seq<string>): nat {
    if order == [] then 0
    else CountValues(values, order[..|order| - 1]) + |Lookup(values, order[|order| - 1])|
  }

  /** The multi-map and the list of names agree. */
  ghost predicate Consistent(h: HeaderData) {
    && (forall i, j | 0 <= i < j < |h.order| :: h.order[i] != h.order[j])
    && (forall n :: n in h.order <==> n in h.values)
    && (forall n | n in h.values :: h.values[n] != [] && Canonical(n) == n)
  }

  lemma InsertConsistent(h: HeaderData, name: string, value: string)
    requires Consistent(h)
    ensures Consistent(Inserted(h, name, value))
  {
    CanonicalIdempotent(name);
  }

  lemma {:induction false} InsertAllConsistent(h: HeaderData, fields: seq<Field>)
    requires Consistent(h)
    ensures Consistent(InsertAll(h, fields))
  {
    if fields != [] {
      var init, last := fields[..|fields| - 1], fields[|fields| - 1];
      InsertAllConsistent(h, init);
      InsertConsistent(InsertAll(h, init), last.name, last.value);
    }
  }

  /** The values given under a name, whatever its letter case, newest first. */
  function ValuesNewestFirst(fields: seq<Field>, name: string): seq<string> {
    if fields == [] then []
    else
      var last := fields[|fields| - 1];
      (if SameName(last.name, name) then [last.value] else [])
      + ValuesNewestFirst(fields[..|fields| - 1], name)
  }

  /** Lookup is case-insensitive and complete: after any inserts, a name has exactly
      the values that were inserted under it in any letter case, newest first. */
  lemma {:induction false} FindAfterInserts(fields: seq<Field>, name: string)
    ensures Find(InsertAll(NO_HEADERS, fields), name) == ValuesNewestFirst(fields, name)
  {
    if fields != [] {
      var last := fields[|fields| - 1];
      FindAfterInserts(fields[..|fields| - 1], name);
      CanonicalIffSameName(last.name, name);
    }
  }

  /** The position of the first field with a given canonical name. */
  function FirstUse(fields: seq<Field>, canon: string): (k: nat)
    ensures k <= |fields|
    ensures k < |fields| ==> Canonical(fields[k].name) == canon
    ensures forall i | 0 <= i < k :: Canonical(fields[i].name) != canon
  {
    if fields == [] || Canonical(fields[0].name) == canon then 0
    else 1 + FirstUse(fields[1..], canon)
  }

  lemma FirstUseUnique(fields: seq<Field>, canon: string, k: nat)
    requires k <= |fields|
    requires k < |fields| ==> Canonical(fields[k].name) == canon
    requires forall i | 0 <= i < k :: Canonical(fields[i].name) != canon
    ensures FirstUse(fields, canon) == k
  {
    var f := FirstUse(fields, canon);
    if f < k { assert false; }
    if k < f { assert false; }
  }

  lemma FirstUseOfLast(fields: seq<Field>, canon: string)
    requires fields != []
    ensures var init := fields[..|fields| - 1];
            FirstUse(fields, canon) ==
            if FirstUse(init, canon) < |init| then FirstUse(init, canon)
            else if Canonical(fields[|init|].name) == canon then |init|
            else |fields|
  {
    var init := fields[..|fields| - 1];
    var k := if FirstUse(init, canon) < |init| then FirstUse(init, canon)
             else if Canonical(fields[|init|].name) == canon then |init|
             else |fields|;
    forall i | 0 <= i < k ensures Canonical(fields[i].name) != canon {
      if i < |init| { assert fields[i] == init[i]; }
    }
    FirstUseUnique(fields, canon, k);
  }

  /** `names` lists the canonical names of `fields`, each once, by first use. */
  ghost predicate ListsFirstUses(fields: seq<Field>, names: seq<string>) {
    && (forall n :: n in names <==> FirstUse(fields, n) < |fields|)
    && (forall i, j | 0 <= i < j < |names| ::
          FirstUse(fields, names[i]) < FirstUse(fields, names[j]))
  }

  /** After any inserts the names are exactly the canonical names used, each listed
      once, in order of first use. */
  lemma {:induction false} NamesAfterInserts(fields: seq<Field>)
    ensures ListsFirstUses(fields, InsertAll(NO_HEADERS, fields).order)
  {
    if fields != [] {
      var init := fields[..|fields| - 1];
      NamesAfterInserts(init);
      InsertAllConsistent(NO_HEADERS, init);
      ListsOneMore(fields, InsertAll(NO_HEADERS, init));
    }
  }

  lemma ListsOneMore(fields: seq<Field>, before: HeaderData)
    requires fields != [] && Consistent(before)
    requires ListsFirstUses(fields[..|fields| - 1], before.order)
    ensures ListsFirstUses(fields, Inserted(before, fields[|fields| - 1].name, fields[|fields| - 1].value).order)
  {
    var init, last := fields[..|fields| - 1], fields[|fields| - 1];
    var names := Inserted(before, last.name, last.value).order;
    hide FirstUse, Canonical;
    forall n ensures n in names <==> FirstUse(fields, n) < |fields| {
      FirstUseOfLast(fields, n);
    }
    forall i, j | 0 <= i < j < |names|
      ensures FirstUse(fields, names[i]) < FirstUse(fields, names[j])
    {
      FirstUseOfLast(fields, names[i]);
      FirstUseOfLast(fields, names[j]);
      assert names[i] == before.order[i];
      assert names[i] in before.order;
      if j < |before.order| {
        assert names[j] == before.order[j];
        assert names[j] in before.order;
      }
    }
  }

  lemma {:induction false} CountUnchanged(a: map<string, seq<string>>, b: map<string, seq<string>>, order: seq<string>)
    requires forall i | 0 <= i < |order| :: Lookup(a, order[i]) == Lookup(b, order[i])
    ensures CountValues(a, order) == CountValues(b, order)
  {
    if order != [] {
      CountUnchanged(a, b, order[..|order| - 1]);
    }
  }

  lemma {:induction false} CountOneMore(values: map<string, seq<string>>, order: seq<string>,
                                        canon: string, value: string)
    requires canon in order
    requires forall i, j | 0 <= i < j < |order| :: order[i] != order[j]
    ensures CountValues(values[canon := [value] + Lookup(values, canon)], order) == CountValues(values, order) + 1
  {
    var more := values[canon := [value] + Lookup(values, canon)];
    var init := order[..|order| - 1];
    if order[|order| - 1] == canon {
      CountUnchanged(more, values, init);
    } else {
      var i :| 0 <= i < |order| && order[i] == canon;
      assert init[i] == canon;
      CountOneMore(values, init, canon, value);
    }
  }

  /** The number of values grows by one with every insert. */
  lemma InsertCounts(h: HeaderData, name: string, value: string)
    requires Consistent(h)
    ensures var h' := Inserted(h, name, value);
            CountValues(h'.values, h'.order) == CountValues(h.values, h.order) + 1
  {
    var h', canon := Inserted(h, name, value), Canonical(name);
    if canon in h.values {
      CountOneMore(h.values, h.order, canon, value);
    } else {
      assert h'.order[..|h'.order| - 1] == h.order;
      CountUnchanged(h.values, h'.values, h.order);
    }
  }

  lemma {:induction false} SizeAfterInserts(fields: seq<Field>)
    ensures var h := InsertAll(NO_HEADERS, fields);
            CountValues(h.values, h.order) == |fields|
  {
    if fields != [] {
      var init, last := fields[..|fields| - 1], fields[|fields| - 1];
      SizeAfterInserts(init);
      InsertAllConsistent(NO_HEADERS, init);
      InsertCounts(InsertAll(NO_HEADERS, init), last.name, last.value);
    }
  }

  class Headers {
    var values_: map<string, seq<string>>
    var insertion_order_: seq<string>

    /** The fields as a value. */
    function Data(): HeaderData
      reads this
    {
      HeaderData(values_, insertion_order_)
    }

    constructor ()
      ensures Data() == NO_HEADERS
    {
      values_, insertion_order_ := map[], [];
    }

    predicate Empty()
      reads this
    {
      values_ == map[]
    }

    /** The number of values held; with a consistent table this is the size of the
        multi-map. */
    function Size(): nat
      reads this
    {
      CountValues(values_, insertion_order_)
    }

    function FindByName(name: string): seq<string>
      reads this
    {
      Find(Data(), name)
    }

    function Names(): seq<string>
      reads this
    {
      insertion_order_
    }

    method Canonicalize(name: string) returns (canon: string)
      ensures canon == Canonical(name)
    {
      canon := name;
      var first := true;
      for i := 0 to |name|
        invariant |canon| == |name|
        invariant first == BeginsWord(name, i)
        invariant forall j | 0 <= j < |name| ::
                    canon[j] == if j < i then CanonicalChar(name, j) else name[j]
      {
        var c := name[i];
        if IsLetter(c) {
          if first {
            canon := canon[i := Upper(c)];
            first := false;
          } else {
            canon := canon[i := Lower(c)];
          }
        } else if c == '-' {
          first := true;
        }
      }
    }

    method Insert(name: string, value: string)
      modifies this
      ensures Data() == Inserted(old(Data()), name, value)
      ensures Consistent(old(Data())) ==> Size() == old(Size()) + 1
    {
      ghost var before := Data();
      var canon := Canonicalize(name);
      if canon !in values_ {
        insertion_order_ := insertion_order_ + [canon];
      }
      values_ := values_[canon := [value] + Lookup(values_, canon)];
      assert Data() == Inserted(before, name, value);
      if Consistent(before) {
        InsertCounts(before, name, value);
      }
    }
  }
}
