/** What the parser can return: exactly the values that can be printed, each of them from some text. */
module YamlImage {
  import opened Text
  import opened YamlText
  import opened YamlGrammar
  import opened YamlLines
  import opened YamlTokens
  import opened YamlReadable
  import opened YamlFlow
  import opened YamlBlock
  import opened YamlDocument
  import opened YamlErrors
  import opened YamlValues

  // ---------------------------------------------------------------- scalars

  /** Behind a key or a dash every scalar is read: in double quotes, with a backslash where one may stand. */
  lemma EveryScalarReads(v: string)
    ensures Parse("k: " + DoubleQuoted(v)) == Ok(Map(1, [Field("k", Scalar(1, v))]))
    ensures Parse("- " + DoubleQuoted(v)) == Ok(Seq(1, [Scalar(1, v)]))
  {
    var t := DoubleQuoted(v);
    DoubleQuotedOnLine(v, t);
    TokenIsScalar(v, t, 1, NoError);
    KeyLineReads(v, t);
    DashLineReads(v, t);
  }

  /** A text that is one clean row is one line. */
  lemma OneLine(text: string)
    requires Clean(Row(0, text))
    ensures LinesFrom(text, 0, 1, []) == Split([Line(0, 1, text)], NoError)
  {
    RawReads(Row(0, text));
    assert RawOf(Row(0, text)) == text && text[0..|text|] == text;
    assert [] + [Line(0, 1, text)] == [Line(0, 1, text)];
  }

  lemma KeyBlock(text: string, key: string, value: string, n: Node)
    requires !IsSeqItem(text) && KeyOf(text) == Key(key, value) && value != ""
    requires Inline(value, 1, NoError) == (n, NoError)
    ensures ParseBlock([Line(0, 1, text)], 0, NoError) == Block(Map(1, [Field(key, n)]), [], NoError)
  {
    var ls := [Line(0, 1, text)];
    assert ls[1..] == [];
    var b := ParseBlock(ls, 0, NoError);
    BlockOfFields(b, ls, 0);
    var v := FieldsGoOn(b, ls, 0, 1, [], key, value);
    ValueOnLine(v, value, [], 0, 1);
    assert [] + [Field(key, n)] == [Field(key, n)];
    FieldsStop(b, [], 0, 1, [Field(key, n)], []);
  }

  lemma KeyLineReads(v: string, t: string)
    requires LineToken(v, t) && MakeScalar(t, 1, NoError) == (Scalar(1, v), NoError)
    ensures Parse("k: " + t) == Ok(Map(1, [Field("k", Scalar(1, v))]))
  {
    var text, p := "k: " + t, Pair("k", "k", Leaf(v, t));
    WrittenIsToken("k");
    assert Written("k") == "k" && KeyText("k", t) == text;
    KeyRowIsClean(p, 0);
    OneLine(text);
    KeyTextReads("k", "k", t, text);
    KeyBlock(text, "k", t, Scalar(1, v));
  }

  lemma DashBlock(text: string, value: string, n: Node)
    requires IsSeqItem(text) && Trim(text[1..]) == value != "" && Inline(value, 1, NoError) == (n, NoError)
    requires KeyEnd(value, 0, Out, 0) == |value|
    ensures ParseBlock([Line(0, 1, text)], 0, NoError) == Block(Seq(1, [n]), [], NoError)
  {
    var ls := [Line(0, 1, text)];
    assert ls[1..] == [];
    ValueItem(SeqItem(ls, 0, NoError), ls, 0, value);
    assert [] + [n] == [n];
    assert SeqItems([], 0, NoError, 1, [n]) == Block(Seq(1, [n]), [], NoError);
  }

  lemma DashLineReads(v: string, t: string)
    requires LineToken(v, t) && MakeScalar(t, 1, NoError) == (Scalar(1, v), NoError)
    ensures Parse("- " + t) == Ok(Seq(1, [Scalar(1, v)]))
  {
    var text := "- " + t;
    DashIsClean(t, 0);
    OneLine(text);
    DashRow(t, text);
    DashBlock(text, t, Scalar(1, v));
  }

  // ---------------------------------------------------------------- what the flow parser returns

  ghost predicate AllFitFlow(ns: seq<Node>) { forall i | 0 <= i < |ns| :: FitsFlow(ValueOf(ns[i])) }

  ghost predicate AllFieldsFitFlow(fs: seq<Field>) { forall i | 0 <= i < |fs| :: FitsFlowField(NamedOf(fs[i])) }

  lemma SeqFitsFlow(line: nat, ns: seq<Node>)
    requires AllFitFlow(ns)
    ensures FitsFlow(ValueOf(Seq(line, ns)))
  {
  }

  lemma MapFitsFlow(line: nat, fs: seq<Field>)
    requires AllFieldsFitFlow(fs)
    ensures FitsFlow(ValueOf(Map(line, fs)))
  {
  }

  lemma FlowScalarFits(s: string, p: nat, line: nat, end: nat, n: Node)
    requires p < |s| && !IsBlank(s[p]) && Without(s, '\n') && ScalarEnd(s, p, Out) == end < |s|
    requires n == MakeScalar(TrimRight(s[p..end]), line, NoError).0
    ensures FitsFlow(ValueOf(n))
  {
    ScalarMade(s[p..end], line);
    FlowReadIsWritable(s, p, end);
  }

  lemma {:induction false} FlowValueFits(s: string, pos: nat, line: nat, r: Parsed)
    requires pos <= |s| && Without(s, '\n') && r == FlowValue(s, pos, line, NoError) && r.err.NoError?
    requires r.pos < |s| || !r.node.Scalar?
    ensures FitsFlow(ValueOf(r.node))
    decreases |s| - pos, 1
  {
    var p := SkipBlanks(s, pos);
    if p < |s| && s[p] == '[' {
      FlowItemsFit(s, p + 1, line, [], r);
    } else if p < |s| && s[p] == '{' {
      FlowFieldsFit(s, p + 1, line, [], r);
    } else if p < |s| && r.pos < |s| {
      FlowScalarFits(s, p, line, r.pos, r.node);
    }
  }

  lemma {:induction false} FlowItemsFit(s: string, pos: nat, line: nat, ns: seq<Node>, r: Parsed)
    requires pos <= |s| && Without(s, '\n') && AllFitFlow(ns)
    requires r == FlowItems(s, pos, line, NoError, ns) && r.err.NoError?
    ensures FitsFlow(ValueOf(r.node))
    decreases |s| - pos, 2
  {
    var p := SkipBlanks(s, pos);
    if s[p] == ']' {
      SeqFitsFlow(line, ns);
    } else {
      var v := FlowValue(s, p, line, NoError);
      FlowValueFits(s, p, line, v);
      var more := ns + [v.node];
      SeqFitsFlow(line, more);
      var next := Separator(s, v.pos, ']');
      if next.More? { FlowItemsFit(s, next.pos, line, more, r); }
    }
  }

  lemma FlowKeyFits(s: string, p: nat, k: (string, nat))
    requires p < |s| && !IsBlank(s[p]) && Without(s, '\n') && k == FlowKey(s, p) && k.1 < |s|
    ensures FlowWritable(k.0)
  {
    var end := ScalarEnd(s, p, Out);
    TrimTwice(s[p..end]);
    FlowReadIsWritable(s, p, end);
  }

  lemma FlowEntryIs(s: string, p: nat, line: nat, k: (string, nat), f: FlowEntry) returns (v: Parsed)
    requires p <= |s| && k == FlowKey(s, p) && f == FlowField(s, p, line, NoError) && f.HasField?
    ensures k.1 < |s| && v == FlowValue(s, k.1 + 1, line, NoError) && f == HasField(Field(k.0, v.node), v.pos, v.err)
  {
    v := FlowValue(s, k.1 + 1, line, NoError);
  }

  lemma {:induction false} FlowFieldFits(s: string, p: nat, line: nat, f: FlowEntry)
    requires p < |s| && !IsBlank(s[p]) && Without(s, '\n') && f == FlowField(s, p, line, NoError)
    requires f.HasField? && f.err.NoError? && f.pos < |s|
    ensures FitsFlowField(NamedOf(f.field))
    decreases |s| - p, 1
  {
    var k := FlowKey(s, p);
    FlowKeyFits(s, p, k);
    var v := FlowEntryIs(s, p, line, k, f);
    FlowValueFits(s, k.1 + 1, line, v);
  }

  lemma {:induction false} FlowFieldsFit(s: string, pos: nat, line: nat, fs: seq<Field>, r: Parsed)
    requires pos <= |s| && Without(s, '\n') && AllFieldsFitFlow(fs)
    requires r == FlowFields(s, pos, line, NoError, fs) && r.err.NoError?
    ensures FitsFlow(ValueOf(r.node))
    decreases |s| - pos, 2
  {
    var p := SkipBlanks(s, pos);
    if s[p] == '}' {
      MapFitsFlow(line, fs);
    } else {
      var f := FlowField(s, p, line, NoError);
      FlowFieldFits(s, p, line, f);
      var more := fs + [f.field];
      MapFitsFlow(line, more);
      var next := Separator(s, f.pos, '}');
      if next.More? { FlowFieldsFit(s, next.pos, line, more, r); }
    }
  }

  // ---------------------------------------------------------------- what the block parser returns

  ghost predicate Unbroken(ls: seq<Line>) { forall i | 0 <= i < |ls| :: Without(ls[i].text, '\n') }

  ghost predicate AllFit(ns: seq<Node>) { forall i | 0 <= i < |ns| :: Fits(ValueOf(ns[i])) }

  ghost predicate AllFieldsFit(fs: seq<Field>) { forall i | 0 <= i < |fs| :: FieldFits(NamedOf(fs[i])) }

  lemma SeqFits(line: nat, ns: seq<Node>)
    requires AllFit(ns)
    ensures Fits(ValueOf(Seq(line, ns)))
  {
  }

  lemma MapFits(line: nat, fs: seq<Field>)
    requires AllFieldsFit(fs)
    ensures Fits(ValueOf(Map(line, fs))) && FieldsFit(ValueOf(Map(line, fs)))
  {
  }

  /** A collection that fits in flow fits. */
  lemma {:induction false} FlowFits(v: Value)
    requires FitsFlow(v)
    ensures Fits(v)
    decreases v
  {
    if v.Items? {
      forall i | 0 <= i < |v.items| ensures Fits(v.items[i]) { FlowFits(v.items[i]); }
    }
  }

  lemma InlineFits(s: string, line: nat)
    requires Without(s, '\n') && Inline(s, line, NoError).1.NoError?
    ensures Fits(ValueOf(Inline(s, line, NoError).0))
  {
    if s != [] && IsBracket(s[0]) {
      var r := FlowValue(s, 0, line, NoError);
      FlowValueFits(s, 0, line, r);
      FlowFits(ValueOf(r.node));
    }
  }

  lemma TrimUnbroken(s: string)
    requires Without(s, '\n')
    ensures Without(Trim(s), '\n')
  {
    var a, b := TrimIs(s);
    assert forall i | 0 <= i < |Trim(s)| :: Trim(s)[i] == s[a + i];
  }

  /** What a block parser was given and read without error: the value fits, and the rest is unbroken. */
  ghost predicate Good(b: Block) { Unbroken(b.rest) && (b.err.NoError? ==> Fits(ValueOf(b.node))) }

  /** A block has its collection's form, with at least one entry. */
  ghost predicate InBlockForm(n: Node) {
    (n.Seq? && n.items != [] && AllFit(n.items)) || (n.Map? && n.fields != [] && AllFieldsFit(n.fields))
  }

  lemma {:induction false} BlockIsGood(ls: seq<Line>, indent: nat, e: Error, b: Block)
    requires ls != [] && ls[0].indent == indent && Unbroken(ls) && b == ParseBlock(ls, indent, e)
    ensures Unbroken(b.rest) && (b.err.NoError? ==> InBlockForm(b.node))
    decreases |ls|, HeadSize(ls), 2
  {
    if IsSeqItem(ls[0].text) {
      ItemsAreGood(ls, indent, e, ls[0].number, [], b);
    } else {
      FieldsAreGood(ls, indent, e, ls[0].number, [], b);
    }
  }

  lemma FormFits(n: Node)
    requires InBlockForm(n)
    ensures Fits(ValueOf(n)) && FitsDocument(ValueOf(n))
  {
    if n.Seq? { SeqFits(n.line, n.items); } else { MapFits(n.line, n.fields); }
  }

  lemma {:induction false} ItemsAreGood(
    ls: seq<Line>, indent: nat, e: Error, line: nat, ns: seq<Node>, b: Block)
    requires Unbroken(ls) && (e.NoError? ==> AllFit(ns)) && b == SeqItems(ls, indent, e, line, ns)
    ensures Unbroken(b.rest) && b.node.Seq? && |b.node.items| >= |ns| && (b.err.NoError? ==> AllFit(b.node.items))
    ensures AtItem(ls, indent) && b.err.NoError? ==> b.node.items != []
    decreases |ls|, HeadSize(ls), 1
  {
    if e.NoError? && AtItem(ls, indent) {
      var item := SeqItem(ls, indent, e);
      ItemIsGood(ls, indent, e, item);
      ItemsAreGood(item.rest, indent, item.err, line, ns + [item.node], b);
    }
  }

  lemma {:induction false} ItemIsGood(ls: seq<Line>, indent: nat, e: Error, b: Block)
    requires Unbroken(ls) && AtItem(ls, indent) && e.NoError? && b == SeqItem(ls, indent, e)
    ensures Good(b)
    decreases |ls|, HeadSize(ls), 0
  {
    var ln, tl := ls[0], ls[1..];
    var rest := Trim(ln.text[1..]);
    TrimUnbroken(ln.text[1..]);
    if rest == [] {
      if tl != [] && tl[0].indent > indent {
        BlockIsGood(tl, tl[0].indent, e, b);
        if b.err.NoError? { FormFits(b.node); }
      }
    } else if !IsBracket(rest[0]) && KeyEnd(rest, 0, Out, 0) < |rest| {
      FieldsAreGood([Line(indent + 2, ln.number, rest)] + tl, indent + 2, e, ln.number, [], b);
      if b.err.NoError? { MapFits(b.node.line, b.node.fields); }
    } else if b.err.NoError? {
      InlineFits(rest, ln.number);
    }
  }

  lemma {:induction false} FieldsAreGood(
    ls: seq<Line>, indent: nat, e: Error, line: nat, fs: seq<Field>, b: Block)
    requires Unbroken(ls) && (e.NoError? ==> AllFieldsFit(fs)) && b == MapFields(ls, indent, e, line, fs)
    ensures Unbroken(b.rest) && b.node.Map? && |b.node.fields| >= |fs|
    ensures b.err.NoError? ==> AllFieldsFit(b.node.fields)
    ensures ls != [] && ls[0].indent == indent && !IsSeqItem(ls[0].text) && b.err.NoError? ==> b.node.fields != []
    decreases |ls|, HeadSize(ls), 1
  {
    var f := MapField(ls, indent, e);
    if f.Next? {
      FieldIsGood(ls, indent, e, f);
      FieldsAreGood(f.value.rest, indent, f.value.err, line, fs + [Field(f.key, f.value.node)], b);
    }
  }

  lemma {:induction false} FieldIsGood(ls: seq<Line>, indent: nat, e: Error, f: Entry)
    requires Unbroken(ls) && f == MapField(ls, indent, e) && f.Next?
    ensures Unbroken(f.value.rest)
    ensures f.value.err.NoError? ==> FieldFits(NamedOf(Field(f.key, f.value.node)))
    decreases |ls|, HeadSize(ls), 0
  {
    var k := ReadKey(ls, indent);
    KeyReadIsWritable(ls[0].text, k);
    TrimUnbroken(ls[0].text[KeyEnd(ls[0].text, 0, Out, 0) + 1..]);
    ValueIsGood(k.value, ls[1..], indent, e, ls[0].number, f.value);
  }

  lemma {:induction false} ValueIsGood(
    value: string, tl: seq<Line>, indent: nat, e: Error, number: nat, b: Block)
    requires Unbroken(tl) && Without(value, '\n') && b == FieldValue(value, tl, indent, e, number)
    ensures Good(b)
    decreases |tl|, HeadSize(tl), 3
  {
    if value != [] {
      if b.err.NoError? { InlineFits(value, number); }
    } else if tl != [] && tl[0].indent > indent {
      BlockIsGood(tl, tl[0].indent, e, b);
      if b.err.NoError? { FormFits(b.node); }
    } else if AtItem(tl, indent) {
      ItemsAreGood(tl, indent, e, tl[0].number, [], b);
      if b.err.NoError? { FormFits(b.node); }
    }
  }

  // ---------------------------------------------------------------- documents

  lemma BodyUnbroken(raw: string)
    requires Without(raw, '\n') && ReadRaw(raw).Content?
    ensures Without(ReadRaw(raw).body, '\n')
  {
    var s := raw[SpacesAt(raw, 0)..];
    var b := TrimRightIs(s[..CommentAt(s, 0, Out)]);
  }

  lemma {:induction false} CollectUnbroken(raws: seq<string>, number: nat, lines: seq<Line>)
    requires NoBreaks(raws) && Unbroken(lines)
    ensures Unbroken(Collect(ReadAll(raws), number, lines).lines)
  {
    if raws != [] && !ReadRaw(raws[0]).Tabbed? {
      var r := ReadRaw(raws[0]);
      if r.Content? { BodyUnbroken(raws[0]); }
      CollectUnbroken(raws[1..], number + 1, Add(lines, r, number));
      assert ReadAll(raws)[0] == r && ReadAll(raws)[1..] == ReadAll(raws[1..]);
    }
  }

  /** Whatever is parsed without error can be printed. */
  lemma ParsedFits(text: string, r: Result)
    requires r == Parse(text) && r.Ok?
    ensures FitsDocument(ValueOf(r.root))
  {
    var s := LinesFrom(text, 0, 1, []);
    TextIsCollected(text);
    JoinOfRawLines(text);
    CollectUnbroken(RawLines(text), 1, []);
    if s.lines != [] {
      BlockIsGood(s.lines, s.lines[0].indent, s.err, ParseBlock(s.lines, s.lines[0].indent, s.err));
      FormFits(r.root);
    }
  }

  /** The parser returns a value for some text if and only if the value fits a document. */
  lemma ParserImage(v: Value)
    ensures (exists text :: Parse(text).Ok? && ValueOf(Parse(text).root) == v) <==> FitsDocument(v)
  {
    if FitsDocument(v) {
      YamlValues.ValueRoundTrip(v, Parse(Document(v)));
    }
    forall text | Parse(text).Ok? && ValueOf(Parse(text).root) == v ensures FitsDocument(v) {
      ParsedFits(text, Parse(text));
    }
  }

  /** Printing what was parsed and parsing again changes nothing. */
  lemma PrintedAgain(text: string, r: Result)
    requires r == Parse(text) && r.Ok?
    ensures FitsDocument(ValueOf(r.root))
    ensures var again := Parse(Document(ValueOf(r.root))); again.Ok? && ValueOf(again.root) == ValueOf(r.root)
  {
    ParsedFits(text, r);
    YamlValues.ValueRoundTrip(ValueOf(r.root), Parse(Document(ValueOf(r.root))));
  }
}
