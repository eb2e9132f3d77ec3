/**
 What is refused and what is not: the kinds of scalars, and flow collections, which must be complete and must fill
 their line. Every prefix of a flow collection and every text behind one is refused.
 */
module YamlRefusals {
  import opened Text
  import opened YamlText
  import opened YamlGrammar
  import opened YamlTokens
  import opened YamlReadable
  import opened YamlFlow
  import opened YamlBlock
  import opened YamlDocument
  import opened YamlImage

  // ---------------------------------------------------------------- scalars

  /** Null in five spellings, two markers of block scalars, three of anchors and tags; anything else stays. */
  lemma ScalarKinds(raw: string, line: nat)
    ensures var t := Trim(raw);
            MakeScalar(raw, line, NoError) ==
            if t in ["", "~", "null", "Null", "NULL"] then (Null(line), NoError)
            else if t[0] in ['|', '>'] then (Null(line), Error(BlockScalar, line))
            else if t[0] in ['&', '*', '!'] then (Null(line), Error(AnchorOrTag, line))
            else (Scalar(line, Unquote(t)), NoError)
  {
  }

  /** The escapes: line break, tab, carriage return and the null character; any other character stands for itself. */
  lemma EscapesRead(c: char)
    ensures Unquote(['"', '\\', c, '"'])
         == [if c == 'n' then '\n' else if c == 't' then '\t' else if c == 'r' then '\r'
             else if c == '0' then '\0' else c]
  {
    var t := ['"', '\\', c, '"'];
    assert Trimmed(t);
    TrimmedStays(t);
    assert DoubleFrom(t, 3) == [];
  }

  /** A text behind a key is read as what it is, or refused at its line. */
  lemma OneField(t: string, r: Result)
    requires Trimmed(t) && Quiet(t, 0, Out, false) && r == Parse("k: " + t)
    ensures var v := Inline(t, 1, NoError);
            r == if v.1.Error? then Err(v.1.message, v.1.line) else Ok(Map(1, [Field("k", v.0)]))
  {
    var text := "k: " + t;
    WrittenIsToken("k");
    assert Written("k") == "k" && KeyText("k", t) == text;
    KeyLineIsClean(t, text);
    OneLine(text);
    KeyTextReads("k", "k", t, text);
    OneFieldBlock(t, text, ParseBlock([Line(0, 1, text)], 0, NoError));
  }

  lemma KeyLineIsClean(t: string, text: string)
    requires Trimmed(t) && Quiet(t, 0, Out, false) && text == KeyText("k", t) && KeyToken("k", "k")
    ensures Clean(Row(0, text))
  {
    KeyIsQuiet("k");
    QuietConcat("k" + ": ", t, false);
    KeyRow("k", "k", t, text);
    KeyTextParts("k", t, text);
  }

  lemma OneFieldBlock(t: string, text: string, b: Block)
    requires t != "" && !IsSeqItem(text) && KeyOf(text) == Key("k", t)
    requires b == ParseBlock([Line(0, 1, text)], 0, NoError)
    ensures var v := Inline(t, 1, NoError);
            b.err == v.1 && (v.1.NoError? ==> b == Block(Map(1, [Field("k", v.0)]), [], NoError))
  {
    var ls := [Line(0, 1, text)];
    assert ls[1..] == [];
    BlockOfFields(b, ls, 0);
    var v := FieldsGoOn(b, ls, 0, 1, [], "k", t);
    ValueOnLine(v, t, [], 0, 1);
    if v.err.NoError? {
      assert [] + [Field("k", v.node)] == [Field("k", v.node)];
      FieldsStop(b, [], 0, 1, [Field("k", v.node)], []);
    } else {
      assert MapField(ls, 0, NoError) == Next("k", v);
      ErrorStays(v.rest, 0, v.err, 1, [] + [Field("k", v.node)]);
    }
  }

  lemma ErrorStays(ls: seq<Line>, indent: nat, e: Error, line: nat, fields: seq<Field>)
    requires e.Error?
    ensures MapFields(ls, indent, e, line, fields).err == e
  {
  }

  // ---------------------------------------------------------------- what is read depends only on what was read

  lemma {:induction false} BlanksStable(s: string, x: string, i: nat)
    requires i <= |s| && SkipBlanks(s, i) < |s|
    ensures SkipBlanks(s + x, i) == SkipBlanks(s, i)
    decreases |s| - i
  {
    if IsBlank(s[i]) { BlanksStable(s, x, i + 1); }
  }

  lemma {:induction false} ScalarStable(s: string, x: string, i: nat, q: Quote)
    requires i <= |s| && ScalarEnd(s, i, q) < |s|
    ensures ScalarEnd(s + x, i, q) == ScalarEnd(s, i, q)
    decreases |s| - i
  {
    if ScalarEnd(s, i, q) != i { ScalarStable(s, x, i + 1, Step(q, s[i])); }
  }

  lemma SeparatorStable(s: string, x: string, i: nat, close: char)
    requires i <= |s| && !Separator(s, i, close).Neither?
    ensures Separator(s + x, i, close) == Separator(s, i, close)
  {
    BlanksStable(s, x, i);
  }

  /** The value was read up to something that ends it. */
  ghost predicate Closed(s: string, r: Parsed) { r.err.NoError? && (r.pos < |s| || r.node.Seq? || r.node.Map?) }

  lemma SliceStable(s: string, x: string, p: nat, end: nat)
    requires p <= end <= |s|
    ensures (s + x)[p..end] == s[p..end]
  {
  }

  lemma {:induction false} ValueStable(s: string, x: string, pos: nat, line: nat, r: Parsed)
    requires pos <= |s| && r == FlowValue(s, pos, line, NoError) && Closed(s, r)
    ensures FlowValue(s + x, pos, line, NoError) == r
    decreases |s| - pos, 1
  {
    var p := SkipBlanks(s, pos);
    BlanksStable(s, x, pos);
    if s[p] == '[' {
      ItemsStable(s, x, p + 1, line, [], r);
    } else if s[p] == '{' {
      FieldsStable(s, x, p + 1, line, [], r);
    } else {
      var end := ScalarEnd(s, p, Out);
      ScalarIs(s, pos, line, p, end);
      ScalarStable(s, x, p, Out);
      SliceStable(s, x, p, end);
      ScalarIs(s + x, pos, line, p, end);
    }
  }

  lemma ScalarIs(s: string, pos: nat, line: nat, p: nat, end: nat)
    requires pos <= |s| && p == SkipBlanks(s, pos) < |s| && !IsBracket(s[p]) && end == ScalarEnd(s, p, Out)
    ensures var v := MakeScalar(TrimRight(s[p..end]), line, NoError);
            FlowValue(s, pos, line, NoError) == Parsed(v.0, end, v.1)
  {
  }

  lemma {:induction false} ItemsStable(s: string, x: string, pos: nat, line: nat, ns: seq<Node>, r: Parsed)
    requires pos <= |s| && r == FlowItems(s, pos, line, NoError, ns) && r.err.NoError?
    ensures FlowItems(s + x, pos, line, NoError, ns) == r
    decreases |s| - pos, 2
  {
    var p := SkipBlanks(s, pos);
    BlanksStable(s, x, pos);
    if s[p] != ']' {
      var v := FlowValue(s, p, line, NoError);
      var next := Separator(s, v.pos, ']');
      SeparatorStable(s, x, v.pos, ']');
      ValueStable(s, x, p, line, v);
      if next.More? { ItemsStable(s, x, next.pos, line, ns + [v.node], r); }
    }
  }

  lemma KeyStable(s: string, x: string, p: nat, k: (string, nat))
    requires p <= |s| && k == FlowKey(s, p) && k.1 < |s|
    ensures FlowKey(s + x, p) == k && (s + x)[k.1] == s[k.1]
  {
    var end := ScalarEnd(s, p, Out);
    ScalarStable(s, x, p, Out);
    SliceStable(s, x, p, end);
    BlanksStable(s, x, end);
  }

  lemma EntryIs(s: string, p: nat, line: nat, k: (string, nat), v: Parsed)
    requires p <= |s| && k == FlowKey(s, p) && k.1 < |s| && s[k.1] == ':'
    requires v == FlowValue(s, k.1 + 1, line, NoError)
    ensures FlowField(s, p, line, NoError) == HasField(Field(k.0, v.node), v.pos, v.err)
  {
  }

  lemma {:induction false} FieldStable(s: string, x: string, p: nat, line: nat, f: FlowEntry)
    requires p <= |s| && f == FlowField(s, p, line, NoError) && f.HasField? && f.err.NoError? && f.pos < |s|
    ensures FlowField(s + x, p, line, NoError) == f
    decreases |s| - p, 1
  {
    var k := FlowKey(s, p);
    var v := FlowEntryIs(s, p, line, k, f);
    KeyStable(s, x, p, k);
    ValueStable(s, x, k.1 + 1, line, v);
    EntryIs(s + x, p, line, k, v);
  }

  lemma {:induction false} FieldsStable(s: string, x: string, pos: nat, line: nat, fs: seq<Field>, r: Parsed)
    requires pos <= |s| && r == FlowFields(s, pos, line, NoError, fs) && r.err.NoError?
    ensures FlowFields(s + x, pos, line, NoError, fs) == r
    decreases |s| - pos, 2
  {
    var p := SkipBlanks(s, pos);
    BlanksStable(s, x, pos);
    if s[p] != '}' {
      var f := FlowField(s, p, line, NoError);
      var next := Separator(s, f.pos, '}');
      SeparatorStable(s, x, f.pos, '}');
      FieldStable(s, x, p, line, f);
      if next.More? { FieldsStable(s, x, next.pos, line, fs + [f.field], r); }
    }
  }

  // ---------------------------------------------------------------- flow collections

  predicate AllBlank(s: string) { forall i | 0 <= i < |s| :: IsBlank(s[i]) }

  lemma {:induction false} SkipsAll(s: string, i: nat)
    requires i <= |s|
    ensures SkipBlanks(s, i) == |s| <==> forall j | i <= j < |s| :: IsBlank(s[j])
    decreases |s| - i
  {
    if i < |s| && IsBlank(s[i]) { SkipsAll(s, i + 1); }
  }

  /** The flow text of a collection, read as a value. */
  lemma CollectionReads(t: Tree, line: nat) returns (r: Parsed)
    requires FlowPrintable(t) && (t.List? || t.Dict?)
    ensures r == FlowValue(FlowText(t), 0, line, NoError) && ReadsTo(r, |FlowText(t)|, t) && Closed(FlowText(t), r)
  {
    r := FlowValue(FlowText(t), 0, line, NoError);
    AtSelf(FlowText(t));
    FlowReads(t, FlowText(t), 0, line, |FlowText(t)|, r);
  }

  /** Behind a flow collection only blanks may follow; anything else is refused. */
  lemma NothingBehindFlow(t: Tree, rest: string, line: nat)
    requires FlowPrintable(t) && (t.List? || t.Dict?)
    ensures var v := Flow(FlowText(t) + rest, line, NoError);
            && Denotes(v.0, t) && (v.1 == NoError <==> AllBlank(rest))
            && (!AllBlank(rest) ==> v.1 == Error(TrailingCharacters, line))
  {
    var s := FlowText(t);
    var r := CollectionReads(t, line);
    ValueStable(s, rest, 0, line, r);
    SkipsAll(s + rest, |s|);
    assert forall j | 0 <= j < |rest| :: (s + rest)[|s| + j] == rest[j];
    assert (forall j | |s| <= j < |s + rest| :: IsBlank((s + rest)[j])) <==> AllBlank(rest);
  }

  /** A flow collection that is cut short, anywhere, is refused. */
  lemma CutFlowIsRefused(t: Tree, n: nat, line: nat)
    requires FlowPrintable(t) && (t.List? || t.Dict?) && 0 < n < |FlowText(t)|
    ensures Flow(FlowText(t)[..n], line, NoError).1.Error?
  {
    var s, cut := FlowText(t), FlowText(t)[..n];
    var r := CollectionReads(t, line);
    var v := FlowValue(cut, 0, line, NoError);
    FlowStarts(t);
    assert cut[0] == s[0] && cut + s[n..] == s;
    if v.err.NoError? { ValueStable(cut, s[n..], 0, line, v); }
  }

  // ---------------------------------------------------------------- lines without a key

  /** The line of a mapping that is not a key and its value stops the mapping with an error of its own. */
  lemma BadLineStops(b: Block, ls: seq<Line>, indent: nat, line: nat, ns: seq<Field>, message: Message)
    requires FieldsGet(b, ls, indent, line, ns) && ls != [] && ReadKey(ls, indent) == Bad(message)
    ensures b.err == Error(message, ls[0].number)
  {
    assert MapField(ls, indent, NoError) == Stop(Error(message, ls[0].number));
  }

  /** A mapping and, at its indent, a line without a key or with an empty one: refused for just that. */
  lemma LineWithoutKeyIsRefused(t: Tree, x: string, rows: seq<Row>, r: Result)
    requires Printable(t) && IsBlock(t) && t.Dict? && rows == RowsOf(t) + [Row(0, x)]
    requires Clean(Row(0, x)) && !IsSeqItem(x) && KeyOf(x).Bad? && r == Parse(Join(Raws(rows), '\n'))
    ensures r.Err? && r.message == KeyOf(x).message
  {
    RootIsClean(t);
    CleanConcat(RowsOf(t), [Row(0, x)]);
    var ls := PrintedRows(rows);
    var b := ParseBlock(ls, ls[0].indent, NoError);
    FieldsRowsHead(t, 0, 0);
    FirstShown(ls, RowsOf(t), [Row(0, x)]);
    BlockOfFields(b, ls, 0);
    var all, rest := FieldsReach(t, 0, ls, ls[0].number, [], [Row(0, x)], b);
    assert FieldsRows(t, |all|, 0) + [Row(0, x)] == [Row(0, x)];
    assert ShowsRow(rest[0], [Row(0, x)][0]);
    BadLineStops(b, rest, 0, ls[0].number, all, KeyOf(x).message);
  }
}
