/** Whole documents: the rows of a printed tree are its lines, and parsing them gives the tree back. */
module YamlDocument {
  import opened Text
  import opened YamlText
  import opened YamlGrammar
  import opened YamlLines
  import opened YamlTokens
  import opened YamlFlow
  import opened YamlBlock

  // ---------------------------------------------------------------- rows that are lines

  /** A row that is read as itself. */
  ghost predicate Clean(r: Row) { Trimmed(r.text) && Quiet(r.text, 0, Out, false) && IsContent(r.text) }

  ghost predicate AllClean(rows: seq<Row>) { forall i | 0 <= i < |rows| :: Clean(rows[i]) }

  function Spaces(n: nat): string { if n == 0 then [] else [' '] + Spaces(n - 1) }

  function RawOf(r: Row): string { Spaces(r.indent) + r.text }

  lemma {:induction false} SpacesAreSpaces(n: nat)
    ensures |Spaces(n)| == n && forall i | 0 <= i < n :: Spaces(n)[i] == ' '
  {
    if n > 0 { SpacesAreSpaces(n - 1); }
  }

  lemma {:induction false} CountSpaces(s: string, n: nat, i: nat)
    requires i <= n <= |s| && (forall j | i <= j < n :: s[j] == ' ') && (n < |s| ==> s[n] != ' ')
    ensures SpacesAt(s, i) == n
    decreases n - i
  {
    if i < n { CountSpaces(s, n, i + 1); }
  }

  /** A clean row, indented, is read as its indentation and its text. */
  lemma RawReads(r: Row)
    requires Clean(r)
    ensures ReadRaw(RawOf(r)) == Content(r.indent, r.text) && Without(RawOf(r), '\n')
  {
    var raw := RawOf(r);
    SpacesAreSpaces(r.indent);
    assert raw[r.indent] == r.text[0];
    CountSpaces(raw, r.indent, 0);
    assert raw[r.indent..] == r.text;
    QuietHasNoComment(r.text, 0, Out);
    assert r.text[..|r.text|] == r.text;
    TrimmedStays(r.text);
  }

  // ---------------------------------------------------------------- printed rows are clean

  lemma OnLineIsQuiet(t: Tree)
    requires Printable(t) && OnLine(t) != ""
    ensures Quiet(OnLine(t), 0, Out, false)
  {
    if !t.Leaf? {
      OnLineInFlow(t);
      FlowIsQuiet(t);
      ShutIsQuiet(FlowText(t), 0, Out);
    }
  }

  lemma KeyRowIsClean(p: Pair, indent: nat)
    requires PairPrintable(p)
    ensures Clean(Row(indent, KeyText(p.written, OnLine(p.value))))
  {
    var value, text := OnLine(p.value), KeyText(p.written, OnLine(p.value));
    OnLineIsTrimmed(p.value);
    KeyRow(p.key, p.written, value, text);
    KeyIsQuiet(p.written);
    if value != "" {
      OnLineIsQuiet(p.value);
      QuietConcat(p.written + ": ", value, false);
    } else {
      ShutIsQuiet(p.written + ":", 0, Out);
    }
    KeyTextParts(p.written, value, text);
  }

  lemma DashIsClean(value: string, indent: nat)
    requires value == "" || (Trimmed(value) && Quiet(value, 0, Out, false))
    ensures Clean(Row(indent, DashText(value)))
  {
    var text := DashText(value);
    assert Quiet("- ", 2, Out, true) && Quiet("- ", 1, Out, true);
    if value != "" {
      QuietConcat("- ", value, false);
      assert text[|text| - 1] == value[|value| - 1] && text[1] == ' ';
    }
  }

  lemma CleanConcat(a: seq<Row>, b: seq<Row>)
    requires AllClean(a) && AllClean(b)
    ensures AllClean(a + b)
  {
  }

  lemma {:induction false} ItemsAreClean(t: Tree, k: nat, indent: nat)
    requires t.List? && !t.inline && k <= |t.items| && Printable(t)
    ensures AllClean(ItemsRows(t, k, indent))
    decreases t, 0, |t.items| - k
  {
    if k < |t.items| {
      PrintableItem(t, k);
      ItemIsClean(t.items[k], indent);
      ItemsAreClean(t, k + 1, indent);
      CleanConcat(ItemRows(t.items[k], indent), ItemsRows(t, k + 1, indent));
    }
  }

  lemma {:induction false} ItemIsClean(v: Tree, indent: nat)
    requires Printable(v)
    ensures AllClean(ItemRows(v, indent))
    decreases v, 1
  {
    if v.Dict? && IsBlock(v) {
      var m := FieldsRows(v, 0, indent + 2);
      FieldsAreClean(v, 0, indent + 2);
      assert Clean(m[0]);
      DashIsClean(m[0].text, indent);
    } else {
      OnLineIsTrimmed(v);
      if OnLine(v) != "" { OnLineIsQuiet(v); }
      DashIsClean(OnLine(v), indent);
      if IsBlock(v) { ItemsAreClean(v, 0, indent + 2); }
    }
  }

  lemma {:induction false} FieldsAreClean(t: Tree, k: nat, indent: nat)
    requires t.Dict? && !t.inline && k <= |t.fields| && Printable(t)
    ensures AllClean(FieldsRows(t, k, indent))
    decreases t, 0, |t.fields| - k
  {
    if k < |t.fields| {
      PrintableField(t, k);
      FieldIsClean(t.fields[k], indent);
      FieldsAreClean(t, k + 1, indent);
      CleanConcat(FieldRows(t.fields[k], indent), FieldsRows(t, k + 1, indent));
    }
  }

  lemma {:induction false} FieldIsClean(p: Pair, indent: nat)
    requires PairPrintable(p)
    ensures AllClean(FieldRows(p, indent))
    decreases p, 0
  {
    KeyRowIsClean(p, indent);
    ValueIsClean(p.value, indent);
    CleanConcat([Row(indent, KeyText(p.written, OnLine(p.value)))], RowsBelow(p.value, indent));
  }

  lemma {:induction false} ValueIsClean(v: Tree, indent: nat)
    requires Printable(v)
    ensures AllClean(RowsBelow(v, indent))
    decreases v, 1
  {
    if IsBlock(v) {
      if v.List? { ItemsAreClean(v, 0, indent); } else { FieldsAreClean(v, 0, indent + 2); }
    }
  }

  // ---------------------------------------------------------------- rows as lines

  function Raws(rows: seq<Row>): (raws: seq<string>)
    ensures |raws| == |rows| && forall i | 0 <= i < |rows| :: raws[i] == RawOf(rows[i])
  {
    seq(|rows|, i requires 0 <= i < |rows| => RawOf(rows[i]))
  }

  function Bodies(rows: seq<Row>): (rs: seq<Raw>)
    ensures |rs| == |rows| && forall i | 0 <= i < |rows| :: rs[i] == Content(rows[i].indent, rows[i].text)
  {
    seq(|rows|, i requires 0 <= i < |rows| => Content(rows[i].indent, rows[i].text))
  }

  lemma RowsAreRead(rows: seq<Row>)
    requires AllClean(rows)
    ensures AllReadAs(Raws(rows), Bodies(rows))
  {
    forall i | 0 <= i < |rows| ensures ReadAs(Raws(rows)[i], Bodies(rows)[i]) {
      assert Clean(rows[i]);
      RawReads(rows[i]);
    }
  }

  lemma ShowsAdd(lines: seq<Line>, done: seq<Row>, l: Line, r: Row)
    requires Shows(lines, done) && ShowsRow(l, r)
    ensures Shows(lines + [l], done + [r])
  {
    forall i | 0 <= i < |lines| + 1 ensures ShowsRow((lines + [l])[i], (done + [r])[i]) {
      if i < |lines| { assert ShowsRow(lines[i], done[i]); }
    }
  }

  /** Rows read one after another are shown one after another. */
  lemma {:induction false} RowsShow(rows: seq<Row>, k: nat, number: nat, lines: seq<Line>, done: seq<Row>)
    requires k <= |rows| && Shows(lines, done)
    ensures Shows(Contents(Bodies(rows)[k..], number, lines), done + rows[k..])
    decreases |rows| - k
  {
    if k == |rows| {
      assert done + rows[k..] == done;
    } else {
      var l := Line(rows[k].indent, number, rows[k].text);
      ShowsAdd(lines, done, l, rows[k]);
      RowsShow(rows, k + 1, number + 1, lines + [l], done + [rows[k]]);
      assert Bodies(rows)[k..][1..] == Bodies(rows)[k + 1..];
      assert done + rows[k..] == done + [rows[k]] + rows[k + 1..];
    }
  }

  lemma AllRowsShow(rows: seq<Row>, number: nat, lines: seq<Line>, done: seq<Row>)
    requires Shows(lines, done)
    ensures Shows(Contents(Bodies(rows), number, lines), done + rows)
  {
    RowsShow(rows, 0, number, lines, done);
    assert Bodies(rows)[0..] == Bodies(rows) && rows[0..] == rows;
  }

  // ---------------------------------------------------------------- the round trip

  function RowsOf(t: Tree): seq<Row>
    requires IsBlock(t)
  {
    if t.List? then ItemsRows(t, 0, 0) else FieldsRows(t, 0, 0)
  }

  function Print(t: Tree): string
    requires IsBlock(t)
  {
    RootHasRows(t);
    Join(Raws(RowsOf(t)), '\n')
  }

  lemma RootHasRows(t: Tree)
    requires IsBlock(t)
    ensures RowsOf(t) != []
  {
  }

  /** Lines that show a tree at the left margin are parsed as that tree. */
  lemma LinesRoundTrip(t: Tree, ls: seq<Line>)
    requires Printable(t) && IsBlock(t) && Shows(ls, RowsOf(t))
    ensures Outcome(Split(ls, NoError)).Ok? && Denotes(Outcome(Split(ls, NoError)).root, t)
  {
    RootHasRows(t);
    assert RowsOf(t) + [] == RowsOf(t);
    FirstShown(ls, RowsOf(t), []);
    var b := ParseBlock(ls, ls[0].indent, NoError);
    if t.List? {
      PrintableItem(t, 0);
      ItemRowsHead(t.items[0], 0);
      BlockOfItems(b, ls, 0);
      ItemsRoundTrip(t, 0, ls, ls[0].number, [], [], b);
    } else {
      FieldsRowsHead(t, 0, 0);
      BlockOfFields(b, ls, 0);
      FieldsRoundTrip(t, 0, ls, ls[0].number, [], [], b);
    }
  }

  /** The text of clean rows is split into lines that show them. */
  lemma PrintedRows(rows: seq<Row>) returns (ls: seq<Line>)
    requires rows != [] && AllClean(rows)
    ensures Shows(ls, rows) && LinesFrom(Join(Raws(rows), '\n'), 0, 1, []) == Split(ls, NoError)
  {
    RowsAreRead(rows);
    ls := Contents(Bodies(rows), 1, []);
    JoinReads(Raws(rows), Bodies(rows));
    CollectAll(Bodies(rows), 1, []);
    AllRowsShow(rows, 1, [], []);
    assert [] + rows == rows;
  }

  lemma RootIsClean(t: Tree)
    requires Printable(t) && IsBlock(t)
    ensures AllClean(RowsOf(t)) && RowsOf(t) != []
  {
    RootHasRows(t);
    if t.List? { ItemsAreClean(t, 0, 0); } else { FieldsAreClean(t, 0, 0); }
  }

  /** Parsing the printed text of any tree gives that tree. */
  lemma DocumentRoundTrip(t: Tree, r: Result)
    requires Printable(t) && IsBlock(t) && r == Parse(Print(t))
    ensures r.Ok? && Denotes(r.root, t)
  {
    RootIsClean(t);
    var ls := PrintedRows(RowsOf(t));
    LinesRoundTrip(t, ls);
  }
}
