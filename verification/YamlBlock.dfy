/**
 Block layout and its round trip.

 A tree is printed as rows: sequences under a key at the key's own indent, a mapping inside a sequence starting
 behind the dash, everything else two columns further in. Reading the rows gives the tree back.
 */
module YamlBlock {
  import opened Text
  import opened YamlText
  import opened YamlGrammar
  import opened YamlTokens
  import opened YamlFlow

  /** A printed line. */
  datatype Row = Row(indent: nat, text: string)

  /** Collections printed over several rows; empty ones have no block form. */
  predicate IsBlock(t: Tree) {
    (t.List? && t.items != [] && !t.inline) || (t.Dict? && t.fields != [] && !t.inline)
  }

  /** What stands on the line of the key or dash. */
  function OnLine(t: Tree): string {
    if t.Nil? || IsBlock(t) then "" else FlowText(t)
  }

  function KeyText(written: string, value: string): string {
    if value == "" then written + ":" else written + ": " + value
  }

  function DashText(value: string): string { if value == "" then "-" else "- " + value }

  function ItemsRows(t: Tree, k: nat, indent: nat): seq<Row>
    requires t.List? && k <= |t.items|
    decreases t, 0, |t.items| - k
  {
    if k == |t.items| then [] else ItemRows(t.items[k], indent) + ItemsRows(t, k + 1, indent)
  }

  function ItemRows(v: Tree, indent: nat): (rows: seq<Row>)
    ensures rows != []
    decreases v, 1
  {
    if v.Dict? && IsBlock(v) then
      var m := FieldsRows(v, 0, indent + 2);
      [Row(indent, DashText(m[0].text))] + m[1..]
    else [Row(indent, DashText(OnLine(v)))] + (if IsBlock(v) then ItemsRows(v, 0, indent + 2) else [])
  }

  function FieldsRows(t: Tree, k: nat, indent: nat): (rows: seq<Row>)
    requires t.Dict? && k <= |t.fields|
    ensures k < |t.fields| ==> rows != []
    decreases t, 0, |t.fields| - k
  {
    if k == |t.fields| then [] else FieldRows(t.fields[k], indent) + FieldsRows(t, k + 1, indent)
  }

  function FieldRows(p: Pair, indent: nat): (rows: seq<Row>)
    ensures rows != []
    decreases p, 2
  {
    [Row(indent, KeyText(p.written, OnLine(p.value)))] + RowsBelow(p.value, indent)
  }

  /** The rows below a key. */
  function RowsBelow(v: Tree, indent: nat): seq<Row>
    decreases v, 1
  {
    if !IsBlock(v) then [] else if v.List? then ItemsRows(v, 0, indent) else FieldsRows(v, 0, indent + 2)
  }

  // ---------------------------------------------------------------- lines that show rows

  ghost predicate ShowsRow(l: Line, r: Row) { l.indent == r.indent && l.text == r.text }

  ghost predicate Shows(ls: seq<Line>, rows: seq<Row>) {
    |ls| == |rows| && forall i | 0 <= i < |ls| :: ShowsRow(ls[i], rows[i])
  }

  lemma ShowsTail(ls: seq<Line>, r: Row, rows: seq<Row>)
    requires Shows(ls, [r] + rows)
    ensures ls != [] && ShowsRow(ls[0], r) && Shows(ls[1..], rows)
  {
    var all := [r] + rows;
    assert ShowsRow(ls[0], all[0]);
    forall i | 0 <= i < |rows| ensures ShowsRow(ls[1..][i], rows[i]) {
      assert ShowsRow(ls[i + 1], all[i + 1]);
    }
  }

  lemma ShowsCons(l: Line, ls: seq<Line>, r: Row, rows: seq<Row>)
    requires ShowsRow(l, r) && Shows(ls, rows)
    ensures Shows([l] + ls, [r] + rows)
  {
    forall i | 0 <= i < |ls| + 1 ensures ShowsRow(([l] + ls)[i], ([r] + rows)[i]) {
      if i > 0 { assert ShowsRow(ls[i - 1], rows[i - 1]); }
    }
  }

  lemma FirstShown(ls: seq<Line>, rows: seq<Row>, after: seq<Row>)
    requires Shows(ls, rows + after) && rows != []
    ensures ls != [] && ShowsRow(ls[0], rows[0])
  {
    assert ShowsRow(ls[0], (rows + after)[0]);
  }

  /** What may follow an item, the items of a sequence, and the fields of a mapping, at an indent. */
  ghost predicate NotDeeper(rows: seq<Row>, indent: nat) { rows == [] || rows[0].indent <= indent }

  ghost predicate EndsItems(rows: seq<Row>, indent: nat) {
    NotDeeper(rows, indent) && (rows == [] || rows[0].indent < indent || !IsSeqItem(rows[0].text))
  }

  ghost predicate EndsFields(rows: seq<Row>, indent: nat) { rows == [] || rows[0].indent < indent }

  // ---------------------------------------------------------------- one row

  lemma {:induction false} ItemsTextEnds(t: Tree, k: nat)
    requires t.List? && k <= |t.items|
    ensures ItemsText(t, k) != [] && ItemsText(t, k)[|ItemsText(t, k)| - 1] == ']'
    decreases |t.items| - k
  {
    if k < |t.items| { ItemsTextEnds(t, k + 1); }
  }

  lemma {:induction false} FieldsTextEnds(t: Tree, k: nat)
    requires t.Dict? && k <= |t.fields|
    ensures FieldsText(t, k) != [] && FieldsText(t, k)[|FieldsText(t, k)| - 1] == '}'
    decreases |t.fields| - k
  {
    if k < |t.fields| { FieldsTextEnds(t, k + 1); }
  }

  lemma FlowIsTrimmed(t: Tree)
    requires Printable(t) && !t.Nil?
    ensures Trimmed(FlowText(t))
  {
    if t.List? { ItemsTextEnds(t, 0); } else if t.Dict? { FieldsTextEnds(t, 0); }
  }

  /** What stands on a line and is no scalar is printable in flow. */
  lemma OnLineInFlow(t: Tree)
    requires Printable(t) && OnLine(t) != "" && !t.Leaf?
    ensures FlowPrintable(t) && IsBracket(FlowText(t)[0])
  {
  }

  /** A value on a line is read as what it denotes. */
  lemma OnLineReads(t: Tree, number: nat, out: (Node, Error))
    requires Printable(t) && OnLine(t) != "" && out == Inline(OnLine(t), number, NoError)
    ensures out.1 == NoError && Denotes(out.0, t)
  {
    if t.Leaf? {
      TokenIsScalar(t.value, t.written, number, NoError);
    } else {
      OnLineInFlow(t);
      FlowRoundTrip(t, number);
    }
  }

  /** A written key ends at its colon. */
  lemma KeyEnds(key: string, written: string, text: string)
    requires KeyToken(key, written) && |text| > |written| && text[..|written|] == written && text[|written|] == ':'
    requires |text| == |written| + 1 || text[|written| + 1] == ' '
    ensures KeyEnd(text, 0, Out, 0) == |written|
  {
    assert text[..|written| + 1] == written + ":";
    KeyInLine(written, written + ":", text, 0, Out, 0);
  }

  lemma KeyTextParts(written: string, value: string, text: string)
    requires written != [] && text == KeyText(written, value) && (value == "" || Trimmed(value))
    ensures |text| > |written| && text[..|written|] == written && text[|written|] == ':'
    ensures |text| == |written| + 1 || text[|written| + 1] == ' '
    ensures Trim(text[|written| + 1..]) == value && text[0] == written[0]
    ensures !IsTrailing(text[|text| - 1])
  {
    if value == "" {
      assert text[|written| + 1..] == [];
    } else {
      assert text[|written| + 1..] == [' '] + value;
      TrimAfterSpace(value);
      assert text[|text| - 1] == value[|value| - 1];
    }
  }

  /** A key's row: trimmed, no item, and split at its colon into key and value. */
  lemma KeyRow(key: string, written: string, value: string, text: string)
    requires KeyToken(key, written) && text == KeyText(written, value) && (value == "" || Trimmed(value))
    ensures Trimmed(text) && !IsSeqItem(text) && !IsBracket(text[0])
    ensures KeyEnd(text, 0, Out, 0) == |written| < |text|
    ensures Unquote(text[..|written|]) == key && Trim(text[|written| + 1..]) == value
  {
    KeyTextParts(written, value, text);
    KeyEnds(key, written, text);
  }

  lemma KeyTextReads(key: string, written: string, value: string, text: string)
    requires key != "" && KeyToken(key, written) && text == KeyText(written, value) && (value == "" || Trimmed(value))
    ensures !IsSeqItem(text) && KeyOf(text) == Key(key, value)
  {
    KeyRow(key, written, value, text);
  }

  lemma KeyRowReads(key: string, written: string, value: string, ls: seq<Line>, indent: nat)
    requires key != "" && KeyToken(key, written) && (value == "" || Trimmed(value))
    requires ls != [] && ls[0].indent == indent && ls[0].text == KeyText(written, value)
    ensures ReadKey(ls, indent) == Key(key, value)
  {
    KeyTextReads(key, written, value, ls[0].text);
  }

  /** A dash and what stands behind it. */
  lemma DashRow(value: string, text: string)
    requires text == DashText(value) && (value == "" || Trimmed(value))
    ensures IsSeqItem(text) && Trim(text[1..]) == value
  {
    if value == "" {
      assert text[1..] == [];
    } else {
      assert text[1..] == [' '] + value;
      TrimAfterSpace(value);
    }
  }

  lemma OnLineIsTrimmed(t: Tree)
    requires Printable(t)
    ensures OnLine(t) == "" || Trimmed(OnLine(t))
  {
    if OnLine(t) != "" { FlowIsTrimmed(t); }
  }

  // ---------------------------------------------------------------- first rows

  lemma ItemRowsHead(v: Tree, indent: nat)
    requires Printable(v)
    ensures ItemRows(v, indent)[0].indent == indent && IsSeqItem(ItemRows(v, indent)[0].text)
  {
    if v.Dict? && IsBlock(v) {
      var m := FieldsRows(v, 0, indent + 2);
      FieldsRowsHead(v, 0, indent + 2);
      DashRow(m[0].text, DashText(m[0].text));
    } else {
      OnLineIsTrimmed(v);
      DashRow(OnLine(v), DashText(OnLine(v)));
    }
  }

  lemma FieldsRowsHead(t: Tree, k: nat, indent: nat)
    requires t.Dict? && !t.inline && k < |t.fields| && Printable(t)
    ensures var head := FieldsRows(t, k, indent)[0];
      && head == Row(indent, KeyText(t.fields[k].written, OnLine(t.fields[k].value)))
      && Trimmed(head.text) && !IsSeqItem(head.text) && !IsBracket(head.text[0])
      && KeyEnd(head.text, 0, Out, 0) < |head.text|
  {
    var p := t.fields[k];
    assert PairPrintable(p);
    OnLineIsTrimmed(p.value);
    KeyRow(p.key, p.written, OnLine(p.value), KeyText(p.written, OnLine(p.value)));
  }

  // ---------------------------------------------------------------- what a reading gives

  ghost predicate ItemsGet(b: Block, ls: seq<Line>, indent: nat, line: nat, ns: seq<Node>) {
    b == SeqItems(ls, indent, NoError, line, ns)
  }

  ghost predicate ItemGets(b: Block, ls: seq<Line>, indent: nat) {
    AtItem(ls, indent) && b == SeqItem(ls, indent, NoError)
  }

  ghost predicate FieldsGet(b: Block, ls: seq<Line>, indent: nat, line: nat, ns: seq<Field>) {
    b == MapFields(ls, indent, NoError, line, ns)
  }

  ghost predicate ValueGets(b: Block, value: string, tl: seq<Line>, indent: nat, number: nat) {
    b == FieldValue(value, tl, indent, NoError, number)
  }

  /** The tree was read, without error, up to the rows that follow it. */
  ghost predicate Got(b: Block, t: Tree, after: seq<Row>) {
    b.err == NoError && Denotes(b.node, t) && Shows(b.rest, after)
  }

  lemma ItemsStop(b: Block, ls: seq<Line>, indent: nat, line: nat, ns: seq<Node>, after: seq<Row>)
    requires ItemsGet(b, ls, indent, line, ns) && Shows(ls, after) && EndsItems(after, indent)
    ensures b == Block(Seq(line, ns), ls, NoError)
  {
    if ls != [] { assert ShowsRow(ls[0], after[0]); }
  }

  lemma ItemsGoOn(b: Block, ls: seq<Line>, indent: nat, line: nat, ns: seq<Node>) returns (item: Block)
    requires ItemsGet(b, ls, indent, line, ns) && AtItem(ls, indent)
    ensures ItemGets(item, ls, indent)
    ensures item.err == NoError ==> ItemsGet(b, item.rest, indent, line, ns + [item.node])
  {
    item := SeqItem(ls, indent, NoError);
  }

  lemma FieldsStop(b: Block, ls: seq<Line>, indent: nat, line: nat, ns: seq<Field>, after: seq<Row>)
    requires FieldsGet(b, ls, indent, line, ns) && Shows(ls, after) && EndsFields(after, indent)
    ensures b == Block(Map(line, ns), ls, NoError)
  {
    if ls != [] { assert ShowsRow(ls[0], after[0]); }
    assert MapField(ls, indent, NoError) == Stop(NoError);
  }

  lemma FieldsGoOn(b: Block, ls: seq<Line>, indent: nat, line: nat, ns: seq<Field>, key: string, value: string)
    returns (v: Block)
    requires FieldsGet(b, ls, indent, line, ns) && ls != [] && ReadKey(ls, indent) == Key(key, value)
    ensures ValueGets(v, value, ls[1..], indent, ls[0].number)
    ensures v.err == NoError ==> FieldsGet(b, v.rest, indent, line, ns + [Field(key, v.node)])
  {
    v := FieldValue(value, ls[1..], indent, NoError, ls[0].number);
    assert MapField(ls, indent, NoError) == Next(key, v);
  }

  lemma PrintableItem(t: Tree, k: nat)
    requires t.List? && !t.inline && k < |t.items| && Printable(t)
    ensures Printable(t.items[k])
  {
  }

  lemma PrintableField(t: Tree, k: nat)
    requires t.Dict? && !t.inline && k < |t.fields| && Printable(t)
    ensures PairPrintable(t.fields[k])
  {
  }

  // ---------------------------------------------------------------- the round trip, item by item

  lemma Associates(a: seq<Row>, b: seq<Row>, c: seq<Row>)
    ensures (a + b) + c == a + (b + c)
  {
  }

  lemma ItemsNotDeeper(t: Tree, k: nat, indent: nat, after: seq<Row>)
    requires t.List? && !t.inline && k <= |t.items| && Printable(t) && NotDeeper(after, indent)
    ensures NotDeeper(ItemsRows(t, k, indent) + after, indent)
  {
    if k < |t.items| {
      PrintableItem(t, k);
      ItemRowsHead(t.items[k], indent);
      assert (ItemsRows(t, k, indent) + after)[0] == ItemRows(t.items[k], indent)[0];
    } else {
      assert ItemsRows(t, k, indent) + after == after;
    }
  }

  /** What follows item `k`: the other items, then whatever follows the sequence. */
  lemma AfterItem(t: Tree, k: nat, indent: nat, after: seq<Row>)
    requires t.List? && !t.inline && k < |t.items| && Printable(t) && NotDeeper(after, indent)
    ensures ItemsRows(t, k, indent) + after == ItemRows(t.items[k], indent) + (ItemsRows(t, k + 1, indent) + after)
    ensures NotDeeper(ItemsRows(t, k + 1, indent) + after, indent)
  {
    ItemsNotDeeper(t, k + 1, indent, after);
    Associates(ItemRows(t.items[k], indent), ItemsRows(t, k + 1, indent), after);
  }

  lemma AfterField(t: Tree, k: nat, indent: nat, after: seq<Row>)
    requires t.Dict? && !t.inline && k < |t.fields| && Printable(t) && EndsItems(after, indent)
    ensures FieldsRows(t, k, indent) + after == FieldRows(t.fields[k], indent) + (FieldsRows(t, k + 1, indent) + after)
    ensures EndsItems(FieldsRows(t, k + 1, indent) + after, indent)
  {
    if k + 1 < |t.fields| {
      FieldsRowsHead(t, k + 1, indent);
      assert (FieldsRows(t, k + 1, indent) + after)[0] == FieldsRows(t, k + 1, indent)[0];
    } else {
      assert FieldsRows(t, k + 1, indent) + after == after;
    }
  }

  /** The lines show an item, the items from `k` on, a field, the fields from `k` on, a value; then `after`. */
  ghost predicate ShowItem(ls: seq<Line>, v: Tree, indent: nat, after: seq<Row>) {
    Shows(ls, ItemRows(v, indent) + after)
  }

  ghost predicate ShowItems(ls: seq<Line>, t: Tree, k: nat, indent: nat, after: seq<Row>) {
    t.List? && !t.inline && k <= |t.items| && Shows(ls, ItemsRows(t, k, indent) + after)
  }

  ghost predicate ShowField(ls: seq<Line>, p: Pair, indent: nat, after: seq<Row>) {
    Shows(ls, FieldRows(p, indent) + after)
  }

  ghost predicate ShowFields(ls: seq<Line>, t: Tree, k: nat, indent: nat, after: seq<Row>) {
    t.Dict? && !t.inline && k <= |t.fields| && Shows(ls, FieldsRows(t, k, indent) + after)
  }

  ghost predicate ShowBelow(ls: seq<Line>, v: Tree, indent: nat, after: seq<Row>) {
    Shows(ls, RowsBelow(v, indent) + after)
  }

  lemma AtFirstItem(t: Tree, k: nat, indent: nat, ls: seq<Line>, after: seq<Row>)
    requires ShowItems(ls, t, k, indent, after) && k < |t.items| && Printable(t) && NotDeeper(after, indent)
    ensures AtItem(ls, indent)
    ensures ShowItem(ls, t.items[k], indent, ItemsRows(t, k + 1, indent) + after)
    ensures NotDeeper(ItemsRows(t, k + 1, indent) + after, indent)
  {
    PrintableItem(t, k);
    ItemRowsHead(t.items[k], indent);
    AfterItem(t, k, indent, after);
    var rows := ItemsRows(t, k, indent) + after;
    assert rows[0] == ItemRows(t.items[k], indent)[0];
    assert ShowsRow(ls[0], rows[0]);
  }

  lemma NoItemsLeft(t: Tree, indent: nat, ls: seq<Line>, line: nat, ns: seq<Node>, after: seq<Row>, b: Block)
    requires ItemsSoFar(ns, t) && |ns| == |t.items| && EndsItems(after, indent)
    requires ShowItems(ls, t, |ns|, indent, after) && ItemsGet(b, ls, indent, line, ns)
    ensures Got(b, t, after)
  {
    assert ItemsRows(t, |ns|, indent) + after == after;
    ItemsStop(b, ls, indent, line, ns, after);
    AllItems(ns, t, line);
  }

  lemma {:induction false} ItemStep(
    t: Tree, indent: nat, ls: seq<Line>, line: nat, ns: seq<Node>, after: seq<Row>, b: Block) returns (item: Block)
    requires Printable(t) && ItemsSoFar(ns, t) && |ns| < |t.items| && EndsItems(after, indent)
    requires ShowItems(ls, t, |ns|, indent, after) && ItemsGet(b, ls, indent, line, ns)
    ensures ItemsSoFar(ns + [item.node], t)
    ensures ShowItems(item.rest, t, |ns| + 1, indent, after) && ItemsGet(b, item.rest, indent, line, ns + [item.node])
    decreases t, 0
  {
    var k := |ns|;
    AtFirstItem(t, k, indent, ls, after);
    item := ItemsGoOn(b, ls, indent, line, ns);
    PrintableItem(t, k);
    ItemRoundTrip(t.items[k], indent, ls, ItemsRows(t, k + 1, indent) + after, item);
    OneMoreItem(ns, t, item.node);
  }

  lemma {:induction false} ItemsRoundTrip(
    t: Tree, indent: nat, ls: seq<Line>, line: nat, ns: seq<Node>, after: seq<Row>, b: Block)
    requires Printable(t) && ItemsSoFar(ns, t) && EndsItems(after, indent)
    requires ShowItems(ls, t, |ns|, indent, after) && ItemsGet(b, ls, indent, line, ns)
    ensures Got(b, t, after)
    decreases t, 1, |t.items| - |ns|
  {
    if |ns| == |t.items| {
      NoItemsLeft(t, indent, ls, line, ns, after, b);
    } else {
      var item := ItemStep(t, indent, ls, line, ns, after, b);
      ItemsRoundTrip(t, indent, item.rest, line, ns + [item.node], after, b);
    }
  }

  /** The first line shows the key, the others what is below it. */
  lemma KeyShown(p: Pair, indent: nat, ls: seq<Line>, rest: seq<Row>)
    requires PairPrintable(p) && ShowField(ls, p, indent, rest)
    ensures ls != [] && ReadKey(ls, indent) == Key(p.key, OnLine(p.value))
    ensures ShowBelow(ls[1..], p.value, indent, rest)
  {
    var head := Row(indent, KeyText(p.written, OnLine(p.value)));
    assert FieldRows(p, indent) + rest == [head] + (RowsBelow(p.value, indent) + rest);
    ShowsTail(ls, head, RowsBelow(p.value, indent) + rest);
    OnLineIsTrimmed(p.value);
    KeyRowReads(p.key, p.written, OnLine(p.value), ls, indent);
  }

  lemma AtFirstField(t: Tree, k: nat, indent: nat, ls: seq<Line>, after: seq<Row>)
    requires ShowFields(ls, t, k, indent, after) && k < |t.fields| && Printable(t) && EndsItems(after, indent)
    ensures ShowField(ls, t.fields[k], indent, FieldsRows(t, k + 1, indent) + after)
    ensures EndsItems(FieldsRows(t, k + 1, indent) + after, indent)
  {
    AfterField(t, k, indent, after);
  }

  lemma NoFieldsLeft(t: Tree, indent: nat, ls: seq<Line>, line: nat, ns: seq<Field>, after: seq<Row>, b: Block)
    requires FieldsSoFar(ns, t) && |ns| == |t.fields| && EndsFields(after, indent)
    requires ShowFields(ls, t, |ns|, indent, after) && FieldsGet(b, ls, indent, line, ns)
    ensures Got(b, t, after)
  {
    assert FieldsRows(t, |ns|, indent) + after == after;
    FieldsStop(b, ls, indent, line, ns, after);
    AllFields(ns, t, line);
  }

  /** The value of the first field shown, as the parser reads it. */
  lemma {:induction false} FirstValue(
    p: Pair, indent: nat, ls: seq<Line>, line: nat, ns: seq<Field>, later: seq<Row>, b: Block) returns (v: Block)
    requires PairPrintable(p) && ShowField(ls, p, indent, later) && EndsItems(later, indent)
    requires FieldsGet(b, ls, indent, line, ns)
    ensures Got(v, p.value, later) && FieldsGet(b, v.rest, indent, line, ns + [Field(p.key, v.node)])
    decreases p, 0
  {
    KeyShown(p, indent, ls, later);
    v := FieldsGoOn(b, ls, indent, line, ns, p.key, OnLine(p.value));
    ValueRoundTrip(p.value, indent, ls[1..], later, ls[0].number, v);
  }

  lemma {:induction false} FieldStep(
    t: Tree, indent: nat, ls: seq<Line>, line: nat, ns: seq<Field>, after: seq<Row>, b: Block)
    returns (f: Field, rest: seq<Line>)
    requires Printable(t) && FieldsSoFar(ns, t) && |ns| < |t.fields| && EndsItems(after, indent)
    requires ShowFields(ls, t, |ns|, indent, after) && FieldsGet(b, ls, indent, line, ns)
    ensures FieldsSoFar(ns + [f], t)
    ensures ShowFields(rest, t, |ns| + 1, indent, after) && FieldsGet(b, rest, indent, line, ns + [f])
    decreases t, 0
  {
    var p := t.fields[|ns|];
    PrintableField(t, |ns|);
    AtFirstField(t, |ns|, indent, ls, after);
    var v := FirstValue(p, indent, ls, line, ns, FieldsRows(t, |ns| + 1, indent) + after, b);
    f, rest := Field(p.key, v.node), v.rest;
    OneMoreField(ns, t, f);
  }

  /** All fields are read, and the parser goes on at whatever follows them. */
  lemma {:induction false} FieldsReach(
    t: Tree, indent: nat, ls: seq<Line>, line: nat, ns: seq<Field>, after: seq<Row>, b: Block)
    returns (all: seq<Field>, rest: seq<Line>)
    requires Printable(t) && FieldsSoFar(ns, t) && EndsItems(after, indent)
    requires ShowFields(ls, t, |ns|, indent, after) && FieldsGet(b, ls, indent, line, ns)
    ensures FieldsSoFar(all, t) && |all| == |t.fields|
    ensures ShowFields(rest, t, |all|, indent, after) && FieldsGet(b, rest, indent, line, all)
    decreases t, 1, |t.fields| - |ns|
  {
    if |ns| == |t.fields| {
      all, rest := ns, ls;
    } else {
      var f, tl := FieldStep(t, indent, ls, line, ns, after, b);
      all, rest := FieldsReach(t, indent, tl, line, ns + [f], after, b);
    }
  }

  lemma {:induction false} FieldsRoundTrip(
    t: Tree, indent: nat, ls: seq<Line>, line: nat, ns: seq<Field>, after: seq<Row>, b: Block)
    requires Printable(t) && FieldsSoFar(ns, t) && EndsFields(after, indent)
    requires ShowFields(ls, t, |ns|, indent, after) && FieldsGet(b, ls, indent, line, ns)
    ensures Got(b, t, after)
    decreases t, 2
  {
    var all, rest := FieldsReach(t, indent, ls, line, ns, after, b);
    NoFieldsLeft(t, indent, rest, line, all, after, b);
  }

  /** A value on the line of its dash. */
  lemma InlineItem(v: Tree, indent: nat, ls: seq<Line>, after: seq<Row>, b: Block)
    requires Printable(v) && !IsBlock(v) && NotDeeper(after, indent)
    requires ShowItem(ls, v, indent, after) && ItemGets(b, ls, indent)
    ensures Got(b, v, after)
  {
    var x := OnLine(v);
    assert ItemRows(v, indent) + after == [Row(indent, DashText(x))] + after;
    ShowsTail(ls, Row(indent, DashText(x)), after);
    OnLineIsTrimmed(v);
    DashRow(x, ls[0].text);
    if x == "" {
      if after != [] { assert ShowsRow(ls[1..][0], after[0]); }
      EmptyItem(b, ls, indent);
    } else {
      OnLineReads(v, ls[0].number, Inline(x, ls[0].number, NoError));
      NoKeyOnLine(v);
      ValueItem(b, ls, indent, x);
    }
  }

  /** A lone dash with nothing deeper below it. */
  lemma EmptyItem(b: Block, ls: seq<Line>, indent: nat)
    requires ItemGets(b, ls, indent) && Trim(ls[0].text[1..]) == [] && (|ls| == 1 || ls[1].indent <= indent)
    ensures b == Block(Null(ls[0].number), ls[1..], NoError)
  {
  }

  /** A value behind a dash that is not the start of a mapping. */
  lemma ValueItem(b: Block, ls: seq<Line>, indent: nat, text: string)
    requires ItemGets(b, ls, indent) && Trim(ls[0].text[1..]) == text != []
    requires IsBracket(text[0]) || KeyEnd(text, 0, Out, 0) == |text|
    ensures var v := Inline(text, ls[0].number, NoError); b == Block(v.0, ls[1..], v.1)
  {
  }

  lemma NoKeyOnLine(v: Tree)
    requires Printable(v) && OnLine(v) != ""
    ensures IsBracket(OnLine(v)[0]) || KeyEnd(OnLine(v), 0, Out, 0) == |OnLine(v)|
  {
    if !v.Leaf? { OnLineInFlow(v); }
  }

  /** A block that starts with a dash is a sequence, any other a mapping. */
  lemma BlockOfItems(b: Block, ls: seq<Line>, indent: nat)
    requires ls != [] && IsSeqItem(ls[0].text) && b == ParseBlock(ls, indent, NoError)
    ensures ItemsGet(b, ls, indent, ls[0].number, [])
  {
  }

  lemma BlockOfFields(b: Block, ls: seq<Line>, indent: nat)
    requires ls != [] && !IsSeqItem(ls[0].text) && b == ParseBlock(ls, indent, NoError)
    ensures FieldsGet(b, ls, indent, ls[0].number, [])
  {
  }

  lemma ItemBelow(b: Block, ls: seq<Line>, indent: nat)
    requires ItemGets(b, ls, indent) && Trim(ls[0].text[1..]) == [] && |ls| > 1 && ls[1].indent > indent
    ensures b == ParseBlock(ls[1..], ls[1].indent, NoError)
  {
  }

  lemma ItemBehind(b: Block, ls: seq<Line>, indent: nat, text: string)
    requires ItemGets(b, ls, indent) && Trim(ls[0].text[1..]) == text != []
    requires !IsBracket(text[0]) && KeyEnd(text, 0, Out, 0) < |text|
    ensures FieldsGet(b, [Line(indent + 2, ls[0].number, text)] + ls[1..], indent + 2, ls[0].number, [])
  {
  }

  lemma BlockBelow(b: Block, tl: seq<Line>, indent: nat, number: nat)
    requires ValueGets(b, "", tl, indent, number) && tl != [] && tl[0].indent > indent
    ensures b == ParseBlock(tl, tl[0].indent, NoError)
  {
  }

  /** A lone dash: the lines below it are parsed as a block of their own. */
  lemma DashAlone(v: Tree, indent: nat, ls: seq<Line>, after: seq<Row>, b: Block)
    requires Printable(v) && IsBlock(v) && v.List? && ShowItem(ls, v, indent, after) && ItemGets(b, ls, indent)
    ensures ls[1..] != [] && ShowItems(ls[1..], v, 0, indent + 2, after)
    ensures ItemsGet(b, ls[1..], indent + 2, ls[1].number, [])
  {
    var rows := ItemsRows(v, 0, indent + 2);
    assert ItemRows(v, indent) + after == [Row(indent, "-")] + (rows + after);
    ShowsTail(ls, Row(indent, "-"), rows + after);
    DashRow("", "-");
    PrintableItem(v, 0);
    ItemRowsHead(v.items[0], indent + 2);
    assert (rows + after)[0] == ItemRows(v.items[0], indent + 2)[0];
    assert ShowsRow(ls[1..][0], (rows + after)[0]);
    ItemBelow(b, ls, indent);
    BlockOfItems(b, ls[1..], indent + 2);
  }

  /** A mapping behind a dash: its line is rewritten as the first line of the mapping. */
  lemma MapBehindDash(v: Tree, indent: nat, ls: seq<Line>, after: seq<Row>, b: Block) returns (m: seq<Line>)
    requires Printable(v) && IsBlock(v) && v.Dict? && ShowItem(ls, v, indent, after) && ItemGets(b, ls, indent)
    ensures ls != [] && ShowFields(m, v, 0, indent + 2, after) && FieldsGet(b, m, indent + 2, ls[0].number, [])
  {
    FieldsRowsHead(v, 0, indent + 2);
    var text := FieldsRows(v, 0, indent + 2)[0].text;
    m := Rewritten(v, indent, ls, after, text);
    ItemBehind(b, ls, indent, text);
  }

  lemma Rewritten(v: Tree, indent: nat, ls: seq<Line>, after: seq<Row>, text: string) returns (m: seq<Line>)
    requires IsBlock(v) && v.Dict? && ShowItem(ls, v, indent, after)
    requires FieldsRows(v, 0, indent + 2)[0] == Row(indent + 2, text) && Trimmed(text)
    ensures ls != [] && Trim(ls[0].text[1..]) == text && m == [Line(indent + 2, ls[0].number, text)] + ls[1..]
    ensures ShowFields(m, v, 0, indent + 2, after)
  {
    m := RewrittenRows(FieldsRows(v, 0, indent + 2), indent, ls, after, text);
    DashRow(text, ls[0].text);
  }

  lemma RewrittenRows(rows: seq<Row>, indent: nat, ls: seq<Line>, after: seq<Row>, text: string)
    returns (m: seq<Line>)
    requires rows != [] && rows[0] == Row(indent + 2, text)
    requires Shows(ls, [Row(indent, DashText(text))] + rows[1..] + after)
    ensures ls != [] && ls[0].text == DashText(text) && m == [Line(indent + 2, ls[0].number, text)] + ls[1..]
    ensures Shows(m, rows + after)
  {
    var dash, tail := Row(indent, DashText(text)), rows[1..] + after;
    assert [dash] + rows[1..] + after == [dash] + tail;
    ShowsTail(ls, dash, tail);
    var head := Line(indent + 2, ls[0].number, text);
    m := [head] + ls[1..];
    ShowsCons(head, ls[1..], rows[0], tail);
    assert [rows[0]] + tail == rows + after;
  }

  lemma {:induction false} ItemRoundTrip(v: Tree, indent: nat, ls: seq<Line>, after: seq<Row>, b: Block)
    requires Printable(v) && NotDeeper(after, indent)
    requires ShowItem(ls, v, indent, after) && ItemGets(b, ls, indent)
    ensures Got(b, v, after)
    decreases v, 3
  {
    if !IsBlock(v) {
      InlineItem(v, indent, ls, after, b);
    } else if v.List? {
      DashAlone(v, indent, ls, after, b);
      ItemsRoundTrip(v, indent + 2, ls[1..], ls[1].number, [], after, b);
    } else {
      var m := MapBehindDash(v, indent, ls, after, b);
      FieldsRoundTrip(v, indent + 2, m, ls[0].number, [], after, b);
    }
  }

  /** A value on the line of its key, or no value at all. */
  lemma InlineValue(v: Tree, indent: nat, tl: seq<Line>, after: seq<Row>, number: nat, b: Block)
    requires Printable(v) && !IsBlock(v) && EndsItems(after, indent)
    requires ShowBelow(tl, v, indent, after) && ValueGets(b, OnLine(v), tl, indent, number)
    ensures Got(b, v, after)
  {
    NothingBelow(v, indent, tl, after);
    var x := OnLine(v);
    if x != "" {
      OnLineReads(v, number, Inline(x, number, NoError));
      ValueOnLine(b, x, tl, indent, number);
    } else {
      NotBelow(tl, after, indent);
      NoValue(b, tl, indent, number);
    }
  }

  lemma NothingBelow(v: Tree, indent: nat, tl: seq<Line>, after: seq<Row>)
    requires !IsBlock(v) && ShowBelow(tl, v, indent, after)
    ensures Shows(tl, after)
  {
    assert RowsBelow(v, indent) + after == after;
  }

  lemma NotBelow(tl: seq<Line>, after: seq<Row>, indent: nat)
    requires Shows(tl, after) && EndsItems(after, indent)
    ensures tl != [] ==> tl[0].indent <= indent && !AtItem(tl, indent)
  {
    if tl != [] { assert ShowsRow(tl[0], after[0]); }
  }

  lemma ValueOnLine(b: Block, value: string, tl: seq<Line>, indent: nat, number: nat)
    requires ValueGets(b, value, tl, indent, number) && value != ""
    ensures var v := Inline(value, number, NoError); b == Block(v.0, tl, v.1)
  {
  }

  lemma NoValue(b: Block, tl: seq<Line>, indent: nat, number: nat)
    requires ValueGets(b, "", tl, indent, number)
    requires tl != [] ==> tl[0].indent <= indent && !AtItem(tl, indent)
    ensures b == Block(Null(number), tl, NoError)
  {
  }

  lemma SeqBelow(v: Tree, indent: nat, tl: seq<Line>, after: seq<Row>, number: nat, b: Block)
    requires Printable(v) && IsBlock(v) && v.List? && ShowBelow(tl, v, indent, after)
    requires ValueGets(b, OnLine(v), tl, indent, number)
    ensures tl != [] && ShowItems(tl, v, 0, indent, after) && ItemsGet(b, tl, indent, tl[0].number, [])
  {
    PrintableItem(v, 0);
    ItemRowsHead(v.items[0], indent);
    var rows := ItemsRows(v, 0, indent) + after;
    assert rows[0] == ItemRows(v.items[0], indent)[0];
    assert ShowsRow(tl[0], rows[0]);
  }

  lemma MapBelow(v: Tree, indent: nat, tl: seq<Line>, after: seq<Row>, number: nat, b: Block)
    requires Printable(v) && IsBlock(v) && v.Dict? && ShowBelow(tl, v, indent, after)
    requires ValueGets(b, OnLine(v), tl, indent, number)
    ensures tl != [] && ShowFields(tl, v, 0, indent + 2, after) && FieldsGet(b, tl, indent + 2, tl[0].number, [])
  {
    FieldsRowsHead(v, 0, indent + 2);
    FirstShown(tl, FieldsRows(v, 0, indent + 2), after);
    BlockBelow(b, tl, indent, number);
    BlockOfFields(b, tl, indent + 2);
  }

  lemma {:induction false} ValueRoundTrip(
    v: Tree, indent: nat, tl: seq<Line>, after: seq<Row>, number: nat, b: Block)
    requires Printable(v) && EndsItems(after, indent)
    requires ShowBelow(tl, v, indent, after) && ValueGets(b, OnLine(v), tl, indent, number)
    ensures Got(b, v, after)
    decreases v, 3
  {
    if !IsBlock(v) {
      InlineValue(v, indent, tl, after, number, b);
    } else if v.List? {
      SeqBelow(v, indent, tl, after, number, b);
      ItemsRoundTrip(v, indent, tl, tl[0].number, [], after, b);
    } else {
      MapBelow(v, indent, tl, after, number, b);
      FieldsRoundTrip(v, indent + 2, tl, tl[0].number, [], after, b);
    }
  }
}
