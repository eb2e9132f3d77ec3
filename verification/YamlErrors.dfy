/** What the parser reports: errors name a line of the document, with two exceptions to what it should refuse. */
module YamlErrors {
  import opened Text
  import opened YamlText
  import opened YamlGrammar
  import opened YamlLines
  import opened YamlTokens
  import opened YamlFlow
  import opened YamlBlock
  import opened YamlDocument

  // ---------------------------------------------------------------- where errors come from

  /** The error there was, or one at this line. */
  ghost predicate SameOrAt(r: Error, e: Error, line: nat) { r == e || (r.Error? && r.line == line) }

  lemma {:induction false} FlowValueErrs(s: string, pos: nat, line: nat, e: Error)
    requires pos <= |s|
    ensures SameOrAt(FlowValue(s, pos, line, e).err, e, line)
    decreases |s| - pos, 1
  {
    var p := SkipBlanks(s, pos);
    if p < |s| && s[p] == '[' {
      FlowItemsErrs(s, p + 1, line, e, []);
    } else if p < |s| && s[p] == '{' {
      FlowFieldsErrs(s, p + 1, line, e, []);
    }
  }

  lemma {:induction false} FlowItemsErrs(s: string, pos: nat, line: nat, e: Error, items: seq<Node>)
    requires pos <= |s|
    ensures SameOrAt(FlowItems(s, pos, line, e, items).err, e, line)
    decreases |s| - pos, 2
  {
    var p := SkipBlanks(s, pos);
    if p < |s| && s[p] != ']' {
      FlowValueErrs(s, p, line, e);
      var v := FlowValue(s, p, line, e);
      var next := Separator(s, v.pos, ']');
      if v.err.NoError? && next.More? {
        FlowItemsErrs(s, next.pos, line, v.err, items + [v.node]);
      }
    }
  }

  lemma {:induction false} FlowFieldErrs(s: string, p: nat, line: nat, e: Error, r: FlowEntry)
    requires p <= |s| && r == FlowField(s, p, line, e)
    ensures r.HasField? ==> SameOrAt(r.err, e, line)
    decreases |s| - p, 1
  {
    var colon := FlowKey(s, p).1;
    if colon < |s| { FlowValueErrs(s, colon + 1, line, e); }
  }

  lemma {:induction false} FlowFieldsErrs(s: string, pos: nat, line: nat, e: Error, fields: seq<Field>)
    requires pos <= |s|
    ensures SameOrAt(FlowFields(s, pos, line, e, fields).err, e, line)
    decreases |s| - pos, 2
  {
    var p := SkipBlanks(s, pos);
    if p < |s| && s[p] != '}' {
      var r := FlowField(s, p, line, e);
      FlowFieldErrs(s, p, line, e, r);
      if r.HasField? && r.err.NoError? {
        var next := Separator(s, r.pos, '}');
        if next.More? { FlowFieldsErrs(s, next.pos, line, r.err, fields + [r.field]); }
      }
    }
  }

  lemma InlineErrs(s: string, line: nat, e: Error)
    ensures SameOrAt(Inline(s, line, e).1, e, line)
  {
    FlowValueErrs(s, 0, line, e);
  }

  /** The lines carry numbers from the set. */
  ghost predicate Numbered(ls: seq<Line>, numbers: set<nat>) { forall i | 0 <= i < |ls| :: ls[i].number in numbers }

  ghost predicate Blames(e: Error, numbers: set<nat>) { e.Error? ==> e.line in numbers }

  /** A block parser blames lines it was given, and leaves lines it was given. */
  ghost predicate Fair(b: Block, numbers: set<nat>) { Numbered(b.rest, numbers) && Blames(b.err, numbers) }

  lemma {:induction false} BlockIsFair(ls: seq<Line>, indent: nat, e: Error, numbers: set<nat>)
    requires Numbered(ls, numbers) && Blames(e, numbers)
    ensures Fair(ParseBlock(ls, indent, e), numbers)
    decreases |ls|, HeadSize(ls), 2
  {
    if ls != [] {
      if IsSeqItem(ls[0].text) {
        ItemsAreFair(ls, indent, e, ls[0].number, [], numbers);
      } else {
        FieldsAreFair(ls, indent, e, ls[0].number, [], numbers);
      }
    }
  }

  lemma {:induction false} ItemsAreFair(
    ls: seq<Line>, indent: nat, e: Error, line: nat, items: seq<Node>, numbers: set<nat>)
    requires Numbered(ls, numbers) && Blames(e, numbers)
    ensures Fair(SeqItems(ls, indent, e, line, items), numbers)
    decreases |ls|, HeadSize(ls), 1
  {
    if e.NoError? && AtItem(ls, indent) {
      var b := SeqItem(ls, indent, e);
      ItemIsFair(ls, indent, e, numbers, b);
      ItemsAreFair(b.rest, indent, b.err, line, items + [b.node], numbers);
    }
  }

  lemma {:induction false} ItemIsFair(ls: seq<Line>, indent: nat, e: Error, numbers: set<nat>, b: Block)
    requires Numbered(ls, numbers) && Blames(e, numbers) && AtItem(ls, indent) && b == SeqItem(ls, indent, e)
    ensures Fair(b, numbers)
    decreases |ls|, HeadSize(ls), 0
  {
    var ln, tl := ls[0], ls[1..];
    var rest := Trim(ln.text[1..]);
    if rest == [] {
      if tl != [] && tl[0].indent > indent { BlockIsFair(tl, tl[0].indent, e, numbers); }
    } else if !IsBracket(rest[0]) && KeyEnd(rest, 0, Out, 0) < |rest| {
      FieldsAreFair([Line(indent + 2, ln.number, rest)] + tl, indent + 2, e, ln.number, [], numbers);
    } else {
      InlineErrs(rest, ln.number, e);
    }
  }

  lemma {:induction false} FieldsAreFair(
    ls: seq<Line>, indent: nat, e: Error, line: nat, fields: seq<Field>, numbers: set<nat>)
    requires Numbered(ls, numbers) && Blames(e, numbers)
    ensures Fair(MapFields(ls, indent, e, line, fields), numbers)
    decreases |ls|, HeadSize(ls), 1
  {
    var f := MapField(ls, indent, e);
    FieldIsFair(ls, indent, e, numbers, f);
    if f.Next? {
      FieldsAreFair(f.value.rest, indent, f.value.err, line, fields + [Field(f.key, f.value.node)], numbers);
    }
  }

  lemma {:induction false} FieldIsFair(ls: seq<Line>, indent: nat, e: Error, numbers: set<nat>, f: Entry)
    requires Numbered(ls, numbers) && Blames(e, numbers) && f == MapField(ls, indent, e)
    ensures if f.Next? then Fair(f.value, numbers) else Blames(f.err, numbers)
    decreases |ls|, HeadSize(ls), 0
  {
    var k := ReadKey(ls, indent);
    if k.Key? { ValueIsFair(k.value, ls[1..], indent, e, ls[0].number, numbers); }
  }

  lemma {:induction false} ValueIsFair(
    value: string, tl: seq<Line>, indent: nat, e: Error, number: nat, numbers: set<nat>)
    requires Numbered(tl, numbers) && Blames(e, numbers) && number in numbers
    ensures Fair(FieldValue(value, tl, indent, e, number), numbers)
    decreases |tl|, HeadSize(tl), 3
  {
    if value != [] {
      InlineErrs(value, number, e);
    } else if tl != [] && tl[0].indent > indent {
      BlockIsFair(tl, tl[0].indent, e, numbers);
    } else if AtItem(tl, indent) {
      ItemsAreFair(tl, indent, e, tl[0].number, [], numbers);
    }
  }

  /** Every error that is reported names a content line, or the tab that ended the reading. */
  lemma ErrorsNameALine(s: Split, r: Result, numbers: set<nat>)
    requires r == Outcome(s) && r.Err? && Numbered(s.lines, numbers) && Blames(s.err, numbers)
    ensures r.line in numbers
  {
    BlockIsFair(s.lines, s.lines[0].indent, s.err, numbers);
  }

  lemma {:induction false} CollectNumbers(rs: seq<Raw>, number: nat, lines: seq<Line>, numbers: set<nat>)
    requires Numbered(lines, numbers) && forall n | number <= n < number + |rs| :: n in numbers
    ensures Numbered(Collect(rs, number, lines).lines, numbers) && Blames(Collect(rs, number, lines).err, numbers)
  {
    if rs != [] && !rs[0].Tabbed? {
      assert number in numbers;
      CollectNumbers(rs[1..], number + 1, Add(lines, rs[0], number), numbers);
    }
  }

  /** What a text is split into is what its raw lines are read as. */
  lemma TextIsCollected(text: string)
    ensures LinesFrom(text, 0, 1, []) == Collect(ReadAll(RawLines(text)), 1, [])
  {
    var raws := RawLines(text);
    JoinOfRawLines(text);
    forall i | 0 <= i < |raws| ensures ReadAs(raws[i], ReadAll(raws)[i]) {
      assert Without(raws[i], '\n');
    }
    JoinReads(raws, ReadAll(raws));
  }

  /** The numbers from 1 to `n`. */
  ghost function UpTo(n: nat): (ns: set<nat>)
    ensures forall k: nat :: k in ns <==> 1 <= k <= n
  {
    if n == 0 then {} else UpTo(n - 1) + {n}
  }

  /** Whatever the text, an error names one of its lines. */
  lemma ErrorLineIsInText(text: string, r: Result)
    requires r == Parse(text) && r.Err?
    ensures 1 <= r.line <= LineCount(text)
  {
    var rs := ReadAll(RawLines(text));
    var numbers := UpTo(|rs|);
    RawCount(text, 0);
    TextIsCollected(text);
    CollectNumbers(rs, 1, [], numbers);
    ErrorsNameALine(Collect(rs, 1, []), r, numbers);
  }

  // ---------------------------------------------------------------- tabs

  lemma {:induction false} ContentsGrow(rs: seq<Raw>, number: nat, lines: seq<Line>)
    ensures Contents(rs, number, lines) != [] <==> lines != [] || exists i :: 0 <= i < |rs| && rs[i].Content?
  {
    if rs != [] {
      ContentsGrow(rs[1..], number + 1, Add(lines, rs[0], number));
      assert forall i | 1 <= i < |rs| :: rs[1..][i - 1] == rs[i];
      assert (exists i :: 0 <= i < |rs[1..]| && rs[1..][i].Content?) ==> exists i :: 1 <= i < |rs| && rs[i].Content?;
    }
  }

  /** Line `k` is the first that is indented with a tab. */
  ghost predicate FirstTab(rs: seq<Raw>, k: nat) {
    k < |rs| && rs[k].Tabbed? && forall i | 0 <= i < k :: !rs[i].Tabbed?
  }

  /**
   A tab used for indentation is refused if and only if a content line stands before it. Otherwise the document,
   whatever follows the tab, passes for an empty one.
   */
  lemma TabRefusedIff(text: string, rs: seq<Raw>, k: nat, r: Result)
    requires rs == ReadAll(RawLines(text)) && FirstTab(rs, k) && r == Parse(text)
    ensures r == Err(TabIndentation, k + 1) <==> exists i :: 0 <= i < k && rs[i].Content?
    ensures r.Ok? <==> forall i | 0 <= i < k :: !rs[i].Content?
    ensures r.Ok? ==> r == Ok(Null(1))
  {
    TextIsCollected(text);
    CollectToTab(rs, k, 1, []);
    ContentsGrow(rs[..k], 1, []);
    assert forall i | 0 <= i < k :: rs[..k][i] == rs[i];
  }

  /** The simplest such document. */
  lemma TabPassesUnseen(rest: string)
    ensures LinesFrom(['\t'] + rest, 0, 1, []).err == Error(TabIndentation, 1)
    ensures Parse(['\t'] + rest) == Ok(Null(1))
  {
  }

  // ---------------------------------------------------------------- several documents

  lemma {:induction false} RowsOfBoth(a: Tree, b: Tree, both: Tree, k: nat)
    requires a.Dict? && b.Dict? && both.Dict? && both.fields == a.fields + b.fields && k <= |a.fields|
    ensures FieldsRows(both, k, 0) == FieldsRows(a, k, 0) + FieldsRows(b, 0, 0)
    decreases |a.fields| - k
  {
    if k == |a.fields| {
      RowsOfSecond(a, b, both, 0);
    } else {
      RowsOfBoth(a, b, both, k + 1);
    }
  }

  lemma {:induction false} RowsOfSecond(a: Tree, b: Tree, both: Tree, k: nat)
    requires a.Dict? && b.Dict? && both.Dict? && both.fields == a.fields + b.fields && k <= |b.fields|
    ensures FieldsRows(both, |a.fields| + k, 0) == FieldsRows(b, k, 0)
    decreases |b.fields| - k
  {
    if k < |b.fields| {
      assert both.fields[|a.fields| + k] == b.fields[k];
      RowsOfSecond(a, b, both, k + 1);
    }
  }

  lemma {:induction false} ContentsConcat(rs: seq<Raw>, more: seq<Raw>, number: nat, lines: seq<Line>)
    ensures Contents(rs + more, number, lines) == Contents(more, number + |rs|, Contents(rs, number, lines))
  {
    if rs == [] {
      assert rs + more == more;
    } else {
      assert (rs + more)[1..] == rs[1..] + more;
      ContentsConcat(rs[1..], more, number + 1, Add(lines, rs[0], number));
    }
  }

  lemma MarkerIsEmpty()
    ensures ReadAs("---", Empty) && ReadAs("...", Empty) && ReadAs("", Empty)
  {
    assert Quiet("---", 3, Out, false) && Quiet("---", 2, Out, false) && Quiet("---", 1, Out, false);
    assert Quiet("...", 3, Out, false) && Quiet("...", 2, Out, false) && Quiet("...", 1, Out, false);
    QuietHasNoComment("---", 0, Out);
    QuietHasNoComment("...", 0, Out);
    assert "---"[0..] == "---" && "---"[..3] == "---" && "..."[0..] == "..." && "..."[..3] == "...";
    TrimmedStays("---");
    TrimmedStays("...");
  }

  /** A line that is a document marker, indented or commented or not. */
  predicate IsMarker(raw: string) {
    var indent := SpacesAt(raw, 0);
    ReadRaw(raw).Empty? && (Body(raw[indent..]) == "---" || Body(raw[indent..]) == "...")
  }

  function Blank(raw: string): string { if IsMarker(raw) then "" else raw }

  function BlankAll(raws: seq<string>): (bs: seq<string>)
    ensures |bs| == |raws| && forall i | 0 <= i < |raws| :: bs[i] == Blank(raws[i])
  {
    seq(|raws|, i requires 0 <= i < |raws| => Blank(raws[i]))
  }

  lemma BlankReads(raw: string)
    requires Without(raw, '\n')
    ensures ReadRaw(Blank(raw)) == ReadRaw(raw) && Without(Blank(raw), '\n')
  {
    MarkerIsEmpty();
  }

  /** The text with every marker line emptied. */
  function WithoutMarkers(text: string): string { Join(BlankAll(RawLines(text)), '\n') }

  /**
   A document marker is a blank line, on every text. So several documents are refused exactly when the text with
   its markers emptied, one document, is refused; and if not they are read as that one document.
   */
  lemma MarkersAreBlankLines(text: string)
    ensures Parse(text) == Parse(WithoutMarkers(text))
  {
    var raws := RawLines(text);
    var blank := BlankAll(raws);
    JoinOfRawLines(text);
    forall i | 0 <= i < |raws| ensures ReadRaw(blank[i]) == ReadRaw(raws[i]) && Without(blank[i], '\n') {
      BlankReads(raws[i]);
    }
    assert ReadAll(raws) == ReadAll(blank);
    SameReadings(raws, blank);
  }

  /** The same for one marker between two lists of lines. */
  lemma MarkerIsABlankLine(a: seq<string>, marker: string, b: seq<string>)
    requires NoBreaks(a) && NoBreaks(b) && (marker == "---" || marker == "...")
    ensures Parse(Join(a + [marker] + b, '\n')) == Parse(Join(a + [""] + b, '\n'))
  {
    MarkerIsEmpty();
    var with, blank := a + [marker] + b, a + [""] + b;
    forall i | 0 <= i < |with|
      ensures ReadRaw(with[i]) == ReadRaw(blank[i]) && Without(with[i], '\n') && Without(blank[i], '\n')
    {
      if i < |a| { assert with[i] == a[i] == blank[i]; }
      if i > |a| { assert with[i] == b[i - |a| - 1] == blank[i]; }
    }
    assert ReadAll(with) == ReadAll(blank);
    SameReadings(with, blank);
  }

  lemma ReadAsConcat(a: seq<string>, ra: seq<Raw>, b: seq<string>, rb: seq<Raw>)
    requires AllReadAs(a, ra) && AllReadAs(b, rb)
    ensures AllReadAs(a + b, ra + rb)
  {
    forall i | 0 <= i < |a + b| ensures ReadAs((a + b)[i], (ra + rb)[i]) {
      if i < |a| { assert ReadAs(a[i], ra[i]); } else { assert ReadAs(b[i - |a|], rb[i - |a|]); }
    }
  }

  /** Rows, a document marker, and more rows: the lines show both lots of rows and nothing between them. */
  lemma MarkerVanishes(a: seq<Row>, b: seq<Row>) returns (ls: seq<Line>)
    requires AllClean(a) && AllClean(b)
    ensures Shows(ls, a + b)
    ensures LinesFrom(Join(Raws(a) + ["---"] + Raws(b), '\n'), 0, 1, []) == Split(ls, NoError)
  {
    var raws, rs := Raws(a) + ["---"] + Raws(b), Bodies(a) + [Empty] + Bodies(b);
    MarkerIsEmpty();
    RowsAreRead(a);
    RowsAreRead(b);
    ReadAsConcat(Raws(a), Bodies(a), ["---"], [Empty]);
    ReadAsConcat(Raws(a) + ["---"], Bodies(a) + [Empty], Raws(b), Bodies(b));
    JoinReads(raws, rs);
    CollectAll(rs, 1, []);
    ls := Contents(rs, 1, []);
    MarkerContents(a, b, ls);
  }

  lemma EmptyAddsNothing(ra: seq<Raw>, rb: seq<Raw>, number: nat, lines: seq<Line>)
    ensures Contents(ra + [Empty] + rb, number, lines) == Contents(rb, number + |ra| + 1, Contents(ra, number, lines))
  {
    var first := Contents(ra, number, lines);
    ContentsConcat(ra + [Empty], rb, number, lines);
    ContentsConcat(ra, [Empty], number, lines);
    assert [Empty][1..] == [];
    assert Contents([Empty], number + |ra|, first) == Contents([], number + |ra| + 1, first) == first;
  }

  lemma MarkerContents(a: seq<Row>, b: seq<Row>, ls: seq<Line>)
    requires ls == Contents(Bodies(a) + [Empty] + Bodies(b), 1, [])
    ensures Shows(ls, a + b)
  {
    EmptyAddsNothing(Bodies(a), Bodies(b), 1, []);
    AllRowsShow(a, 1, [], []);
    assert [] + a == a;
    AllRowsShow(b, |a| + 2, Contents(Bodies(a), 1, []), a);
  }

  /**
   Two documents in one text are not refused: two mappings separated by a marker are read as one mapping with the
   fields of both.
   */
  lemma DocumentsMerge(a: Tree, b: Tree, both: Tree, r: Result)
    requires Printable(a) && Printable(b) && IsBlock(a) && IsBlock(b) && a.Dict? && b.Dict?
    requires both == Dict(a.fields + b.fields, false)
    requires r == Parse(Join(Raws(RowsOf(a)) + ["---"] + Raws(RowsOf(b)), '\n'))
    ensures r.Ok? && Denotes(r.root, both)
  {
    RootIsClean(a);
    RootIsClean(b);
    RowsOfBoth(a, b, both, 0);
    BothPrintable(a, b, both);
    var ls := MarkerVanishes(RowsOf(a), RowsOf(b));
    LinesRoundTrip(both, ls);
  }

  lemma BothPrintable(a: Tree, b: Tree, both: Tree)
    requires a.Dict? && b.Dict? && !a.inline && !b.inline && Printable(a) && Printable(b)
    requires both == Dict(a.fields + b.fields, false)
    ensures Printable(both)
  {
    forall i | 0 <= i < |both.fields| ensures PairPrintable(both.fields[i]) {
      if i < |a.fields| { PrintableField(a, i); } else { PrintableField(b, i - |a.fields|); }
    }
  }
}
