/** The YAML parser: a cursor over the lines, one of which it rewrites in place, and the first error. */
module YamlParser {
  import opened Text
  import opened YamlText
  import opened YamlGrammar

  /** Count the indentation, then strip the comment and the trailing space. */
  method SplitRaw(raw: string) returns (r: Raw)
    ensures r == ReadRaw(raw)
  {
    var indent: nat := 0;
    while indent < |raw| && raw[indent] == ' '
      invariant indent <= |raw| && SpacesAt(raw, 0) == SpacesAt(raw, indent)
    {
      indent := indent + 1;
    }
    if indent < |raw| && raw[indent] == '\t' {
      return Tabbed;
    }
    var code := StripComment(raw[indent..]);
    var body := TrimRight(code);
    r := if IsContent(body) then Content(indent, body) else Empty;
  }

  /** Split a document into its content lines. */
  method SplitLines(text: string) returns (split: YamlGrammar.Split)
    ensures split == LinesFrom(text, 0, 1, [])
  {
    var lines: seq<Line>, number: nat, pos: nat := [], 1, 0;
    ghost var goal := LinesFrom(text, 0, 1, []);
    while true
      invariant pos <= |text| && goal == LinesFrom(text, pos, number, lines)
      decreases |text| - pos
    {
      var nl := Find(text, '\n', pos);
      var raw := SplitRaw(text[pos..nl]);
      if raw.Tabbed? {
        return Split(lines, Error(TabIndentation, number));
      }
      if raw.Content? {
        lines := lines + [Line(raw.indent, number, raw.body)];
      }
      if nl == |text| {
        return Split(lines, NoError);
      }
      number, pos := number + 1, nl + 1;
    }
  }

  /** The parser never touches lines before its cursor, and keeps their number. */
  ghost predicate SameUpTo(n: nat, lines: seq<Line>, before: seq<Line>) {
    |lines| == |before| && forall i | 0 <= i < n && i < |lines| :: lines[i] == before[i]
  }

  class Parser {
    var lines: seq<Line>
    var err: Error

    constructor (text: string)
      ensures Split(lines, err) == LinesFrom(text, 0, 1, [])
    {
      var split := SplitLines(text);
      lines, err := split.lines, split.err;
    }

    method RecordError(message: Message, line: nat)
      modifies this`err
      ensures err == Fail(old(err), message, line)
    {
      if err.NoError? {
        err := Error(message, line);
      }
    }

    // -------------------------------------------------------------- scalars and flow collections

    method ParseScalar(raw: string, line: nat) returns (node: Node)
      modifies this`err
      ensures (node, err) == MakeScalar(raw, line, old(err))
    {
      var s := Trim(raw);
      if IsNullText(s) {
        return Null(line);
      }
      if IsBlockScalar(s[0]) {
        RecordError(BlockScalar, line);
        return Null(line);
      }
      if IsAnchorOrTag(s[0]) {
        RecordError(AnchorOrTag, line);
        return Null(line);
      }
      var text := ReadScalar(s);
      node := Scalar(line, text);
    }

    method ParseFlowValue(s: string, start: nat, line: nat) returns (node: Node, pos: nat)
      requires start <= |s|
      modifies this`err
      ensures Parsed(node, pos, err) == FlowValue(s, start, line, old(err))
      decreases |s| - start, 1
    {
      pos := SkipBlanks(s, start);
      if pos == |s| {
        RecordError(FlowEnds, line);
        return Null(line), pos;
      }
      if s[pos] == '[' {
        node, pos := ParseFlowSeq(s, pos, line);
        return;
      }
      if s[pos] == '{' {
        node, pos := ParseFlowMap(s, pos, line);
        return;
      }
      var text;
      text, pos := ReadFlowScalar(s, pos);
      node := ParseScalar(text, line);
    }

    method ParseFlowSeq(s: string, start: nat, line: nat) returns (node: Node, pos: nat)
      requires start < |s|
      modifies this`err
      ensures Parsed(node, pos, err) == FlowItems(s, start + 1, line, old(err), [])
      decreases |s| - start, 0
    {
      pos := start + 1;
      var items: seq<Node> := [];
      ghost var goal := FlowItems(s, pos, line, err, items);
      while true
        invariant start < pos <= |s|
        invariant goal == FlowItems(s, pos, line, err, items)
        decreases |s| - pos
      {
        pos := SkipBlanks(s, pos);
        if pos == |s| {
          RecordError(OpenSequence, line);
          return Seq(line, items), pos;
        }
        if s[pos] == ']' {
          return Seq(line, items), pos + 1;
        }
        var item;
        item, pos := ParseFlowValue(s, pos, line);
        items := items + [item];
        if err.Error? {
          return Seq(line, items), pos;
        }
        var after := Separator(s, pos, ']');
        pos := after.pos;
        if !after.More? {
          if after.Neither? {
            RecordError(SequenceSeparator, line);
          }
          return Seq(line, items), pos;
        }
      }
    }

    method ReadFlowKey(s: string, start: nat) returns (key: string, pos: nat)
      requires start <= |s|
      ensures (key, pos) == FlowKey(s, start)
    {
      var text;
      text, pos := ReadFlowScalar(s, start);
      key := ReadScalar(text);
      pos := SkipBlanks(s, pos);
    }

    method ParseFlowField(s: string, start: nat, line: nat) returns (entry: FlowEntry)
      requires start <= |s|
      modifies this`err
      ensures entry == FlowField(s, start, line, old(err))
      ensures err == if entry.HasField? then entry.err else old(err)
      decreases |s| - start, 1
    {
      var key, colon := ReadFlowKey(s, start);
      if colon == |s| || s[colon] != ':' {
        return NoColon(colon);
      }
      var value, pos := ParseFlowValue(s, colon + 1, line);
      entry := HasField(Field(key, value), pos, err);
    }

    method ParseFlowMap(s: string, start: nat, line: nat) returns (node: Node, pos: nat)
      requires start < |s|
      modifies this`err
      ensures Parsed(node, pos, err) == FlowFields(s, start + 1, line, old(err), [])
      decreases |s| - start, 0
    {
      pos := start + 1;
      var fields: seq<Field> := [];
      ghost var goal := FlowFields(s, pos, line, err, fields);
      while true
        invariant start < pos <= |s|
        invariant goal == FlowFields(s, pos, line, err, fields)
        decreases |s| - pos
      {
        pos := SkipBlanks(s, pos);
        if pos == |s| {
          RecordError(OpenMapping, line);
          return Map(line, fields), pos;
        }
        if s[pos] == '}' {
          return Map(line, fields), pos + 1;
        }
        var entry := ParseFlowField(s, pos, line);
        pos := entry.pos;
        if entry.NoColon? {
          RecordError(MappingColon, line);
          return Map(line, fields), pos;
        }
        fields := fields + [entry.field];
        if err.Error? {
          return Map(line, fields), pos;
        }
        var after := Separator(s, pos, '}');
        pos := after.pos;
        if !after.More? {
          if after.Neither? {
            RecordError(MappingSeparator, line);
          }
          return Map(line, fields), pos;
        }
      }
    }

    method ParseInline(s: string, line: nat) returns (node: Node)
      modifies this`err
      ensures (node, err) == Inline(s, line, old(err))
    {
      if s != [] && IsBracket(s[0]) {
        var pos;
        node, pos := ParseFlowValue(s, 0, line);
        pos := SkipBlanks(s, pos);
        if pos != |s| {
          RecordError(TrailingCharacters, line);
        }
      } else {
        node := ParseScalar(s, line);
      }
    }

    // -------------------------------------------------------------- blocks

    method ParseBlock(idx: nat, indent: nat) returns (node: Node, next: nat)
      requires idx <= |lines|
      modifies this
      ensures idx <= next <= |lines| && SameUpTo(idx, lines, old(lines))
      ensures Block(node, lines[next..], err) == YamlGrammar.ParseBlock(old(lines[idx..]), indent, old(err))
      decreases |lines| - idx, HeadSize(lines[idx..]), 2
    {
      if idx == |lines| {
        return Null(0), idx;
      }
      if IsSeqItem(lines[idx].text) {
        node, next := ParseSeq(idx, indent);
      } else {
        node, next := ParseMap(idx, indent);
      }
    }

    method ParseSeq(idx: nat, indent: nat) returns (node: Node, next: nat)
      requires idx < |lines|
      modifies this
      ensures idx <= next <= |lines| && SameUpTo(idx, lines, old(lines))
      ensures Block(node, lines[next..], err)
           == SeqItems(old(lines[idx..]), indent, old(err), old(lines[idx].number), [])
      decreases |lines| - idx, HeadSize(lines[idx..]), 1
    {
      var line, items: seq<Node> := lines[idx].number, [];
      next := idx;
      ghost var goal := SeqItems(lines[idx..], indent, err, line, items);
      while err.NoError? && AtItem(lines[next..], indent)
        invariant idx <= next <= |lines| && SameUpTo(idx, lines, old(lines))
        invariant goal == SeqItems(lines[next..], indent, err, line, items)
        invariant NoLarger(lines[next..], old(lines[idx..]))
        decreases |lines| - next, HeadSize(lines[next..])
      {
        var item;
        item, next := ParseItem(next, indent);
        items := items + [item];
      }
      node := Seq(line, items);
    }

    /** One item. `- key: value` rewrites its line as the first line of a mapping two columns further in. */
    method ParseItem(idx: nat, indent: nat) returns (node: Node, next: nat)
      requires idx < |lines| && AtItem(lines[idx..], indent)
      modifies this
      ensures idx <= next <= |lines| && SameUpTo(idx, lines, old(lines))
      ensures Block(node, lines[next..], err) == SeqItem(old(lines[idx..]), indent, old(err))
      decreases |lines| - idx, HeadSize(lines[idx..]), 0
    {
      var ln := lines[idx];
      var rest := Trim(ln.text[1..]);
      next := idx + 1;
      if rest == [] {
        if next < |lines| && lines[next].indent > indent {
          node, next := ParseBlock(next, lines[next].indent);
        } else {
          node := Null(ln.number);
        }
        return;
      }
      if !IsBracket(rest[0]) {
        var colon := KeySplit(rest);
        if colon < |rest| {
          lines := lines[idx := Line(indent + 2, ln.number, rest)];
          assert lines[idx..] == [Line(indent + 2, ln.number, rest)] + old(lines[idx..])[1..];
          node, next := ParseMap(idx, indent + 2);
          return;
        }
      }
      node := ParseInline(rest, ln.number);
    }

    method ParseMap(idx: nat, indent: nat) returns (node: Node, next: nat)
      requires idx < |lines|
      modifies this
      ensures idx <= next <= |lines| && SameUpTo(idx, lines, old(lines))
      ensures Block(node, lines[next..], err)
           == MapFields(old(lines[idx..]), indent, old(err), old(lines[idx].number), [])
      decreases |lines| - idx, HeadSize(lines[idx..]), 1
    {
      var line, fields: seq<Field> := lines[idx].number, [];
      next := idx;
      ghost var goal := MapFields(lines[idx..], indent, err, line, fields);
      while true
        invariant idx <= next <= |lines| && SameUpTo(idx, lines, old(lines))
        invariant goal == MapFields(lines[next..], indent, err, line, fields)
        invariant next == idx ==> lines == old(lines)
        decreases |lines| - next
      {
        var entry;
        entry, next := ParseField(next, indent);
        if entry.Stop? {
          break;
        }
        fields := fields + [Field(entry.key, entry.value.node)];
      }
      node := Map(line, fields);
    }

    /** One field; the cursor stays when the mapping ends here. */
    method ParseField(idx: nat, indent: nat) returns (entry: Entry, next: nat)
      requires idx <= |lines|
      modifies this
      ensures idx <= next <= |lines| && SameUpTo(idx, lines, old(lines))
      ensures entry == MapField(old(lines[idx..]), indent, old(err))
      ensures entry.Stop? ==> next == idx && lines == old(lines) && err == entry.err
      ensures entry.Next? ==> Block(entry.value.node, lines[next..], err) == entry.value
      decreases |lines| - idx, HeadSize(lines[idx..]), 0
    {
      var k := SplitKey(idx, indent);
      if k.End? {
        return Stop(err), idx;
      }
      var number := lines[idx].number;
      if k.Bad? {
        RecordError(k.message, number);
        return Stop(err), idx;
      }
      var value;
      value, next := ParseValue(k.value, idx + 1, indent, number);
      entry := Next(k.key, Block(value, lines[next..], err));
    }

    method SplitKey(idx: nat, indent: nat) returns (k: KeyLine)
      requires idx <= |lines|
      ensures k == ReadKey(lines[idx..], indent)
    {
      if idx == |lines| || lines[idx].indent < indent {
        return End;
      }
      var text := lines[idx].text;
      if lines[idx].indent > indent {
        return Bad(UnexpectedIndentation);
      }
      if IsSeqItem(text) {
        return End;
      }
      k := SplitKeyText(text);
    }

    static method SplitKeyText(text: string) returns (k: KeyLine)
      ensures k == KeyOf(text)
    {
      var colon := KeySplit(text);
      if colon == |text| {
        return Bad(ExpectedKey);
      }
      var key := ReadScalar(text[..colon]);
      if key == "" {
        return Bad(EmptyKey);
      }
      k := Key(key, Trim(text[colon + 1..]));
    }

    method ParseValue(value: string, idx: nat, indent: nat, number: nat) returns (node: Node, next: nat)
      requires idx <= |lines|
      modifies this
      ensures idx <= next <= |lines| && SameUpTo(idx, lines, old(lines))
      ensures Block(node, lines[next..], err) == FieldValue(value, old(lines[idx..]), indent, old(err), number)
      decreases |lines| - idx, HeadSize(lines[idx..]), 3
    {
      next := idx;
      if value != [] {
        node := ParseInline(value, number);
      } else if idx < |lines| && lines[idx].indent > indent {
        node, next := ParseBlock(idx, lines[idx].indent);
      } else if idx < |lines| && lines[idx].indent == indent && IsSeqItem(lines[idx].text) {
        node, next := ParseSeq(idx, indent);
      } else {
        node := Null(number);
      }
    }

    method Run() returns (r: Result)
      modifies this
      ensures r == Outcome(old(Split(lines, err)))
    {
      if lines == [] {
        return Ok(Null(1));
      }
      assert lines[0..] == lines;
      var root, next := ParseBlock(0, lines[0].indent);
      if err.Error? {
        return Err(err.message, err.line);
      }
      if next < |lines| {
        return Err(UnexpectedContent, lines[next].number);
      }
      r := Ok(root);
    }
  }

  /** The whole parser, on every text. */
  method ParseText(text: string) returns (r: Result)
    ensures r == Parse(text)
  {
    var parser := new Parser(text);
    r := parser.Run();
  }
}
