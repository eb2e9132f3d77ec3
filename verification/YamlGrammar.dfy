/**
 What the YAML parser computes, as functions.

 A block parser works on the lines still to be read. The head of that sequence may be a line that was rewritten
 in place when `- key: value` turned into the first line of a mapping.
 */
module YamlGrammar {
  import opened Text
  import opened YamlText

  datatype Node =
    | Null(line: nat)
    | Scalar(line: nat, text: string)
    | Seq(line: nat, items: seq<Node>)
    | Map(line: nat, fields: seq<Field>)

  datatype Field = Field(key: string, value: Node)

  datatype Line = Line(indent: nat, number: nat, text: string)

  /** What can be wrong with a document. */
  datatype Message =
    | TabIndentation
    | BlockScalar
    | AnchorOrTag
    | FlowEnds
    | OpenSequence
    | SequenceSeparator
    | OpenMapping
    | MappingColon
    | MappingSeparator
    | TrailingCharacters
    | UnexpectedIndentation
    | ExpectedKey
    | EmptyKey
    | UnexpectedContent

  datatype Error = NoError | Error(message: Message, line: nat)

  /** The first error is kept. */
  function Fail(e: Error, message: Message, line: nat): Error { if e.NoError? then Error(message, line) else e }

  // ---------------------------------------------------------------- scalars and flow collections

  datatype Parsed = Parsed(node: Node, pos: nat, err: Error)

  predicate IsNullText(s: string) { s == "" || s == "~" || s == "null" || s == "Null" || s == "NULL" }

  predicate IsBlockScalar(c: char) { c == '|' || c == '>' }

  predicate IsAnchorOrTag(c: char) { c == '&' || c == '*' || c == '!' }

  predicate IsBracket(c: char) { c == '[' || c == '{' }

  function MakeScalar(raw: string, line: nat, e: Error): (Node, Error) {
    var s := Trim(raw);
    if IsNullText(s) then (Null(line), e)
    else if IsBlockScalar(s[0]) then (Null(line), Fail(e, BlockScalar, line))
    else if IsAnchorOrTag(s[0]) then (Null(line), Fail(e, AnchorOrTag, line))
    else (Scalar(line, Unquote(s)), e)
  }

  function FlowValue(s: string, pos: nat, line: nat, e: Error): (r: Parsed)
    requires pos <= |s|
    ensures pos <= r.pos <= |s| && (e.Error? ==> r.err == e)
    decreases |s| - pos, 1
  {
    var p := SkipBlanks(s, pos);
    if p == |s| then Parsed(Null(line), p, Fail(e, FlowEnds, line))
    else if s[p] == '[' then FlowItems(s, p + 1, line, e, [])
    else if s[p] == '{' then FlowFields(s, p + 1, line, e, [])
    else
      var end := ScalarEnd(s, p, Out);
      var v := MakeScalar(TrimRight(s[p..end]), line, e);
      Parsed(v.0, end, v.1)
  }

  /** What follows an entry of a flow collection: a comma, the closing bracket, or neither. */
  datatype After = More(pos: nat) | Done(pos: nat) | Neither(pos: nat)

  function Separator(s: string, pos: nat, close: char): (r: After)
    requires pos <= |s|
    ensures pos <= r.pos <= |s| && (r.More? ==> pos < r.pos)
  {
    var p := SkipBlanks(s, pos);
    if p < |s| && s[p] == ',' then More(p + 1) else if p < |s| && s[p] == close then Done(p + 1) else Neither(p)
  }

  /** The items from `pos` on, after `items`. */
  function FlowItems(s: string, pos: nat, line: nat, e: Error, items: seq<Node>): (r: Parsed)
    requires pos <= |s|
    ensures pos <= r.pos <= |s| && r.node.Seq? && (e.Error? ==> r.err == e)
    decreases |s| - pos, 2
  {
    var p := SkipBlanks(s, pos);
    if p == |s| then Parsed(Seq(line, items), p, Fail(e, OpenSequence, line))
    else if s[p] == ']' then Parsed(Seq(line, items), p + 1, e)
    else
      var v := FlowValue(s, p, line, e);
      var more := items + [v.node];
      if v.err.Error? then Parsed(Seq(line, more), v.pos, v.err)
      else
        match Separator(s, v.pos, ']')
        case More(next) => FlowItems(s, next, line, v.err, more)
        case Done(next) => Parsed(Seq(line, more), next, v.err)
        case Neither(next) => Parsed(Seq(line, more), next, Fail(v.err, SequenceSeparator, line))
  }

  /** The key that starts at `p`, and the position after it and its blanks. */
  function FlowKey(s: string, p: nat): (r: (string, nat))
    requires p <= |s|
    ensures p <= r.1 <= |s|
  {
    var end := ScalarEnd(s, p, Out);
    (Unquote(TrimRight(s[p..end])), SkipBlanks(s, end))
  }

  /** One field of a flow mapping: its key, colon and value, or the missing colon. */
  datatype FlowEntry = NoColon(pos: nat) | HasField(field: Field, pos: nat, err: Error)

  function FlowField(s: string, p: nat, line: nat, e: Error): (r: FlowEntry)
    requires p <= |s|
    ensures p <= r.pos <= |s| && (r.HasField? ==> p < r.pos && (e.Error? ==> r.err == e))
    decreases |s| - p, 1
  {
    var (key, colon) := FlowKey(s, p);
    if colon == |s| || s[colon] != ':' then NoColon(colon)
    else
      var v := FlowValue(s, colon + 1, line, e);
      HasField(Field(key, v.node), v.pos, v.err)
  }

  /** The fields from `pos` on, after `fields`. */
  function FlowFields(s: string, pos: nat, line: nat, e: Error, fields: seq<Field>): (r: Parsed)
    requires pos <= |s|
    ensures pos <= r.pos <= |s| && r.node.Map? && (e.Error? ==> r.err == e)
    decreases |s| - pos, 2
  {
    var p := SkipBlanks(s, pos);
    if p == |s| then Parsed(Map(line, fields), p, Fail(e, OpenMapping, line))
    else if s[p] == '}' then Parsed(Map(line, fields), p + 1, e)
    else
      match FlowField(s, p, line, e)
      case NoColon(next) => Parsed(Map(line, fields), next, Fail(e, MappingColon, line))
      case HasField(field, next, err) =>
        var more := fields + [field];
        if err.Error? then Parsed(Map(line, more), next, err)
        else
          match Separator(s, next, '}')
          case More(q) => FlowFields(s, q, line, err, more)
          case Done(q) => Parsed(Map(line, more), q, err)
          case Neither(q) => Parsed(Map(line, more), q, Fail(err, MappingSeparator, line))
  }

  function Flow(s: string, line: nat, e: Error): (r: (Node, Error))
    ensures e.Error? ==> r.1 == e
  {
    var v := FlowValue(s, 0, line, e);
    if SkipBlanks(s, v.pos) != |s| then (v.node, Fail(v.err, TrailingCharacters, line))
    else (v.node, v.err)
  }

  /** A value written on the line of its key or dash. */
  function Inline(s: string, line: nat, e: Error): (r: (Node, Error))
    ensures e.Error? ==> r.1 == e
  {
    if s != [] && IsBracket(s[0]) then Flow(s, line, e) else MakeScalar(s, line, e)
  }

  // ---------------------------------------------------------------- blocks

  datatype Block = Block(node: Node, rest: seq<Line>, err: Error)

  predicate IsSeqItem(t: string) { t == "-" || (|t| >= 2 && t[0] == '-' && IsBlank(t[1])) }

  /** How much is left of the line to be read next. */
  function HeadSize(ls: seq<Line>): nat { if ls == [] then 0 else |ls[0].text| }

  /** Fewer lines, or as many of which the first is shorter. */
  ghost predicate Smaller(rest: seq<Line>, ls: seq<Line>) {
    |rest| < |ls| || (|rest| == |ls| && HeadSize(rest) < HeadSize(ls))
  }

  ghost predicate NoLarger(rest: seq<Line>, ls: seq<Line>) { rest == ls || Smaller(rest, ls) }

  function ParseBlock(ls: seq<Line>, indent: nat, e: Error): (r: Block)
    ensures NoLarger(r.rest, ls) && (e.Error? ==> r.err == e)
    decreases |ls|, HeadSize(ls), 2
  {
    if ls == [] then Block(Null(0), ls, e)
    else if IsSeqItem(ls[0].text) then SeqItems(ls, indent, e, ls[0].number, [])
    else MapFields(ls, indent, e, ls[0].number, [])
  }

  predicate AtItem(ls: seq<Line>, indent: nat) { ls != [] && ls[0].indent == indent && IsSeqItem(ls[0].text) }

  /** The items from here on, after `items`. */
  function SeqItems(ls: seq<Line>, indent: nat, e: Error, line: nat, items: seq<Node>): (r: Block)
    ensures NoLarger(r.rest, ls) && (e.Error? ==> r.err == e)
    decreases |ls|, HeadSize(ls), 1
  {
    if e.Error? || !AtItem(ls, indent) then Block(Seq(line, items), ls, e)
    else
      var b := SeqItem(ls, indent, e);
      SeqItems(b.rest, indent, b.err, line, items + [b.node])
  }

  /** One item: a block below a lone dash, a mapping that starts behind the dash, or a value on the line. */
  function SeqItem(ls: seq<Line>, indent: nat, e: Error): (r: Block)
    requires AtItem(ls, indent)
    ensures Smaller(r.rest, ls) && (e.Error? ==> r.err == e)
    decreases |ls|, HeadSize(ls), 0
  {
    var ln, tl := ls[0], ls[1..];
    var rest := Trim(ln.text[1..]);
    if rest == [] then
      if tl != [] && tl[0].indent > indent then ParseBlock(tl, tl[0].indent, e) else Block(Null(ln.number), tl, e)
    else if !IsBracket(rest[0]) && KeyEnd(rest, 0, Out, 0) < |rest| then
      MapFields([Line(indent + 2, ln.number, rest)] + tl, indent + 2, e, ln.number, [])
    else
      var v := Inline(rest, ln.number, e);
      Block(v.0, tl, v.1)
  }

  /** The key and value text of a mapping's line, the end of the mapping, or what is wrong with the line. */
  datatype KeyLine = Key(key: string, value: string) | End | Bad(message: Message)

  function ReadKey(ls: seq<Line>, indent: nat): (r: KeyLine)
    ensures !r.End? ==> ls != []
  {
    if ls == [] || ls[0].indent < indent then End
    else if ls[0].indent > indent then Bad(UnexpectedIndentation)
    else if IsSeqItem(ls[0].text) then End
    else KeyOf(ls[0].text)
  }

  /** The key and the value text of a line. */
  function KeyOf(text: string): (r: KeyLine)
    ensures !r.End?
  {
    var colon := KeyEnd(text, 0, Out, 0);
    if colon == |text| then Bad(ExpectedKey)
    else
      var key := Unquote(text[..colon]);
      if key == "" then Bad(EmptyKey) else Key(key, Trim(text[colon + 1..]))
  }

  /** One field, or the end of the mapping with the error that ended it. */
  datatype Entry = Stop(err: Error) | Next(key: string, value: Block)

  function MapField(ls: seq<Line>, indent: nat, e: Error): (r: Entry)
    ensures r.Next? ==> |r.value.rest| < |ls| && (e.Error? ==> r.value.err == e)
    ensures r.Stop? && e.Error? ==> r.err == e
    decreases |ls|, HeadSize(ls), 0
  {
    match ReadKey(ls, indent)
    case End => Stop(e)
    case Bad(message) => Stop(Fail(e, message, ls[0].number))
    case Key(key, value) => Next(key, FieldValue(value, ls[1..], indent, e, ls[0].number))
  }

  /** The fields from here on, after `fields`. */
  function MapFields(ls: seq<Line>, indent: nat, e: Error, line: nat, fields: seq<Field>): (r: Block)
    ensures (|r.rest| < |ls| || r.rest == ls) && (e.Error? ==> r.err == e)
    decreases |ls|, HeadSize(ls), 1
  {
    match MapField(ls, indent, e)
    case Stop(err) => Block(Map(line, fields), ls, err)
    case Next(key, b) => MapFields(b.rest, indent, b.err, line, fields + [Field(key, b.node)])
  }

  /** The value of a key: on its line, in the block below, or nothing. A sequence may sit at the key's own indent. */
  function FieldValue(value: string, tl: seq<Line>, indent: nat, e: Error, number: nat): (r: Block)
    ensures NoLarger(r.rest, tl) && (e.Error? ==> r.err == e)
    decreases |tl|, HeadSize(tl), 3
  {
    if value != [] then
      var v := Inline(value, number, e);
      Block(v.0, tl, v.1)
    else if tl != [] && tl[0].indent > indent then ParseBlock(tl, tl[0].indent, e)
    else if AtItem(tl, indent) then SeqItems(tl, indent, e, tl[0].number, [])
    else Block(Null(number), tl, e)
  }

  // ---------------------------------------------------------------- documents

  datatype Split = Split(lines: seq<Line>, err: Error)

  function SpacesAt(s: string, i: nat): (k: nat)
    requires i <= |s|
    ensures i <= k <= |s| && (k < |s| ==> s[k] != ' ')
    decreases |s| - i
  {
    if i < |s| && s[i] == ' ' then SpacesAt(s, i + 1) else i
  }

  /** A line without its indentation, comment and trailing space. */
  function Body(s: string): string { TrimRight(s[..CommentAt(s, 0, Out)]) }

  predicate IsContent(body: string) { body != [] && body != "---" && body != "..." }

  /** What one raw line is: indented with a tab, without content, or content. */
  datatype Raw = Tabbed | Empty | Content(indent: nat, body: string)

  function ReadRaw(raw: string): Raw {
    var indent := SpacesAt(raw, 0);
    if indent < |raw| && raw[indent] == '\t' then Tabbed
    else
      var body := Body(raw[indent..]);
      if IsContent(body) then Content(indent, body) else Empty
  }

  /** The content lines from `pos` on, after `lines`; reading stops at the first tab used for indentation. */
  function LinesFrom(text: string, pos: nat, number: nat, lines: seq<Line>): Split
    requires pos <= |text|
    decreases |text| - pos, 1
  {
    LineAt(text, pos, Find(text, '\n', pos), number, lines)
  }

  /** The line from `pos` to `nl`, then the lines behind it. */
  function LineAt(text: string, pos: nat, nl: nat, number: nat, lines: seq<Line>): Split
    requires pos <= nl <= |text|
    decreases |text| - pos, 0
  {
    var raw := ReadRaw(text[pos..nl]);
    if raw.Tabbed? then Split(lines, Error(TabIndentation, number))
    else
      var more := if raw.Content? then lines + [Line(raw.indent, number, raw.body)] else lines;
      if nl == |text| then Split(more, NoError) else LinesFrom(text, nl + 1, number + 1, more)
  }

  datatype Result = Ok(root: Node) | Err(message: Message, line: nat)

  /** The end of a run: an empty document, the first error, lines left over, or the root. */
  function Outcome(s: Split): Result {
    if s.lines == [] then Ok(Null(1))
    else
      var b := ParseBlock(s.lines, s.lines[0].indent, s.err);
      if b.err.Error? then Err(b.err.message, b.err.line)
      else if b.rest != [] then Err(UnexpectedContent, b.rest[0].number)
      else Ok(b.node)
  }

  function Parse(text: string): Result { Outcome(LinesFrom(text, 0, 1, [])) }
}
