/** From the text of a document to its lines, and what the parser sees of them. */
module YamlLines {
  import opened Text
  import opened YamlText
  import opened YamlGrammar

  // ---------------------------------------------------------------- raw lines

  /** The raw lines of a text from a position on. */
  function RawFrom(text: string, pos: nat): (raws: seq<string>)
    requires pos <= |text|
    ensures raws != []
    decreases |text| - pos
  {
    var nl := Find(text, '\n', pos);
    if nl == |text| then [text[pos..nl]] else [text[pos..nl]] + RawFrom(text, nl + 1)
  }

  function RawLines(text: string): seq<string> { RawFrom(text, 0) }

  ghost predicate NoBreaks(raws: seq<string>) { forall i | 0 <= i < |raws| :: Without(raws[i], '\n') }

  lemma {:induction false} RawLie(text: string, pos: nat)
    requires pos <= |text|
    ensures LiesAt(text, pos, RawFrom(text, pos), '\n') && NoBreaks(RawFrom(text, pos))
    decreases |text| - pos
  {
    var nl := Find(text, '\n', pos);
    assert Without(text[pos..nl], '\n');
    if nl < |text| {
      RawLie(text, nl + 1);
      assert RawFrom(text, pos)[1..] == RawFrom(text, nl + 1);
    }
  }

  lemma {:induction false} LiesIsJoin(text: string, pos: nat, raws: seq<string>)
    requires raws != [] && LiesAt(text, pos, raws, '\n')
    ensures pos <= |text| && Join(raws, '\n') == text[pos..]
    decreases |raws|
  {
    var end := pos + |raws[0]|;
    if |raws| == 1 {
      assert text[pos..] == text[pos..end];
    } else {
      LiesIsJoin(text, end + 1, raws[1..]);
      assert text[pos..] == text[pos..end] + ['\n'] + text[end + 1..];
    }
  }

  /** A text is its raw lines joined. */
  lemma JoinOfRawLines(text: string)
    ensures Join(RawLines(text), '\n') == text && NoBreaks(RawLines(text))
  {
    RawLie(text, 0);
    LiesIsJoin(text, 0, RawLines(text));
  }

  function BreaksFrom(text: string, pos: nat): nat
    requires pos <= |text|
    decreases |text| - pos
  {
    if pos == |text| then 0 else (if text[pos] == '\n' then 1 else 0) + BreaksFrom(text, pos + 1)
  }

  /** How many lines a text has: one more than it has line breaks. */
  function LineCount(text: string): nat { 1 + BreaksFrom(text, 0) }

  lemma {:induction false} NoBreaksUpTo(text: string, pos: nat, nl: nat)
    requires pos <= nl <= |text| && forall k | pos <= k < nl :: text[k] != '\n'
    ensures BreaksFrom(text, pos) == BreaksFrom(text, nl)
    decreases nl - pos
  {
    if pos < nl { NoBreaksUpTo(text, pos + 1, nl); }
  }

  lemma {:induction false} RawCount(text: string, pos: nat)
    requires pos <= |text|
    ensures |RawFrom(text, pos)| == 1 + BreaksFrom(text, pos)
    decreases |text| - pos
  {
    var nl := Find(text, '\n', pos);
    NoBreaksUpTo(text, pos, nl);
    if nl < |text| { RawCount(text, nl + 1); }
  }

  // ---------------------------------------------------------------- lines read

  function Add(lines: seq<Line>, r: Raw, number: nat): seq<Line> {
    if r.Content? then lines + [Line(r.indent, number, r.body)] else lines
  }

  /** The content among lines read, numbered, after `lines`. */
  function Contents(rs: seq<Raw>, number: nat, lines: seq<Line>): seq<Line> {
    if rs == [] then lines else Contents(rs[1..], number + 1, Add(lines, rs[0], number))
  }

  /** The same up to the first tab used for indentation, which is an error. */
  function Collect(rs: seq<Raw>, number: nat, lines: seq<Line>): Split {
    if rs == [] then Split(lines, NoError)
    else if rs[0].Tabbed? then Split(lines, Error(TabIndentation, number))
    else Collect(rs[1..], number + 1, Add(lines, rs[0], number))
  }

  lemma {:induction false} CollectAll(rs: seq<Raw>, number: nat, lines: seq<Line>)
    requires forall i | 0 <= i < |rs| :: !rs[i].Tabbed?
    ensures Collect(rs, number, lines) == Split(Contents(rs, number, lines), NoError)
  {
    if rs != [] { CollectAll(rs[1..], number + 1, Add(lines, rs[0], number)); }
  }

  lemma {:induction false} CollectToTab(rs: seq<Raw>, k: nat, number: nat, lines: seq<Line>)
    requires k < |rs| && rs[k].Tabbed? && forall i | 0 <= i < k :: !rs[i].Tabbed?
    ensures Collect(rs, number, lines)
         == Split(Contents(rs[..k], number, lines), Error(TabIndentation, number + k))
  {
    if k > 0 {
      CollectToTab(rs[1..], k - 1, number + 1, Add(lines, rs[0], number));
      assert rs[1..][..k - 1] == rs[..k][1..];
    }
  }

  ghost predicate ReadAs(raw: string, r: Raw) { Without(raw, '\n') && ReadRaw(raw) == r }

  ghost predicate AllReadAs(raws: seq<string>, rs: seq<Raw>) {
    |raws| == |rs| && forall i | 0 <= i < |raws| :: ReadAs(raws[i], rs[i])
  }

  /** What the raw lines are read as. */
  function ReadAll(raws: seq<string>): (rs: seq<Raw>)
    ensures |rs| == |raws| && forall i | 0 <= i < |raws| :: rs[i] == ReadRaw(raws[i])
  {
    seq(|raws|, i requires 0 <= i < |raws| => ReadRaw(raws[i]))
  }

  lemma AllReadAsTail(raws: seq<string>, rs: seq<Raw>)
    requires raws != [] && AllReadAs(raws, rs)
    ensures ReadAs(raws[0], rs[0]) && AllReadAs(raws[1..], rs[1..])
  {
    forall i | 0 <= i < |raws| - 1 ensures ReadAs(raws[1..][i], rs[1..][i]) {
      assert ReadAs(raws[i + 1], rs[i + 1]);
    }
  }

  ghost predicate TextGives(s: Split, text: string, pos: nat, number: nat, lines: seq<Line>) {
    pos <= |text| && s == LinesFrom(text, pos, number, lines)
  }

  /** The line at a position is the one that ends at the next line break. */
  lemma LineIsAt(text: string, pos: nat, raw: string, number: nat, lines: seq<Line>)
    requires pos + |raw| <= |text| && text[pos..pos + |raw|] == raw && Without(raw, '\n')
    requires pos + |raw| < |text| ==> text[pos + |raw|] == '\n'
    ensures LinesFrom(text, pos, number, lines) == LineAt(text, pos, pos + |raw|, number, lines)
  {
    FindAt(text, pos, raw, '\n');
  }

  /** One line of a text: it ends the reading, is the last one, or is followed by the others. */
  lemma LineReads(text: string, pos: nat, raw: string, r: Raw, number: nat, lines: seq<Line>, s: Split)
    requires pos + |raw| <= |text| && text[pos..pos + |raw|] == raw && ReadAs(raw, r)
    requires pos + |raw| < |text| ==> text[pos + |raw|] == '\n'
    requires TextGives(s, text, pos, number, lines)
    ensures r.Tabbed? ==> s == Split(lines, Error(TabIndentation, number))
    ensures !r.Tabbed? && pos + |raw| == |text| ==> s == Split(Add(lines, r, number), NoError)
    ensures !r.Tabbed? && pos + |raw| < |text| ==>
      TextGives(s, text, pos + |raw| + 1, number + 1, Add(lines, r, number))
  {
    LineReadsTo(text, pos, pos + |raw|, raw, r, number, lines, s);
  }

  lemma LineReadsTo(text: string, pos: nat, nl: nat, raw: string, r: Raw, number: nat, lines: seq<Line>, s: Split)
    requires pos <= nl <= |text| && text[pos..nl] == raw && ReadAs(raw, r) && (nl < |text| ==> text[nl] == '\n')
    requires TextGives(s, text, pos, number, lines)
    ensures r.Tabbed? ==> s == Split(lines, Error(TabIndentation, number))
    ensures !r.Tabbed? && nl == |text| ==> s == Split(Add(lines, r, number), NoError)
    ensures !r.Tabbed? && nl < |text| ==> TextGives(s, text, nl + 1, number + 1, Add(lines, r, number))
  {
    LineIsAt(text, pos, raw, number, lines);
    LineStep(text, pos, nl, r, number, lines, s);
  }

  lemma LineStep(text: string, pos: nat, nl: nat, r: Raw, number: nat, lines: seq<Line>, s: Split)
    requires pos <= nl <= |text| && ReadRaw(text[pos..nl]) == r && s == LineAt(text, pos, nl, number, lines)
    ensures r.Tabbed? ==> s == Split(lines, Error(TabIndentation, number))
    ensures !r.Tabbed? && nl == |text| ==> s == Split(Add(lines, r, number), NoError)
    ensures !r.Tabbed? && nl < |text| ==> TextGives(s, text, nl + 1, number + 1, Add(lines, r, number))
  {
  }

  /** What a text is split into depends only on what its raw lines are read as. */
  lemma {:induction false} TextReads(
    text: string, pos: nat, raws: seq<string>, rs: seq<Raw>, number: nat, lines: seq<Line>, s: Split)
    requires raws != [] && LiesAt(text, pos, raws, '\n') && AllReadAs(raws, rs)
    requires TextGives(s, text, pos, number, lines)
    ensures s == Collect(rs, number, lines)
    decreases |raws|
  {
    AllReadAsTail(raws, rs);
    LineReads(text, pos, raws[0], rs[0], number, lines, s);
    if |raws| == 1 {
      assert rs[1..] == [];
    } else if !rs[0].Tabbed? {
      TextReads(text, pos + |raws[0]| + 1, raws[1..], rs[1..], number + 1, Add(lines, rs[0], number), s);
    }
  }

  lemma JoinReads(raws: seq<string>, rs: seq<Raw>)
    requires raws != [] && AllReadAs(raws, rs)
    ensures LinesFrom(Join(raws, '\n'), 0, 1, []) == Collect(rs, 1, [])
  {
    var text := Join(raws, '\n');
    JoinLies([], raws, '\n');
    assert [] + text == text;
    TextReads(text, 0, raws, rs, 1, [], LinesFrom(text, 0, 1, []));
  }

  /** Documents whose lines are read alike are parsed alike. */
  lemma SameReadings(a: seq<string>, b: seq<string>)
    requires a != [] && NoBreaks(a) && NoBreaks(b) && ReadAll(a) == ReadAll(b)
    ensures Parse(Join(a, '\n')) == Parse(Join(b, '\n'))
  {
    var rs := ReadAll(a);
    forall i | 0 <= i < |a| ensures ReadAs(a[i], rs[i]) && ReadAs(b[i], rs[i]) {
      assert ReadRaw(b[i]) == ReadAll(b)[i];
    }
    JoinReads(a, rs);
    JoinReads(b, rs);
  }
}
