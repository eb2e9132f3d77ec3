/** Scanning one line of YAML: blanks, quotes, comments, keys and scalars. */
module YamlText {

  predicate IsBlank(c: char) { c == ' ' || c == '\t' }

  predicate IsTrailing(c: char) { IsBlank(c) || c == '\r' }

  function TrimRight(s: string): (r: string)
    ensures |r| <= |s| && (r == [] || !IsTrailing(r[|r| - 1]))
  {
    if s != [] && IsTrailing(s[|s| - 1]) then TrimRight(s[..|s| - 1]) else s
  }

  function TrimLeft(s: string): (r: string)
    ensures |r| <= |s| && (r == [] || !IsBlank(r[0]))
  {
    if s != [] && IsBlank(s[0]) then TrimLeft(s[1..]) else s
  }

  function Trim(s: string): (r: string)
    ensures |r| <= |s|
  {
    TrimRight(TrimLeft(s))
  }

  /** The first position at or after `pos` that is no blank. */
  function SkipBlanks(s: string, pos: nat): (p: nat)
    requires pos <= |s|
    ensures pos <= p <= |s| && (p < |s| ==> !IsBlank(s[p]))
    decreases |s| - pos
  {
    if pos < |s| && IsBlank(s[pos]) then SkipBlanks(s, pos + 1) else pos
  }

  /** Whether a scan is inside quotes. */
  datatype Quote = Out | Single | Double

  function Step(q: Quote, c: char): Quote {
    if c == '\'' && q != Double then (if q == Single then Out else Single)
    else if c == '"' && q != Single then (if q == Double then Out else Double)
    else q
  }

  // ---------------------------------------------------------------- comments

  /** Where a comment starts, or the length. */
  function CommentAt(line: string, i: nat, q: Quote): (k: nat)
    requires i <= |line|
    ensures i <= k <= |line|
    decreases |line| - i
  {
    if i == |line| then i
    else if q == Out && line[i] == '#' && (i == 0 || IsBlank(line[i - 1])) then i
    else CommentAt(line, i + 1, Step(q, line[i]))
  }

  /** Whether a scan of the first `i` characters ends inside quotes. */
  function QuoteState(line: string, i: nat): Quote
    requires i <= |line|
  {
    if i == 0 then Out else Step(QuoteState(line, i - 1), line[i - 1])
  }

  /** A comment starts at an unquoted `#` that starts the line or follows a blank. */
  predicate StartsComment(line: string, i: nat)
    requires i < |line|
  {
    line[i] == '#' && QuoteState(line, i) == Out && (i == 0 || line[i - 1] == ' ' || line[i - 1] == '\t')
  }

  /** Position `k` is where the first comment starts, or the end of a line without one. */
  ghost predicate CommentFrom(line: string, k: nat) {
    k <= |line| && (k < |line| ==> StartsComment(line, k)) && forall i | 0 <= i < k :: !StartsComment(line, i)
  }

  lemma {:induction false} CommentIsFirst(line: string, i: nat)
    requires i <= |line| && forall j | 0 <= j < i :: !StartsComment(line, j)
    ensures CommentFrom(line, CommentAt(line, i, QuoteState(line, i)))
    decreases |line| - i
  {
    if i < |line| && !StartsComment(line, i) { CommentIsFirst(line, i + 1); }
  }

  method StripComment(line: string) returns (r: string)
    ensures r == line[..CommentAt(line, 0, Out)]
    ensures |r| <= |line| && r == line[..|r|] && CommentFrom(line, |r|)
  {
    CommentIsFirst(line, 0);
    var q := Out;
    for i := 0 to |line|
      invariant CommentAt(line, 0, Out) == CommentAt(line, i, q)
    {
      if q == Out && line[i] == '#' && (i == 0 || IsBlank(line[i - 1])) {
        return line[..i];
      }
      q := Step(q, line[i]);
    }
    r := line;
  }

  // ---------------------------------------------------------------- keys

  /** The colon that ends a key: outside quotes and brackets, and followed by a space or the end; else the length. */
  function KeyEnd(s: string, i: nat, q: Quote, depth: int): (k: nat)
    requires i <= |s|
    ensures i <= k <= |s| && (k < |s| ==> s[k] == ':' && (k + 1 == |s| || s[k + 1] == ' '))
    decreases |s| - i
  {
    if i == |s| then i
    else
      var c := s[i];
      if Step(q, c) != q || q != Out then KeyEnd(s, i + 1, Step(q, c), depth)
      else if c == '[' || c == '{' then KeyEnd(s, i + 1, q, depth + 1)
      else if c == ']' || c == '}' then KeyEnd(s, i + 1, q, depth - 1)
      else if c == ':' && depth == 0 && (i + 1 == |s| || s[i + 1] == ' ') then i
      else KeyEnd(s, i + 1, q, depth)
  }

  method KeySplit(s: string) returns (colon: nat)
    ensures colon == KeyEnd(s, 0, Out, 0)
  {
    var q, depth := Out, 0;
    for i := 0 to |s|
      invariant KeyEnd(s, 0, Out, 0) == KeyEnd(s, i, q, depth)
    {
      var c := s[i];
      var next := Step(q, c);
      if next != q || q != Out {
        q := next;
      } else if c == '[' || c == '{' {
        depth := depth + 1;
      } else if c == ']' || c == '}' {
        depth := depth - 1;
      } else if c == ':' && depth == 0 && (i + 1 == |s| || s[i + 1] == ' ') {
        return i;
      }
    }
    colon := |s|;
  }

  /** Where a flow scalar ends: the first structural character outside quotes, or the length. */
  function ScalarEnd(s: string, pos: nat, q: Quote): (e: nat)
    requires pos <= |s|
    ensures pos <= e <= |s|
    decreases |s| - pos
  {
    if pos == |s| then pos
    else
      var c := s[pos];
      if Step(q, c) == q == Out && (c == ',' || c == ']' || c == '}' || c == ':') then pos
      else ScalarEnd(s, pos + 1, Step(q, c))
  }

  method ReadFlowScalar(s: string, start: nat) returns (text: string, pos: nat)
    requires start <= |s|
    ensures pos == ScalarEnd(s, start, Out) && text == TrimRight(s[start..pos])
  {
    pos := start;
    var q := Out;
    while pos < |s|
      invariant start <= pos <= |s| && ScalarEnd(s, start, Out) == ScalarEnd(s, pos, q)
    {
      var c := s[pos];
      if Step(q, c) == q == Out && (c == ',' || c == ']' || c == '}' || c == ':') {
        break;
      }
      q := Step(q, c);
      pos := pos + 1;
    }
    text := TrimRight(s[start..pos]);
  }

  // ---------------------------------------------------------------- quoted scalars

  /** The content of a single-quoted scalar from position `i`: a doubled quote stands for one. */
  function SingleFrom(s: string, i: nat): string
    decreases |s| - i
  {
    if i + 1 >= |s| then []
    else if s[i] == '\'' && i + 2 < |s| && s[i + 1] == '\'' then ['\''] + SingleFrom(s, i + 2)
    else [s[i]] + SingleFrom(s, i + 1)
  }

  function Escaped(c: char): char {
    match c
    case 'n' => '\n'
    case 't' => '\t'
    case 'r' => '\r'
    case '0' => '\0'
    case _ => c
  }

  /** The content of a double-quoted scalar from position `i`, escapes resolved. */
  function DoubleFrom(s: string, i: nat): string
    decreases |s| - i
  {
    if i + 1 >= |s| then []
    else if s[i] == '\\' && i + 2 < |s| then [Escaped(s[i + 1])] + DoubleFrom(s, i + 2)
    else [s[i]] + DoubleFrom(s, i + 1)
  }

  predicate Enclosed(s: string, c: char) { |s| >= 2 && s[0] == c && s[|s| - 1] == c }

  function Unquote(raw: string): string {
    var s := Trim(raw);
    if Enclosed(s, '\'') then SingleFrom(s, 1)
    else if Enclosed(s, '"') then DoubleFrom(s, 1)
    else s
  }

  lemma SingleUnfolds(s: string, i: nat)
    requires i + 1 < |s|
    ensures s[i] == '\'' && i + 2 < |s| && s[i + 1] == '\'' ==> SingleFrom(s, i) == [s[i + 1]] + SingleFrom(s, i + 2)
    ensures !(s[i] == '\'' && i + 2 < |s| && s[i + 1] == '\'') ==> SingleFrom(s, i) == [s[i]] + SingleFrom(s, i + 1)
  {
  }

  method ReadSingle(s: string) returns (out: string)
    requires Enclosed(s, '\'')
    ensures out == SingleFrom(s, 1)
  {
    out := [];
    var i := 1;
    ghost var all, rest := SingleFrom(s, 1), SingleFrom(s, 1);
    while i + 1 < |s|
      invariant 1 <= i <= |s| && rest == SingleFrom(s, i) && all == out + rest
    {
      SingleUnfolds(s, i);
      if s[i] == '\'' && i + 2 < |s| && s[i + 1] == '\'' {
        i := i + 1;
      }
      out := out + [s[i]];
      i, rest := i + 1, rest[1..];
    }
  }

  /** One step of the escaped reading: the next character and where to go on. */
  lemma DoubleUnfolds(s: string, i: nat)
    requires i + 1 < |s|
    ensures s[i] == '\\' && i + 2 < |s| ==> DoubleFrom(s, i) == [Escaped(s[i + 1])] + DoubleFrom(s, i + 2)
    ensures !(s[i] == '\\' && i + 2 < |s|) ==> DoubleFrom(s, i) == [s[i]] + DoubleFrom(s, i + 1)
  {
  }

  method ReadDouble(s: string) returns (out: string)
    requires Enclosed(s, '"')
    ensures out == DoubleFrom(s, 1)
  {
    out := [];
    var i := 1;
    ghost var all, rest := DoubleFrom(s, 1), DoubleFrom(s, 1);
    while i + 1 < |s|
      invariant 1 <= i <= |s| && rest == DoubleFrom(s, i) && all == out + rest
    {
      DoubleUnfolds(s, i);
      var c := s[i];
      if c == '\\' && i + 2 < |s| {
        i := i + 1;
        c := Escaped(s[i]);
      }
      out := out + [c];
      i, rest := i + 1, rest[1..];
    }
  }

  method ReadScalar(raw: string) returns (out: string)
    ensures out == Unquote(raw)
  {
    var s := Trim(raw);
    if Enclosed(s, '\'') {
      out := ReadSingle(s);
    } else if Enclosed(s, '"') {
      out := ReadDouble(s);
    } else {
      out := s;
    }
  }
}
