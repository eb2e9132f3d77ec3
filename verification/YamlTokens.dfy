/**
 Writing a scalar so that it reads back: bare where nothing can be mistaken, else quoted.

 The scans that look for a comment, for the end of a key and for the end of a flow scalar know quotes but not
 escapes. What they make of a text decides, place by place, which scalars can stand there.
 */
module YamlTokens {
  import opened Text
  import opened YamlText
  import opened YamlGrammar

  predicate Special(c: char) { c == '#' || c == '[' || c == ']' || c == '{' || c == '}' || c == ',' || c == ':' }

  predicate IsQuote(c: char) { c == '\'' || c == '"' }

  predicate BareChar(c: char) { !Special(c) && !IsQuote(c) && !IsTrailing(c) && c != '\n' }

  predicate BareStart(c: char) { !IsBlockScalar(c) && !IsAnchorOrTag(c) }

  /** Scalars that mean themselves without quotes. */
  predicate Bare(v: string) {
    v != [] && v != "-" && !IsNullText(v) && BareStart(v[0]) && forall k | 0 <= k < |v| :: BareChar(v[k])
  }

  function Doubled(v: string): string {
    if v == [] then [] else (if v[0] == '\'' then ['\'', '\''] else [v[0]]) + Doubled(v[1..])
  }

  function Quoted(v: string): string { ['\''] + Doubled(v) + ['\''] }

  predicate IsEscapeLetter(c: char) { c == 'n' || c == 't' || c == 'r' || c == '0' }

  /** A character in double quotes: behind a backslash, unless it would mean another one there. */
  function Escape(c: char): string {
    if c == '\n' then ['\\', 'n'] else if IsEscapeLetter(c) then [c] else ['\\', c]
  }

  function EscapedText(v: string): string { if v == [] then [] else Escape(v[0]) + EscapedText(v[1..]) }

  function DoubleQuoted(v: string): string { ['"'] + EscapedText(v) + ['"'] }

  /** Bare, in single quotes, or in double quotes if it has line breaks. */
  function Written(v: string): string {
    if Bare(v) then v else if Without(v, '\n') then Quoted(v) else DoubleQuoted(v)
  }

  // ---------------------------------------------------------------- what a scan sees

  /** From position `k` and quote state `q`, a scan meets no special character outside quotes and ends outside. */
  predicate Inert(t: string, k: nat, q: Quote)
    requires k <= |t|
    decreases |t| - k
  {
    if k == |t| then q == Out else (q == Out ==> !Special(t[k])) && Inert(t, k + 1, Step(q, t[k]))
  }

  /** From position `k` and state `q`, a scan meets no line break and no comment; if `shut`, it ends outside quotes. */
  predicate Quiet(t: string, k: nat, q: Quote, shut: bool)
    requires k <= |t|
    decreases |t| - k
  {
    if k == |t| then shut ==> q == Out
    else
      && t[k] != '\n' && !(q == Out && t[k] == '#' && (k == 0 || IsBlank(t[k - 1])))
      && Quiet(t, k + 1, Step(q, t[k]), shut)
  }

  /** The text `t`, from its position `k` on, stands in `s` where a copy that starts at `i` would have it. */
  ghost predicate AtFrom(s: string, i: nat, t: string, k: nat)
    requires k <= |t|
    decreases |t| - k
  {
    if k == |t| then i + k <= |s| else i + k < |s| && s[i + k] == t[k] && AtFrom(s, i, t, k + 1)
  }

  /** The text `t` stands at position `i`. */
  ghost predicate At(s: string, i: nat, t: string) { AtFrom(s, i, t, 0) }

  lemma {:induction false} AtEach(s: string, i: nat, t: string, k: nat, j: nat)
    requires k <= j <= |t| && AtFrom(s, i, t, k)
    ensures i + |t| <= |s| && AtFrom(s, i, t, j)
    decreases |t| - k
  {
    if k < |t| { AtEach(s, i, t, k + 1, if j == k then k + 1 else j); }
  }

  lemma AtIndex(s: string, i: nat, t: string, k: nat)
    requires k < |t| && At(s, i, t)
    ensures i + k < |s| && s[i + k] == t[k]
  {
    AtEach(s, i, t, 0, k);
  }

  lemma AtSlice(s: string, i: nat, t: string)
    requires At(s, i, t)
    ensures i + |t| <= |s| && s[i..i + |t|] == t
  {
    AtEach(s, i, t, 0, 0);
    forall k | 0 <= k < |t| ensures s[i + k] == t[k] {
      AtIndex(s, i, t, k);
    }
  }

  lemma {:induction false} EachAt(s: string, i: nat, t: string, k: nat)
    requires k <= |t| && i + |t| <= |s| && forall j | k <= j < |t| :: s[i + j] == t[j]
    ensures AtFrom(s, i, t, k)
    decreases |t| - k
  {
    if k < |t| { EachAt(s, i, t, k + 1); }
  }

  lemma AtSelf(t: string)
    ensures At(t, 0, t)
  {
    EachAt(t, 0, t, 0);
  }

  /** A key scan passes over inert text. */
  lemma {:induction false} KeyScanPasses(s: string, i: nat, t: string, k: nat, q: Quote, depth: int)
    requires k <= |t| && AtFrom(s, i, t, k) && Inert(t, k, q)
    ensures i + |t| <= |s|
    ensures KeyEnd(s, i + k, q, depth) == KeyEnd(s, i + |t|, Out, depth)
    decreases |t| - k
  {
    if k < |t| {
      KeyScanPasses(s, i, t, k + 1, Step(q, t[k]), depth);
    }
  }

  /** A scalar scan passes over inert text. */
  lemma {:induction false} ScalarScanPasses(s: string, i: nat, t: string, k: nat, q: Quote)
    requires k <= |t| && AtFrom(s, i, t, k) && Inert(t, k, q)
    ensures i + |t| <= |s|
    ensures ScalarEnd(s, i + k, q) == ScalarEnd(s, i + |t|, Out)
    decreases |t| - k
  {
    if k < |t| {
      ScalarScanPasses(s, i, t, k + 1, Step(q, t[k]));
    }
  }

  lemma {:induction false} QuietHasNoComment(t: string, k: nat, q: Quote)
    requires k <= |t| && Quiet(t, k, q, false)
    ensures CommentAt(t, k, q) == |t| && forall j | k <= j < |t| :: t[j] != '\n'
    decreases |t| - k
  {
    if k < |t| { QuietHasNoComment(t, k + 1, Step(q, t[k])); }
  }

  lemma {:induction false} InertIsQuiet(t: string, k: nat, q: Quote)
    requires k <= |t| && Inert(t, k, q) && Without(t, '\n')
    ensures Quiet(t, k, q, true)
    decreases |t| - k
  {
    if k < |t| { InertIsQuiet(t, k + 1, Step(q, t[k])); }
  }

  lemma {:induction false} ShutIsQuiet(t: string, k: nat, q: Quote)
    requires k <= |t| && Quiet(t, k, q, true)
    ensures Quiet(t, k, q, false)
    decreases |t| - k
  {
    if k < |t| { ShutIsQuiet(t, k + 1, Step(q, t[k])); }
  }

  lemma {:induction false} QuietShift(a: string, b: string, k: nat, q: Quote, shut: bool)
    requires k <= |b| && Quiet(b, k, q, shut)
    ensures k == 0 && b != [] ==> !(q == Out && b[0] == '#')
    ensures Quiet(a + b, |a| + k, q, shut)
    decreases |b| - k
  {
    if k < |b| {
      assert (a + b)[|a| + k] == b[k];
      if k > 0 { assert (a + b)[|a| + k - 1] == b[k - 1]; }
      QuietShift(a, b, k + 1, Step(q, b[k]), shut);
    }
  }

  lemma {:induction false} QuietFrom(a: string, b: string, k: nat, q: Quote, shut: bool)
    requires k <= |a| && Quiet(a, k, q, true) && Quiet(b, 0, Out, shut)
    ensures Quiet(a + b, k, q, shut)
    decreases |a| - k
  {
    if k == |a| {
      QuietShift(a, b, 0, Out, shut);
    } else {
      assert (a + b)[k] == a[k];
      if k > 0 { assert (a + b)[k - 1] == a[k - 1]; }
      QuietFrom(a, b, k + 1, Step(q, a[k]), shut);
    }
  }

  /** Quiet pieces make quiet text. */
  lemma QuietConcat(a: string, b: string, shut: bool)
    requires Quiet(a, 0, Out, true) && Quiet(b, 0, Out, shut)
    ensures Quiet(a + b, 0, Out, shut)
  {
    QuietFrom(a, b, 0, Out, shut);
  }

  // ---------------------------------------------------------------- trimming

  ghost predicate Trimmed(t: string) { t != [] && !IsBlank(t[0]) && !IsTrailing(t[|t| - 1]) }

  lemma TrimmedStays(t: string)
    requires Trimmed(t)
    ensures Trim(t) == t && TrimRight(t) == t
  {
  }

  lemma TrimAfterSpace(t: string)
    requires Trimmed(t)
    ensures Trim([' '] + t) == t
  {
    assert ([' '] + t)[1..] == t;
    assert TrimLeft([' '] + t) == TrimLeft(t) == t;
  }

  // ---------------------------------------------------------------- written scalars

  lemma {:induction false} BareIsInert(v: string, k: nat)
    requires k <= |v| && forall j | 0 <= j < |v| :: BareChar(v[j])
    ensures Inert(v, k, Out)
    decreases |v| - k
  {
    if k < |v| {
      assert BareChar(v[k]);
      BareIsInert(v, k + 1);
    }
  }

  lemma DoubledUnfolds(v: string)
    requires v != []
    ensures v[0] == '\'' ==> Doubled(v) == ['\'', '\''] + Doubled(v[1..])
    ensures v[0] != '\'' ==> Doubled(v) == [v[0]] + Doubled(v[1..])
  {
  }

  lemma {:induction false} DoubledHasNoNewline(v: string)
    requires Without(v, '\n')
    ensures Without(Doubled(v), '\n')
  {
    if v != [] {
      DoubledUnfolds(v);
      DoubledHasNoNewline(v[1..]);
    }
  }

  /** The content of a quoted scalar, from any point on: inert, and read back as what it stands for. */
  lemma {:induction false} QuotedTail(before: string, v: string, s: string)
    requires s == before + Doubled(v) + ['\'']
    ensures Inert(s, |before|, Single) && SingleFrom(s, |before|) == v
    decreases |v|
  {
    var n := |before|;
    if v == [] {
      assert Inert(s, n + 1, Out);
    } else {
      DoubledUnfolds(v);
      var c := if v[0] == '\'' then ['\'', '\''] else [v[0]];
      assert s == (before + c) + Doubled(v[1..]) + ['\''];
      QuotedTail(before + c, v[1..], s);
      assert s[n] == v[0] && v == [v[0]] + v[1..];
      if v[0] == '\'' {
        assert s[n + 1] == '\'';
        assert Inert(s, n + 1, Out);
      }
    }
  }

  lemma QuotedReads(v: string)
    ensures Inert(Quoted(v), 0, Out) && Trimmed(Quoted(v)) && Unquote(Quoted(v)) == v
  {
    var t := Quoted(v);
    QuotedTail(['\''], v, t);
    assert t[0] == '\'' && t[|t| - 1] == '\'';
    TrimmedStays(t);
  }

  lemma BareReads(v: string)
    requires Bare(v)
    ensures Inert(v, 0, Out) && Trimmed(v) && Unquote(v) == v
  {
    BareIsInert(v, 0);
    assert BareChar(v[0]) && BareChar(v[|v| - 1]);
    TrimmedStays(v);
  }

  // ---------------------------------------------------------------- scans over double-quoted text

  predicate EndsScalar(c: char) { c == ',' || c == ']' || c == '}' || c == ':' }

  /** The bracket depth of a key scan after one more character. */
  function Depth(q: Quote, c: char, depth: int): int {
    if q != Out then depth
    else if c == '[' || c == '{' then depth + 1
    else if c == ']' || c == '}' then depth - 1
    else depth
  }

  function QuoteAfter(v: string, q: Quote): Quote { if v == [] then q else QuoteAfter(v[1..], Step(q, v[0])) }

  /**
   A key scan that is in state `q` before the content `v` of a double-quoted key is inside double quotes and outside
   brackets behind it, so that the closing quote closes. Every quote in `v`, escaped or not, counts for the scan.
   */
  predicate KeyCloses(v: string, q: Quote, depth: int): (r: bool)
    ensures r ==> QuoteAfter(v, q) == Double
  {
    if v == [] then q == Double && depth == 0 else KeyCloses(v[1..], Step(q, v[0]), Depth(q, v[0], depth))
  }

  /** A flow scan meets nothing that ends a scalar while it is outside quotes, and the closing quote closes. */
  predicate FlowCloses(v: string, q: Quote): (r: bool)
    ensures r ==> QuoteAfter(v, q) == Double
  {
    if v == [] then q == Double else (q == Out ==> !EndsScalar(v[0])) && FlowCloses(v[1..], Step(q, v[0]))
  }

  /** The escaped text of `v` and the closing quote, then `rest`, from position `n` to the end. */
  ghost predicate EndsEscaped(s: string, n: nat, v: string, rest: string) {
    n <= |s| && s[n..] == EscapedText(v) + ['"'] + rest
  }

  lemma SuffixStep(s: string, n: nat, c: string, rest: string)
    requires n <= |s| && s[n..] == c + rest
    ensures n + |c| <= |s| && s[n..n + |c|] == c && s[n + |c|..] == rest
  {
    assert |s[n..]| == |c| + |rest|;
    assert s[n..n + |c|] == s[n..][..|c|] == c;
    assert s[n + |c|..] == s[n..][|c|..] == rest;
  }

  /** From `n` to `m`, the character `c` or an escape that is read as it. */
  ghost predicate Spells(s: string, n: nat, m: nat, c: char) {
    && n < m < |s|
    && ((m == n + 1 && s[n] == c)
        || (m == n + 2 && s[n] == '\\' && (s[n + 1] == c || (IsEscapeLetter(s[n + 1]) && c == Escaped(s[n + 1])))))
  }

  /** The first character of `v` stands there, escaped, and neither the end nor a space follows it. */
  lemma EscapedStep(s: string, n: nat, v: string, rest: string) returns (m: nat)
    requires EndsEscaped(s, n, v, rest) && v != []
    ensures Spells(s, n, m, v[0]) && EndsEscaped(s, m, v[1..], rest) && s[m] != ' '
    ensures s[m - 1] != '\n' && (m == n + 1 ==> IsEscapeLetter(v[0]))
    ensures s[n] == '\\' && n + 2 < |s| ==> m == n + 2 && Escaped(s[n + 1]) == v[0]
  {
    var c, tail := Escape(v[0]), EscapedText(v[1..]) + ['"'] + rest;
    assert EscapedText(v) + ['"'] + rest == c + tail;
    SuffixStep(s, n, c, tail);
    m := n + |c|;
    assert s[m] == s[m..][0] == tail[0];
    if v[1..] != [] { assert tail[0] == Escape(v[1..][0])[0]; }
    assert forall k | 0 <= k < |c| :: s[n + k] == s[n..m][k] == c[k];
  }

  lemma LastQuote(s: string, n: nat, rest: string)
    requires EndsEscaped(s, n, [], rest)
    ensures n + 1 + |rest| == |s| && s[n] == '"' && s[n + 1..] == rest
  {
    assert EscapedText([]) + ['"'] + rest == ['"'] + rest;
    SuffixStep(s, n, ['"'], rest);
    assert s[n..n + 1][0] == s[n];
  }

  ghost predicate FlowGoes(s: string, i: nat, q: Quote, end: nat) { i <= |s| && ScalarEnd(s, i, q) == end }

  ghost predicate KeyGoes(s: string, i: nat, q: Quote, depth: int, end: nat) {
    i <= |s| && KeyEnd(s, i, q, depth) == end
  }

  predicate EndsKey(s: string, i: nat, q: Quote, depth: int)
    requires i < |s|
  {
    q == Out && s[i] == ':' && depth == 0 && (i + 1 == |s| || s[i + 1] == ' ')
  }

  lemma KeyGoesOn(s: string, i: nat, q: Quote, depth: int, end: nat)
    requires i < |s| && !EndsKey(s, i, q, depth)
    ensures KeyGoes(s, i, q, depth, end) <==> KeyGoes(s, i + 1, Step(q, s[i]), Depth(q, s[i], depth), end)
  {
  }

  /** What the scans see of a spelled character is what they would see of the character. */
  lemma FlowOver(s: string, n: nat, m: nat, c: char, q: Quote, end: nat)
    requires Spells(s, n, m, c) && (q == Out ==> !EndsScalar(s[m - 1]))
    ensures FlowGoes(s, n, q, end) <==> FlowGoes(s, m, Step(q, c), end)
  {
    if m == n + 2 { assert FlowGoes(s, n, q, end) <==> FlowGoes(s, n + 1, q, end); }
  }

  lemma KeyOver(s: string, n: nat, m: nat, c: char, q: Quote, depth: int, end: nat)
    requires Spells(s, n, m, c) && !EndsKey(s, m - 1, q, depth)
    ensures KeyGoes(s, n, q, depth, end) <==> KeyGoes(s, m, Step(q, c), Depth(q, c, depth), end)
  {
    KeyGoesOn(s, m - 1, q, depth, end);
    if m == n + 2 { KeyGoesOn(s, n, q, depth, end); }
  }

  lemma {:induction false} FlowScan(s: string, n: nat, v: string, q: Quote)
    requires EndsEscaped(s, n, v, ",") && FlowCloses(v, q)
    ensures FlowGoes(s, n, q, |s| - 1)
    decreases |v|
  {
    if v == [] {
      LastQuote(s, n, ",");
      assert s[n + 1] == s[n + 1..][0] == ',';
      assert ScalarEnd(s, n + 1, Out) == n + 1;
    } else {
      var m := EscapedStep(s, n, v, ",");
      FlowScan(s, m, v[1..], Step(q, v[0]));
      FlowOver(s, n, m, v[0], q, |s| - 1);
    }
  }

  lemma {:induction false} KeyScan(s: string, n: nat, v: string, q: Quote, depth: int)
    requires EndsEscaped(s, n, v, ":") && KeyCloses(v, q, depth)
    ensures KeyGoes(s, n, q, depth, |s| - 1)
    decreases |v|
  {
    if v == [] {
      LastQuote(s, n, ":");
      assert s[n + 1] == s[n + 1..][0] == ':';
      assert KeyGoes(s, n + 1, Out, 0, n + 1);
      KeyGoesOn(s, n, q, depth, n + 1);
    } else {
      var m := EscapedStep(s, n, v, ":");
      KeyScan(s, m, v[1..], Step(q, v[0]), Depth(q, v[0], depth));
      KeyOver(s, n, m, v[0], q, depth, |s| - 1);
    }
  }

  /** No key ends in double-quoted text: every colon in it is behind a backslash and before another character. */
  lemma {:induction false} LineScan(s: string, n: nat, v: string, q: Quote, depth: int)
    requires EndsEscaped(s, n, v, "")
    ensures KeyGoes(s, n, q, depth, |s|)
    decreases |v|
  {
    if v == [] {
      LastQuote(s, n, "");
      assert KeyGoes(s, n + 1, Step(q, '"'), depth, n + 1);
      KeyGoesOn(s, n, q, depth, n + 1);
    } else {
      var m := EscapedStep(s, n, v, "");
      LineScan(s, m, v[1..], Step(q, v[0]), Depth(q, v[0], depth));
      KeyOver(s, n, m, v[0], q, depth, |s|);
    }
  }

  /** No comment starts in it either. */
  lemma {:induction false} QuietScan(s: string, n: nat, v: string, q: Quote, shut: bool)
    requires EndsEscaped(s, n, v, "") && (shut ==> QuoteAfter(v, q) == Double)
    ensures Quiet(s, n, q, shut)
    decreases |v|
  {
    if v == [] {
      LastQuote(s, n, "");
      assert Quiet(s, n + 1, Step(q, '"'), shut);
    } else {
      var m := EscapedStep(s, n, v, "");
      QuietScan(s, m, v[1..], Step(q, v[0]), shut);
      if m == n + 2 { assert Quiet(s, n + 1, q, shut); }
    }
  }

  lemma {:induction false} DoubleReads(s: string, n: nat, v: string)
    requires EndsEscaped(s, n, v, "")
    ensures DoubleFrom(s, n) == v
    decreases |v|
  {
    if v == [] {
      LastQuote(s, n, "");
    } else {
      var m := EscapedStep(s, n, v, "");
      DoubleReads(s, m, v[1..]);
      DoubleUnfolds(s, n);
      assert v == [v[0]] + v[1..];
    }
  }

  lemma DoubleQuotedShape(v: string, t: string, rest: string)
    requires t == DoubleQuoted(v)
    ensures |t| >= 2 && t[0] == '"' && t[|t| - 1] == '"' && Trimmed(t)
    ensures EndsEscaped(t + rest, 1, v, rest) && (t + rest)[0] == '"'
  {
    assert (t + rest)[1..] == EscapedText(v) + ['"'] + rest;
  }

  lemma DoubleQuotedReads(v: string, t: string)
    requires t == DoubleQuoted(v)
    ensures Unquote(t) == v
  {
    DoubleQuotedShape(v, t, "");
    assert t + "" == t;
    DoubleReads(t, 1, v);
    TrimmedStays(t);
  }

  // ---------------------------------------------------------------- what may stand where

  /** A text that stands for the scalar `v`: not for null, and not refused. */
  ghost predicate ScalarText(v: string, t: string) {
    && Trimmed(t) && Unquote(t) == v && !IsNullText(t)
    && !IsBlockScalar(t[0]) && !IsAnchorOrTag(t[0]) && !IsBracket(t[0])
  }

  /** A text for `v` behind a dash or a key of a block. */
  ghost predicate LineToken(v: string, t: string) {
    ScalarText(v, t) && Quiet(t, 0, Out, false) && KeyEnd(t, 0, Out, 0) == |t|
  }

  /** A text for `v` inside a flow collection: the scan goes up to what follows it. */
  ghost predicate FlowToken(v: string, t: string) {
    ScalarText(v, t) && Quiet(t, 0, Out, true) && ScalarEnd(t + ",", 0, Out) == |t|
  }

  /** A text for the key `v` of a flow mapping. */
  ghost predicate FlowKeyToken(v: string, t: string) {
    Trimmed(t) && Unquote(t) == v && Quiet(t, 0, Out, true) && ScalarEnd(t + ",", 0, Out) == |t|
  }

  /** A text for the key `v` of a block mapping. */
  ghost predicate KeyToken(v: string, t: string) {
    && Trimmed(t) && Unquote(t) == v && !IsBracket(t[0]) && !IsSeqItem(t)
    && Quiet(t, 0, Out, true) && KeyEnd(t + ":", 0, Out, 0) == |t|
  }

  /** Scalars that can be keys of a block mapping, the empty one aside. */
  predicate KeyWritable(v: string) { Without(v, '\n') || KeyCloses(v, Double, 0) }

  /** Scalars that can stand in a flow collection, as key or as value. */
  predicate FlowWritable(v: string) { Without(v, '\n') || FlowCloses(v, Double) }

  lemma InertTokens(v: string, t: string)
    requires ScalarText(v, t) && Inert(t, 0, Out) && Without(t, '\n') && !IsSeqItem(t)
    ensures LineToken(v, t) && FlowToken(v, t) && KeyToken(v, t)
  {
    InertIsQuiet(t, 0, Out);
    ShutIsQuiet(t, 0, Out);
    AtSelf(t);
    KeyScanPasses(t, 0, t, 0, Out, 0);
    EachAt(t + ":", 0, t, 0);
    KeyScanPasses(t + ":", 0, t, 0, Out, 0);
    EachAt(t + ",", 0, t, 0);
    ScalarScanPasses(t + ",", 0, t, 0, Out);
  }

  lemma DoubleQuotedOnLine(v: string, t: string)
    requires t == DoubleQuoted(v)
    ensures LineToken(v, t)
  {
    DoubleQuotedShape(v, t, "");
    assert t + "" == t;
    DoubleQuotedReads(v, t);
    QuietScan(t, 1, v, Double, false);
    LineScan(t, 1, v, Double, 0);
  }

  lemma DoubleQuotedIsShut(v: string, t: string)
    requires t == DoubleQuoted(v) && QuoteAfter(v, Double) == Double
    ensures Quiet(t, 0, Out, true)
  {
    DoubleQuotedShape(v, t, "");
    assert t + "" == t;
    QuietScan(t, 1, v, Double, true);
  }

  lemma DoubleQuotedInFlow(v: string, t: string)
    requires t == DoubleQuoted(v) && FlowCloses(v, Double)
    ensures FlowToken(v, t)
  {
    DoubleQuotedOnLine(v, t);
    DoubleQuotedIsShut(v, t);
    DoubleQuotedShape(v, t, ",");
    FlowScan(t + ",", 1, v, Double);
  }

  lemma DoubleQuotedAsKey(v: string, t: string)
    requires t == DoubleQuoted(v) && KeyCloses(v, Double, 0)
    ensures KeyToken(v, t)
  {
    DoubleQuotedOnLine(v, t);
    DoubleQuotedIsShut(v, t);
    DoubleQuotedShape(v, t, ":");
    KeyScan(t + ":", 1, v, Double, 0);
  }

  /** Every scalar can be written on a line; those that are writable as a key or in flow, there. */
  lemma WrittenIsToken(v: string)
    ensures LineToken(v, Written(v))
    ensures FlowWritable(v) ==> FlowToken(v, Written(v))
    ensures KeyWritable(v) ==> KeyToken(v, Written(v))
  {
    var t := Written(v);
    if Bare(v) {
      BareReads(v);
      assert BareChar(v[0]) && (|v| > 1 ==> BareChar(v[1]));
      InertTokens(v, t);
    } else if Without(v, '\n') {
      QuotedReads(v);
      DoubledHasNoNewline(v);
      InertTokens(v, t);
    } else {
      DoubleQuotedOnLine(v, t);
      if FlowWritable(v) { DoubleQuotedInFlow(v, t); }
      if KeyWritable(v) { DoubleQuotedAsKey(v, t); }
    }
  }

  /** A text that stands for a scalar is read as that scalar: never as null, and never refused. */
  lemma TokenIsScalar(v: string, t: string, line: nat, e: Error)
    requires ScalarText(v, t)
    ensures MakeScalar(t, line, e) == (Scalar(line, v), e)
  {
    TrimmedStays(t);
  }

  // ---------------------------------------------------------------- tokens in place

  /** Where a key ends is decided by its text and what follows its colon. */
  lemma {:induction false} KeyInLine(t: string, u: string, s: string, i: nat, q: Quote, depth: int)
    requires u == t + ":" && i <= |t| < |s| && KeyEnd(u, i, q, depth) == |t| && s[..|t| + 1] == u
    requires |s| == |t| + 1 || s[|t| + 1] == ' '
    ensures KeyEnd(s, i, q, depth) == |t|
    decreases |t| - i
  {
    assert s[i] == s[..|t| + 1][i] == u[i];
    if i < |t| {
      assert s[i + 1] == s[..|t| + 1][i + 1] == u[i + 1];
      KeyInLine(t, u, s, i + 1, Step(q, u[i]), Depth(q, u[i], depth));
    }
  }

  /** A flow scalar in place is read up to where it ends. */
  lemma {:induction false} ScalarInPlace(t: string, u: string, s: string, i: nat, k: nat, q: Quote)
    requires u == t + "," && k <= |t| && ScalarEnd(u, k, q) == |t| && AtFrom(s, i, t, k)
    requires i + |t| < |s| ==> EndsScalar(s[i + |t|])
    ensures i + |t| <= |s| && ScalarEnd(s, i + k, q) == i + |t|
    decreases |t| - k
  {
    if k < |t| {
      assert u[k] == t[k];
      ScalarInPlace(t, u, s, i, k + 1, Step(q, t[k]));
    }
  }
}
