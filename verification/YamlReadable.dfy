/** Exactly which scalars the parser can read as a key of a block mapping, and which in a flow collection. */
module YamlReadable {
  import opened Text
  import opened YamlText
  import opened YamlGrammar
  import opened YamlTokens

  // ---------------------------------------------------------------- trimmed and quoted text

  lemma {:induction false} SingleKeepsLine(t: string, i: nat)
    requires Without(t, '\n')
    ensures Without(SingleFrom(t, i), '\n')
    decreases |t| - i
  {
    if i + 1 < |t| {
      SingleKeepsLine(t, i + 1);
      SingleKeepsLine(t, i + 2);
    }
  }

  /** Trimming cuts off blanks in front and blanks and carriage returns behind. */
  lemma {:induction false} TrimRightIs(s: string) returns (b: nat)
    ensures b <= |s| && TrimRight(s) == s[..b] && forall i | b <= i < |s| :: IsTrailing(s[i])
  {
    b := |s|;
    if s != [] && IsTrailing(s[|s| - 1]) {
      b := TrimRightIs(s[..|s| - 1]);
      assert forall i | b <= i < |s| - 1 :: s[..|s| - 1][i] == s[i];
      assert s[..|s| - 1][..b] == s[..b];
    } else {
      assert s[..b] == s;
    }
  }

  lemma {:induction false} TrimLeftIs(s: string) returns (a: nat)
    ensures a <= |s| && TrimLeft(s) == s[a..] && forall i | 0 <= i < a :: IsBlank(s[i])
  {
    a := 0;
    if s != [] && IsBlank(s[0]) {
      a := TrimLeftIs(s[1..]);
      assert forall i | 0 <= i < a :: s[1..][i] == s[i + 1];
      assert s[1..][a..] == s[a + 1..];
      a := a + 1;
    }
  }

  lemma TrimIs(s: string) returns (a: nat, b: nat)
    ensures a <= b <= |s| && Trim(s) == s[a..b]
    ensures forall i | 0 <= i < a :: IsBlank(s[i])
    ensures forall i | b <= i < |s| :: IsTrailing(s[i])
  {
    a := TrimLeftIs(s);
    var c := TrimRightIs(s[a..]);
    b := a + c;
    assert s[a..][..c] == s[a..b];
    assert forall i | b <= i < |s| :: s[i] == s[a..][i - a];
  }

  /** A line break can only come from double quotes. */
  lemma BreakIsQuoted(raw: string)
    requires Without(raw, '\n') && !Without(Unquote(raw), '\n')
    ensures var t := Trim(raw); Enclosed(t, '"') && Unquote(raw) == DoubleFrom(t, 1) && Without(t, '\n')
  {
    var t := Trim(raw);
    var a, b := TrimIs(raw);
    assert forall i | 0 <= i < |t| :: t[i] == raw[a + i];
    if Enclosed(t, '\'') { SingleKeepsLine(t, 1); }
  }

  /** One step of the double-quoted reading: over a character, or over a backslash and a character. */
  lemma DoubleStep(t: string, j: nat) returns (m: nat, c: char)
    requires j + 1 < |t|
    ensures Spells(t, j, m, c) && DoubleFrom(t, j) == [c] + DoubleFrom(t, m)
  {
    DoubleUnfolds(t, j);
    if t[j] == '\\' && j + 2 < |t| {
      m, c := j + 2, Escaped(t[j + 1]);
    } else {
      m, c := j + 1, t[j];
    }
  }

  // ---------------------------------------------------------------- scans over whatever was quoted

  /** The text `t` stands in `s` at `a`, ends with a double quote, and only blanks come between it and `end`. */
  ghost predicate QuotedAt(s: string, a: nat, t: string, end: nat) {
    && a + |t| <= end < |s| && t != [] && t[|t| - 1] == '"' && Without(t, '\n')
    && (forall k | 0 <= k < |t| :: s[a + k] == t[k])
    && forall k | a + |t| <= k < end :: IsTrailing(s[k])
  }

  lemma {:induction false} ScalarEndOverBlanks(s: string, i: nat, end: nat, q: Quote)
    requires i <= end < |s| && ScalarEnd(s, i, q) == end && forall k | i <= k < end :: IsTrailing(s[k])
    ensures q == Out
    decreases end - i
  {
    if i < end { ScalarEndOverBlanks(s, i + 1, end, q); }
  }

  lemma SpellsThere(s: string, a: nat, t: string, end: nat, j: nat, m: nat, c: char)
    requires QuotedAt(s, a, t, end) && Spells(t, j, m, c)
    ensures Spells(s, a + j, a + m, c) && s[a + m - 1] == t[m - 1]
  {
    assert s[a + j] == t[j] && s[a + m - 1] == t[m - 1];
  }

  /** Whatever escapes a double-quoted text uses, the flow scan over it goes as over its content. */
  lemma {:induction false} ScanFlowCloses(s: string, a: nat, t: string, j: nat, q: Quote, end: nat)
    requires QuotedAt(s, a, t, end) && j < |t| && FlowGoes(s, a + j, q, end)
    ensures FlowCloses(DoubleFrom(t, j), q)
    decreases |t| - j
  {
    if j + 1 == |t| {
      assert s[a + j] == t[j];
      ScalarEndOverBlanks(s, a + j + 1, end, Step(q, '"'));
    } else {
      var m, c := DoubleStep(t, j);
      SpellsThere(s, a, t, end, j, m, c);
      FlowStep(s, a + j, a + m, c, q, end);
      ScanFlowCloses(s, a, t, m, Step(q, c), end);
      assert DoubleFrom(t, j)[0] == c && DoubleFrom(t, j)[1..] == DoubleFrom(t, m);
    }
  }

  /** A scan that goes on past a spelled character. */
  lemma FlowStep(s: string, n: nat, m: nat, c: char, q: Quote, end: nat)
    requires Spells(s, n, m, c) && FlowGoes(s, n, q, end) && m <= end
    ensures FlowGoes(s, m, Step(q, c), end) && (q == Out ==> !EndsScalar(c))
  {
    if m == n + 2 { assert FlowGoes(s, n + 1, q, end); }
    FlowOver(s, n, m, c, q, end);
  }

  lemma KeyStep(s: string, n: nat, m: nat, c: char, q: Quote, depth: int, end: nat)
    requires Spells(s, n, m, c) && KeyGoes(s, n, q, depth, end) && m <= end
    ensures KeyGoes(s, m, Step(q, c), Depth(q, c, depth), end)
  {
    if m == n + 2 { KeyGoesOn(s, n, q, depth, end); }
    assert !EndsKey(s, m - 1, q, depth);
    KeyOver(s, n, m, c, q, depth, end);
  }

  lemma {:induction false} KeyEndOverBlanks(s: string, i: nat, end: nat, q: Quote, depth: int)
    requires i <= end < |s| && KeyEnd(s, i, q, depth) == end && forall k | i <= k < end :: IsTrailing(s[k])
    ensures q == Out && depth == 0
    decreases end - i
  {
    if i < end { KeyEndOverBlanks(s, i + 1, end, q, depth); }
  }

  lemma {:induction false} ScanKeyCloses(s: string, a: nat, t: string, j: nat, q: Quote, depth: int, end: nat)
    requires QuotedAt(s, a, t, end) && j < |t| && KeyGoes(s, a + j, q, depth, end)
    ensures KeyCloses(DoubleFrom(t, j), q, depth)
    decreases |t| - j
  {
    if j + 1 == |t| {
      assert s[a + j] == t[j];
      KeyGoesOn(s, a + j, q, depth, end);
      KeyEndOverBlanks(s, a + j + 1, end, Step(q, '"'), depth);
    } else {
      var m, c := DoubleStep(t, j);
      SpellsThere(s, a, t, end, j, m, c);
      KeyStep(s, a + j, a + m, c, q, depth, end);
      ScanKeyCloses(s, a, t, m, Step(q, c), Depth(q, c, depth), end);
      assert DoubleFrom(t, j)[0] == c && DoubleFrom(t, j)[1..] == DoubleFrom(t, m);
    }
  }

  /** A quoted text with its blanks, from `p` to `end`. */
  lemma QuotedSlice(s: string, p: nat, end: nat, raw: string) returns (a: nat)
    requires p <= end < |s| && raw == s[p..end] && Without(s, '\n') && !Without(Unquote(raw), '\n')
    ensures var t := Trim(raw);
      p <= a && QuotedAt(s, a, t, end) && |t| >= 2 && t[0] == '"' && Unquote(raw) == DoubleFrom(t, 1)
    ensures forall k | p <= k < a :: IsBlank(s[k])
  {
    SliceUnbroken(s, p, end);
    BreakIsQuoted(raw);
    var i, j := TrimIs(raw);
    a := p + i;
    SliceInPlace(s, p, end, raw, i, j, Trim(raw));
  }

  lemma SliceUnbroken(s: string, p: nat, end: nat)
    requires p <= end <= |s| && Without(s, '\n')
    ensures Without(s[p..end], '\n')
  {
  }

  lemma SliceInPlace(s: string, p: nat, end: nat, raw: string, i: nat, j: nat, t: string)
    requires p <= end < |s| && raw == s[p..end] && i <= j <= |raw| && t == raw[i..j]
    requires t != [] && t[|t| - 1] == '"' && Without(t, '\n')
    requires forall k | 0 <= k < i :: IsBlank(raw[k])
    requires forall k | j <= k < |raw| :: IsTrailing(raw[k])
    ensures QuotedAt(s, p + i, t, end) && forall k | p <= k < p + i :: IsBlank(s[k])
  {
    forall k | p <= k < p + i ensures IsBlank(s[k]) { assert s[k] == raw[k - p]; }
    forall k | p + j <= k < end ensures IsTrailing(s[k]) { assert s[k] == raw[k - p]; }
    forall k | 0 <= k < |t| ensures s[p + i + k] == t[k] { assert t[k] == raw[i + k]; }
  }

  lemma {:induction false} ScalarEndSkips(s: string, p: nat, a: nat)
    requires p <= a <= |s| && forall k | p <= k < a :: IsBlank(s[k])
    ensures ScalarEnd(s, p, Out) == ScalarEnd(s, a, Out)
    decreases a - p
  {
    if p < a { ScalarEndSkips(s, p + 1, a); }
  }

  lemma {:induction false} KeyEndSkips(s: string, p: nat, a: nat)
    requires p <= a <= |s| && forall k | p <= k < a :: IsBlank(s[k])
    ensures KeyEnd(s, p, Out, 0) == KeyEnd(s, a, Out, 0)
    decreases a - p
  {
    if p < a { KeyEndSkips(s, p + 1, a); }
  }

  // ---------------------------------------------------------------- readable if and only if writable

  /** What is read as a scalar of a flow collection can be written there. */
  lemma FlowReadIsWritable(s: string, p: nat, end: nat)
    requires Without(s, '\n') && p <= |s| && ScalarEnd(s, p, Out) == end < |s|
    ensures FlowWritable(Unquote(s[p..end]))
  {
    var raw := s[p..end];
    if !Without(Unquote(raw), '\n') {
      var a := QuotedSlice(s, p, end, raw);
      ScalarEndSkips(s, p, a);
      assert s[a] == Trim(raw)[0];
      ScanFlowCloses(s, a, Trim(raw), 1, Double, end);
    }
  }

  /** What is read as a key of a block mapping can be written as one. */
  lemma KeyReadIsWritable(text: string, value: KeyLine)
    requires Without(text, '\n') && value == KeyOf(text) && value.Key?
    ensures value.key != "" && KeyWritable(value.key)
  {
    var colon := KeyEnd(text, 0, Out, 0);
    var raw := text[0..colon];
    assert raw == text[..colon];
    if !Without(value.key, '\n') {
      var a := QuotedSlice(text, 0, colon, raw);
      KeyEndSkips(text, 0, a);
      assert text[a] == Trim(raw)[0];
      ScanKeyCloses(text, a, Trim(raw), 1, Double, 0, colon);
    }
  }

  /** A scalar is the key of some line if and only if it is not empty and writable as a key. */
  lemma KeyReadableIff(v: string)
    ensures (exists text :: Without(text, '\n') && KeyOf(text).Key? && KeyOf(text).key == v)
            <==> v != "" && KeyWritable(v)
  {
    if v != "" && KeyWritable(v) {
      var t := Written(v);
      WrittenIsToken(v);
      QuietHasNoComment(t, 0, Out) by { ShutIsQuiet(t, 0, Out); }
      assert (t + ":")[..|t|] == t;
      assert Without(t + ":", '\n') && KeyOf(t + ":").key == v;
    }
    forall text | Without(text, '\n') && KeyOf(text).Key? && KeyOf(text).key == v
      ensures v != "" && KeyWritable(v)
    {
      KeyReadIsWritable(text, KeyOf(text));
    }
  }

  /** The text is read, from `p` on and without error, as a scalar that something follows. */
  ghost predicate FlowScalarAt(s: string, p: nat, v: string) {
    && Without(s, '\n') && p <= |s|
    && var r := FlowValue(s, p, 1, NoError); r.node == Scalar(1, v) && r.err.NoError? && r.pos < |s|
  }

  lemma FlowScalarIsWritable(s: string, p: nat, v: string)
    requires FlowScalarAt(s, p, v)
    ensures FlowWritable(v)
  {
    var i := SkipBlanks(s, p);
    var end := ScalarEnd(s, i, Out);
    ScalarMade(s[i..end], 1);
    FlowReadIsWritable(s, i, end);
  }

  /** Trimming more than once changes nothing. */
  lemma TrimTwice(raw: string)
    requires raw == [] || !IsBlank(raw[0])
    ensures Trim(TrimRight(raw)) == Trim(raw) && Trim(Trim(raw)) == Trim(raw)
  {
    var b := TrimRightIs(raw);
    if b > 0 { assert TrimRight(raw)[0] == raw[0]; }
  }

  lemma ScalarMade(raw: string, line: nat)
    requires raw == [] || !IsBlank(raw[0])
    ensures var n := MakeScalar(TrimRight(raw), line, NoError).0; n.Null? || n == Scalar(line, Unquote(raw))
  {
    TrimTwice(raw);
  }

  /** A scalar can be read in a flow collection if and only if it is writable there. */
  lemma FlowReadableIff(v: string)
    ensures (exists s, p :: FlowScalarAt(s, p, v)) <==> FlowWritable(v)
  {
    if FlowWritable(v) {
      var t := Written(v);
      WrittenIsToken(v);
      QuietHasNoComment(t, 0, Out) by { ShutIsQuiet(t, 0, Out); }
      assert (t + ",")[0..|t|] == t;
      TrimmedStays(t);
      TokenIsScalar(v, t, 1, NoError);
      assert FlowScalarAt(t + ",", 0, v);
    }
    forall s, p | FlowScalarAt(s, p, v) ensures FlowWritable(v) { FlowScalarIsWritable(s, p, v); }
  }

  /** The documented escape of a double quote ends a flow scalar: `"a\",b"` is cut at its comma. */
  lemma EscapedQuoteCutsScalar()
    ensures var s := ['"', 'a', '\\', '"', ',', 'b', '"']; ScalarEnd(s, 0, Out) == 4 && Unquote(s) == "a\",b"
  {
    var s := ['"', 'a', '\\', '"', ',', 'b', '"'];
    assert ScalarEnd(s, 4, Out) == 4;
    assert ScalarEnd(s, 3, Double) == 4;
    assert ScalarEnd(s, 2, Double) == 4;
    assert ScalarEnd(s, 1, Double) == 4;
    assert Trimmed(s);
    TrimmedStays(s);
    assert DoubleFrom(s, 6) == [] && DoubleFrom(s, 5) == ['b'] && DoubleFrom(s, 4) == [',', 'b'];
    assert DoubleFrom(s, 2) == ['"', ',', 'b'] && DoubleFrom(s, 1) == ['a', '"', ',', 'b'];
  }

  /** A double quote and a line break can be neither a key nor in flow; with a second double quote they can. */
  lemma QuotesAndLineBreak()
    ensures var one, two := ['"', '\n'], ['"', '"', '\n'];
      && !KeyWritable(one) && !FlowWritable(one) && KeyWritable(two) && FlowWritable(two)
  {
    var two, one := ['"', '"', '\n'], ['"', '\n'];
    assert two[1..] == one && one[1..] == ['\n'] && ['\n'][1..] == [];
    assert KeyCloses([], Double, 0) && KeyCloses(['\n'], Double, 0) && KeyCloses(one, Out, 0);
    assert FlowCloses([], Double) && FlowCloses(['\n'], Double) && FlowCloses(one, Out);
    assert !KeyCloses([], Out, 0) && !KeyCloses(['\n'], Out, 0);
    assert !FlowCloses([], Out) && !FlowCloses(['\n'], Out);
    assert one[1] == '\n';
  }

  /** An open bracket between quotes can stand in flow but not in a key; a comma the other way round. */
  lemma BracketsAndCommas()
    ensures var open, comma := ['"', '[', '"', '\n'], ['"', ',', '"', '\n'];
      && !KeyWritable(open) && FlowWritable(open) && KeyWritable(comma) && !FlowWritable(comma)
  {
    var end := ['"', '\n'];
    var open, comma := ['"', '['] + end, ['"', ','] + end;
    assert open == ['"', '[', '"', '\n'] && comma == ['"', ',', '"', '\n'];
    assert open[1..] == ['['] + end && comma[1..] == [','] + end && open[3] == comma[3] == '\n';
    assert (['['] + end)[1..] == end && ([','] + end)[1..] == end && end[1..] == ['\n'] && ['\n'][1..] == [];
    assert !KeyCloses(['\n'], Double, 1) && !KeyCloses(end, Out, 1) && !KeyCloses(['['] + end, Out, 0);
    assert FlowCloses(['\n'], Double) && FlowCloses(end, Out) && FlowCloses(['['] + end, Out);
    assert KeyCloses(['\n'], Double, 0) && KeyCloses(end, Out, 0) && KeyCloses([','] + end, Out, 0);
    assert !FlowCloses([','] + end, Out);
  }
}
