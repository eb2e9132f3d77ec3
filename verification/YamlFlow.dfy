/** Trees, their flow form on one line, and the proof that reading the flow form gives the tree back. */
module YamlFlow {
  import opened Text
  import opened YamlText
  import opened YamlGrammar
  import opened YamlTokens

  /** A document as it is laid out: each scalar with the text it is written as, each collection in flow form or not. */
  datatype Tree =
    | Nil
    | Leaf(value: string, written: string)
    | List(items: seq<Tree>, inline: bool)
    | Dict(fields: seq<Pair>, inline: bool)

  datatype Pair = Pair(key: string, written: string, value: Tree)

  /** A node is what the tree says, whatever lines it came from. */
  ghost predicate Denotes(n: Node, t: Tree)
    decreases t, 0
  {
    match t
    case Nil => n.Null?
    case Leaf(value, _) => n.Scalar? && n.text == value
    case List(items, _) =>
      n.Seq? && |n.items| == |items| && forall i | 0 <= i < |items| :: Denotes(n.items[i], items[i])
    case Dict(fields, _) =>
      n.Map? && |n.fields| == |fields| && forall i | 0 <= i < |fields| :: FieldDenotes(n.fields[i], fields[i])
  }

  ghost predicate FieldDenotes(f: Field, p: Pair)
    decreases p, 0
  {
    f.key == p.key && Denotes(f.value, p.value)
  }

  /** Inside a flow collection every key and scalar is written as a token for that place. */
  ghost predicate FlowPrintable(t: Tree)
    decreases t, 0
  {
    match t
    case Nil => true
    case Leaf(value, written) => FlowToken(value, written)
    case List(items, _) => forall i | 0 <= i < |items| :: FlowPrintable(items[i])
    case Dict(fields, _) => forall i | 0 <= i < |fields| :: FlowPairPrintable(fields[i])
  }

  ghost predicate FlowPairPrintable(p: Pair)
    decreases p, 0
  {
    FlowKeyToken(p.key, p.written) && FlowPrintable(p.value)
  }

  /** In a block every key and scalar is written as a token for its place, and no key is empty. */
  ghost predicate Printable(t: Tree)
    decreases t, 0
  {
    match t
    case Nil => true
    case Leaf(value, written) => LineToken(value, written)
    case List(items, inline) =>
      if inline then FlowPrintable(t) else forall i | 0 <= i < |items| :: Printable(items[i])
    case Dict(fields, inline) =>
      if inline then FlowPrintable(t) else forall i | 0 <= i < |fields| :: PairPrintable(fields[i])
  }

  ghost predicate PairPrintable(p: Pair)
    decreases p, 0
  {
    p.key != "" && KeyToken(p.key, p.written) && Printable(p.value)
  }

  function FlowText(t: Tree): string
    decreases t, 1
  {
    match t
    case Nil => "~"
    case Leaf(_, written) => written
    case List(_, _) => ['['] + ItemsText(t, 0)
    case Dict(_, _) => ['{'] + FieldsText(t, 0)
  }

  /** The items from `k` on, with the closing bracket. */
  function ItemsText(t: Tree, k: nat): string
    requires t.List? && k <= |t.items|
    decreases t, 0, |t.items| - k, 0
  {
    if k == |t.items| then "]" else FlowText(t.items[k]) + ItemsAfter(t, k + 1)
  }

  function ItemsAfter(t: Tree, k: nat): string
    requires t.List? && 0 < k <= |t.items|
    decreases t, 0, |t.items| - k, 1
  {
    if k == |t.items| then "]" else ", " + ItemsText(t, k)
  }

  /** The fields from `k` on, with the closing bracket. */
  function FieldsText(t: Tree, k: nat): string
    requires t.Dict? && k <= |t.fields|
    decreases t, 0, |t.fields| - k, 0
  {
    if k == |t.fields| then "}" else FieldText(t.fields[k]) + FieldsAfter(t, k + 1)
  }

  function FieldText(f: Pair): string
    decreases f, 0
  {
    f.written + ": " + FlowText(f.value)
  }

  function FieldsAfter(t: Tree, k: nat): string
    requires t.Dict? && 0 < k <= |t.fields|
    decreases t, 0, |t.fields| - k, 1
  {
    if k == |t.fields| then "}" else ", " + FieldsText(t, k)
  }

  // ---------------------------------------------------------------- first and last characters

  /** No flow text starts like a closing bracket or a blank. */
  lemma FlowStarts(t: Tree)
    requires FlowPrintable(t)
    ensures FlowText(t) != [] && !IsBlank(FlowText(t)[0]) && FlowText(t)[0] != ']' && FlowText(t)[0] != '}'
    ensures t.List? ==> FlowText(t)[0] == '['
    ensures t.Dict? ==> FlowText(t)[0] == '{'
  {
  }

  /** What may follow a value. */
  predicate Closes(c: char) { c == ',' || c == ']' || c == '}' }

  ghost predicate Ended(s: string, i: nat) { i == |s| || (i < |s| && Closes(s[i])) }

  // ---------------------------------------------------------------- pieces of text in place

  lemma AtLeft(s: string, i: nat, a: string, b: string)
    requires At(s, i, a + b)
    ensures At(s, i, a) && At(s, i + |a|, b)
  {
    AtSlice(s, i, a + b);
    var piece := s[i..i + |a| + |b|];
    forall k | 0 <= k < |a| ensures s[i + k] == a[k] {
      assert piece[k] == (a + b)[k];
    }
    EachAt(s, i, a, 0);
    forall k | 0 <= k < |b| ensures s[i + |a| + k] == b[k] {
      assert piece[|a| + k] == (a + b)[|a| + k];
    }
    EachAt(s, i + |a|, b, 0);
  }

  lemma AtFirst(s: string, i: nat, t: string)
    requires At(s, i, t) && t != []
    ensures i < |s| && s[i] == t[0]
  {
  }

  lemma AtTwo(s: string, i: nat, t: string)
    requires At(s, i, t) && |t| >= 2
    ensures i + 1 < |s| && s[i] == t[0] && s[i + 1] == t[1]
  {
    AtIndex(s, i, t, 1);
  }

  // ---------------------------------------------------------------- reading back

  /** A token in place is read up to where it ends. */
  lemma TokenInPlace(s: string, i: nat, v: string, t: string)
    requires FlowKeyToken(v, t) && At(s, i, t)
    requires i + |t| < |s| ==> Closes(s[i + |t|]) || s[i + |t|] == ':'
    ensures i + |t| <= |s| && ScalarEnd(s, i, Out) == i + |t| && TrimRight(s[i..i + |t|]) == t
  {
    ScalarInPlace(t, t + ",", s, i, 0, Out);
    AtSlice(s, i, t);
    TrimmedStays(t);
  }

  lemma LeafInPlace(s: string, i: nat, v: string, t: string, line: nat)
    requires FlowToken(v, t) && At(s, i, t) && Ended(s, i + |t|)
    ensures FlowValue(s, i, line, NoError) == Parsed(Scalar(line, v), i + |t|, NoError)
  {
    AtFirst(s, i, t);
    TokenInPlace(s, i, v, t);
    TokenIsScalar(v, t, line, NoError);
  }

  lemma NilInPlace(s: string, i: nat, line: nat)
    requires At(s, i, "~") && Ended(s, i + 1)
    ensures FlowValue(s, i, line, NoError) == Parsed(Null(line), i + 1, NoError)
  {
    AtFirst(s, i, "~");
    AtSlice(s, i, "~");
    assert ScalarEnd(s, i, Out) == ScalarEnd(s, i + 1, Out) == i + 1;
    assert Trimmed("~");
    TrimmedStays("~");
  }

  ghost predicate ItemsSoFar(ns: seq<Node>, t: Tree) {
    t.List? && |ns| <= |t.items| && forall i | 0 <= i < |ns| :: Denotes(ns[i], t.items[i])
  }

  ghost predicate FieldsSoFar(ns: seq<Field>, t: Tree) {
    t.Dict? && |ns| <= |t.fields| && forall i | 0 <= i < |ns| :: FieldDenotes(ns[i], t.fields[i])
  }

  lemma OneMoreItem(ns: seq<Node>, t: Tree, n: Node)
    requires ItemsSoFar(ns, t) && |ns| < |t.items| && Denotes(n, t.items[|ns|])
    ensures ItemsSoFar(ns + [n], t)
  {
    forall i | 0 <= i < |ns| + 1 ensures Denotes((ns + [n])[i], t.items[i]) {
      if i < |ns| { assert (ns + [n])[i] == ns[i]; }
    }
  }

  lemma OneMoreField(ns: seq<Field>, t: Tree, f: Field)
    requires FieldsSoFar(ns, t) && |ns| < |t.fields| && FieldDenotes(f, t.fields[|ns|])
    ensures FieldsSoFar(ns + [f], t)
  {
    forall i | 0 <= i < |ns| + 1 ensures FieldDenotes((ns + [f])[i], t.fields[i]) {
      if i < |ns| { assert (ns + [f])[i] == ns[i]; }
    }
  }

  lemma AllItems(ns: seq<Node>, t: Tree, line: nat)
    requires ItemsSoFar(ns, t) && |ns| == |t.items|
    ensures Denotes(Seq(line, ns), t)
  {
  }

  lemma AllFields(ns: seq<Field>, t: Tree, line: nat)
    requires FieldsSoFar(ns, t) && |ns| == |t.fields|
    ensures Denotes(Map(line, ns), t)
  {
  }

  ghost predicate ReadsTo(r: Parsed, pos: nat, t: Tree) { r.pos == pos && r.err == NoError && Denotes(r.node, t) }

  /** What a reading from a position gives. */
  ghost predicate ValueGives(v: Parsed, s: string, i: nat, line: nat) {
    i <= |s| && v == FlowValue(s, i, line, NoError)
  }

  ghost predicate FieldGives(r: FlowEntry, s: string, i: nat, line: nat) {
    i <= |s| && r == FlowField(s, i, line, NoError)
  }

  ghost predicate ItemsGive(out: Parsed, s: string, i: nat, line: nat, ns: seq<Node>) {
    i <= |s| && out == FlowItems(s, i, line, NoError, ns)
  }

  ghost predicate FieldsGive(out: Parsed, s: string, i: nat, line: nat, ns: seq<Field>) {
    i <= |s| && out == FlowFields(s, i, line, NoError, ns)
  }

  /** A blank before an entry does not matter. */
  lemma ItemsAfterBlank(s: string, pos: nat, line: nat, ns: seq<Node>)
    requires pos < |s| && IsBlank(s[pos])
    ensures FlowItems(s, pos, line, NoError, ns) == FlowItems(s, pos + 1, line, NoError, ns)
  {
    assert SkipBlanks(s, pos) == SkipBlanks(s, pos + 1);
  }

  lemma FieldsAfterBlank(s: string, pos: nat, line: nat, ns: seq<Field>)
    requires pos < |s| && IsBlank(s[pos])
    ensures FlowFields(s, pos, line, NoError, ns) == FlowFields(s, pos + 1, line, NoError, ns)
  {
    assert SkipBlanks(s, pos) == SkipBlanks(s, pos + 1);
  }

  /** The last item, and an item followed by a comma and a blank. */
  lemma LastItem(s: string, i: nat, line: nat, ns: seq<Node>, v: Parsed, out: Parsed)
    requires i < |s| && !IsBlank(s[i]) && s[i] != ']' && ValueGives(v, s, i, line) && v.err == NoError
    requires v.pos < |s| && s[v.pos] == ']'
    requires ItemsGive(out, s, i, line, ns)
    ensures out == Parsed(Seq(line, ns + [v.node]), v.pos + 1, NoError)
  {
  }

  lemma NextItem(s: string, i: nat, line: nat, ns: seq<Node>, v: Parsed, out: Parsed)
    requires i < |s| && !IsBlank(s[i]) && s[i] != ']' && ValueGives(v, s, i, line) && v.err == NoError
    requires v.pos + 1 < |s| && s[v.pos] == ',' && IsBlank(s[v.pos + 1])
    requires ItemsGive(out, s, i, line, ns)
    ensures ItemsGive(out, s, v.pos + 2, line, ns + [v.node])
  {
    ItemsAfterBlank(s, v.pos + 1, line, ns + [v.node]);
  }

  /** The last field, and a field followed by a comma and a blank. */
  lemma LastField(s: string, i: nat, line: nat, ns: seq<Field>, r: FlowEntry, out: Parsed)
    requires i < |s| && !IsBlank(s[i]) && s[i] != '}' && FieldGives(r, s, i, line)
    requires r.HasField? && r.err == NoError && r.pos < |s| && s[r.pos] == '}'
    requires FieldsGive(out, s, i, line, ns)
    ensures out == Parsed(Map(line, ns + [r.field]), r.pos + 1, NoError)
  {
  }

  lemma NextField(s: string, i: nat, line: nat, ns: seq<Field>, r: FlowEntry, out: Parsed)
    requires i < |s| && !IsBlank(s[i]) && s[i] != '}' && FieldGives(r, s, i, line)
    requires r.HasField? && r.err == NoError && r.pos + 1 < |s| && s[r.pos] == ',' && IsBlank(s[r.pos + 1])
    requires FieldsGive(out, s, i, line, ns)
    ensures FieldsGive(out, s, r.pos + 2, line, ns + [r.field])
  {
    FieldsAfterBlank(s, r.pos + 1, line, ns + [r.field]);
  }

  lemma ValueAfterBlank(s: string, pos: nat, line: nat)
    requires pos < |s| && IsBlank(s[pos])
    ensures FlowValue(s, pos, line, NoError) == FlowValue(s, pos + 1, line, NoError)
  {
  }

  /** The flow form of a tree, anywhere in a line, is read back as that tree. */
  lemma {:induction false} FlowReads(t: Tree, s: string, i: nat, line: nat, e: nat, out: Parsed)
    requires FlowPrintable(t) && At(s, i, FlowText(t)) && e == i + |FlowText(t)| && Ended(s, e)
    requires ValueGives(out, s, i, line)
    ensures ReadsTo(out, e, t)
    decreases t, 3
  {
    FlowStarts(t);
    AtFirst(s, i, FlowText(t));
    match t
    case Nil => NilInPlace(s, i, line);
    case Leaf(value, written) => LeafInPlace(s, i, value, written, line);
    case List(_, _) =>
      AtLeft(s, i, ['['], ItemsText(t, 0));
      ItemsRead(t, s, i + 1, line, [], e, out);
    case Dict(_, _) =>
      AtLeft(s, i, ['{'], FieldsText(t, 0));
      FieldsRead(t, s, i + 1, line, [], e, out);
  }

  /** Where the pieces of the items' text lie. */
  lemma LastItemLies(t: Tree, k: nat, s: string, i: nat, e: nat)
    requires t.List? && k + 1 == |t.items| && At(s, i, ItemsText(t, k)) && e == i + |FlowText(t.items[k])|
    ensures At(s, i, FlowText(t.items[k])) && e < |s| && s[e] == ']' && e + 1 == i + |ItemsText(t, k)|
  {
    var item := FlowText(t.items[k]);
    assert ItemsAfter(t, k + 1) == "]";
    AtLeft(s, i, item, "]");
    AtFirst(s, i + |item|, "]");
  }

  /** A piece, a comma and a blank, and what follows. */
  lemma SeparatedLies(s: string, i: nat, piece: string, rest: string, e: nat)
    requires At(s, i, piece + (", " + rest)) && e == i + |piece|
    ensures At(s, i, piece) && e + 1 < |s| && s[e] == ',' && s[e + 1] == ' ' && At(s, e + 2, rest)
  {
    AtLeft(s, i, piece, ", " + rest);
    AtLeft(s, e, ", ", rest);
    AtTwo(s, e, ", ");
  }

  lemma NextItemLies(t: Tree, k: nat, s: string, i: nat, e: nat)
    requires t.List? && k + 1 < |t.items| && At(s, i, ItemsText(t, k)) && e == i + |FlowText(t.items[k])|
    ensures At(s, i, FlowText(t.items[k])) && e + 1 < |s| && s[e] == ',' && s[e + 1] == ' '
    ensures At(s, e + 2, ItemsText(t, k + 1)) && e + 2 + |ItemsText(t, k + 1)| == i + |ItemsText(t, k)|
  {
    var item, rest := FlowText(t.items[k]), ItemsText(t, k + 1);
    assert ItemsText(t, k) == item + (", " + rest);
    SeparatedLies(s, i, item, rest, e);
  }

  lemma ItemStarts(t: Tree, s: string, i: nat)
    requires FlowPrintable(t) && At(s, i, FlowText(t))
    ensures i < |s| && !IsBlank(s[i]) && s[i] != ']'
  {
    FlowStarts(t);
    AtFirst(s, i, FlowText(t));
  }

  /** The step at one item whose value is known to read back. */
  lemma LastItemReads(t: Tree, s: string, i: nat, line: nat, ns: seq<Node>, v: Parsed, e: nat, out: Parsed)
    requires ItemsSoFar(ns, t) && |ns| + 1 == |t.items| && i < |s| && !IsBlank(s[i]) && s[i] != ']'
    requires ValueGives(v, s, i, line) && ReadsTo(v, e, t.items[|ns|]) && e < |s| && s[e] == ']'
    requires ItemsGive(out, s, i, line, ns)
    ensures ReadsTo(out, e + 1, t)
  {
    LastItem(s, i, line, ns, v, out);
    OneMoreItem(ns, t, v.node);
    AllItems(ns + [v.node], t, line);
  }

  lemma NextItemReads(t: Tree, s: string, i: nat, line: nat, ns: seq<Node>, v: Parsed, e: nat, out: Parsed)
    requires ItemsSoFar(ns, t) && |ns| + 1 < |t.items| && i < |s| && !IsBlank(s[i]) && s[i] != ']'
    requires ValueGives(v, s, i, line) && ReadsTo(v, e, t.items[|ns|])
    requires e + 1 < |s| && s[e] == ',' && s[e + 1] == ' ' && ItemsGive(out, s, i, line, ns)
    ensures ItemsSoFar(ns + [v.node], t) && ItemsGive(out, s, e + 2, line, ns + [v.node])
  {
    NextItem(s, i, line, ns, v, out);
    OneMoreItem(ns, t, v.node);
  }

  lemma ItemEnded(t: Tree, k: nat, s: string, i: nat, e: nat)
    requires t.List? && k < |t.items| && At(s, i, ItemsText(t, k)) && e == i + |FlowText(t.items[k])|
    ensures i <= |s| && At(s, i, FlowText(t.items[k])) && Ended(s, e)
  {
    if k + 1 == |t.items| { LastItemLies(t, k, s, i, e); } else { NextItemLies(t, k, s, i, e); }
  }

  lemma NoItemLeft(t: Tree, s: string, i: nat, line: nat, ns: seq<Node>, out: Parsed)
    requires ItemsSoFar(ns, t) && |ns| == |t.items| && At(s, i, ItemsText(t, |ns|)) && i <= |s|
    requires ItemsGive(out, s, i, line, ns)
    ensures |ItemsText(t, |ns|)| == 1 && ReadsTo(out, i + 1, t)
  {
    AtFirst(s, i, "]");
    AllItems(ns, t, line);
  }

  /** One item is read, and the reading goes on behind it or ends. */
  lemma {:induction false} OneItem(t: Tree, s: string, i: nat, line: nat, ns: seq<Node>, e: nat, out: Parsed)
    returns (n: Node)
    requires FlowPrintable(t) && ItemsSoFar(ns, t) && |ns| < |t.items|
    requires At(s, i, ItemsText(t, |ns|)) && e == i + |FlowText(t.items[|ns|])|
    requires ItemsGive(out, s, i, line, ns)
    ensures ItemsSoFar(ns + [n], t)
    ensures |ns| + 1 == |t.items| ==> ReadsTo(out, i + |ItemsText(t, |ns|)|, t)
    ensures |ns| + 1 < |t.items| ==>
      && e + 2 <= |s| && At(s, e + 2, ItemsText(t, |ns| + 1))
      && e + 2 + |ItemsText(t, |ns| + 1)| == i + |ItemsText(t, |ns|)|
      && ItemsGive(out, s, e + 2, line, ns + [n])
    decreases t, 1
  {
    var k, v := |ns|, FlowValue(s, i, line, NoError);
    ItemEnded(t, k, s, i, e);
    ItemStarts(t.items[k], s, i);
    FlowReads(t.items[k], s, i, line, e, v);
    n := v.node;
    if k + 1 == |t.items| {
      OneMoreItem(ns, t, n);
      LastItemLies(t, k, s, i, e);
      LastItemReads(t, s, i, line, ns, v, e, out);
    } else {
      NextItemLies(t, k, s, i, e);
      NextItemReads(t, s, i, line, ns, v, e, out);
    }
  }

  lemma {:induction false} ItemsRead(t: Tree, s: string, i: nat, line: nat, ns: seq<Node>, end: nat, out: Parsed)
    requires FlowPrintable(t) && ItemsSoFar(ns, t) && At(s, i, ItemsText(t, |ns|)) && end == i + |ItemsText(t, |ns|)|
    requires ItemsGive(out, s, i, line, ns)
    ensures ReadsTo(out, end, t)
    decreases t, 2, |t.items| - |ns|
  {
    var k := |ns|;
    if k == |t.items| {
      NoItemLeft(t, s, i, line, ns, out);
    } else {
      var e := i + |FlowText(t.items[k])|;
      var n := OneItem(t, s, i, line, ns, e, out);
      if k + 1 < |t.items| {
        ItemsRead(t, s, e + 2, line, ns + [n], end, out);
      }
    }
  }

  lemma KeyInPlace(s: string, i: nat, f: Pair, colon: nat)
    requires FlowKeyToken(f.key, f.written) && At(s, i, f.written + ": ") && colon == i + |f.written|
    ensures FlowKey(s, i) == (f.key, colon) && colon + 1 < |s| && s[colon] == ':' && s[colon + 1] == ' '
  {
    AtLeft(s, i, f.written, ": ");
    AtTwo(s, colon, ": ");
    TokenInPlace(s, i, f.key, f.written);
  }

  lemma FieldUnfolds(s: string, i: nat, line: nat, key: string, colon: nat, r: FlowEntry) returns (v: Parsed)
    requires FieldGives(r, s, i, line) && FlowKey(s, i) == (key, colon)
    requires colon + 1 < |s| && s[colon] == ':' && s[colon + 1] == ' '
    ensures ValueGives(v, s, colon + 2, line) && r == HasField(Field(key, v.node), v.pos, v.err)
  {
    v := FlowValue(s, colon + 1, line, NoError);
    ValueAfterBlank(s, colon + 1, line);
  }

  ghost predicate FieldReadsTo(r: FlowEntry, pos: nat, f: Pair) {
    r.HasField? && r.pos == pos && r.err == NoError && FieldDenotes(r.field, f)
  }

  lemma {:induction false} FieldReads(f: Pair, s: string, i: nat, line: nat, e: nat, r: FlowEntry)
    requires FlowPairPrintable(f) && At(s, i, FieldText(f)) && e == i + |FieldText(f)| && Ended(s, e)
    requires FieldGives(r, s, i, line)
    ensures FieldReadsTo(r, e, f)
    decreases f, 0
  {
    var colon := i + |f.written|;
    AtLeft(s, i, f.written + ": ", FlowText(f.value));
    KeyInPlace(s, i, f, colon);
    var v := FieldUnfolds(s, i, line, f.key, colon, r);
    FlowReads(f.value, s, colon + 2, line, e, v);
  }

  lemma LastFieldLies(t: Tree, k: nat, s: string, i: nat, e: nat)
    requires t.Dict? && k + 1 == |t.fields| && At(s, i, FieldsText(t, k)) && e == i + |FieldText(t.fields[k])|
    ensures At(s, i, FieldText(t.fields[k])) && e < |s| && s[e] == '}' && e + 1 == i + |FieldsText(t, k)|
  {
    var f := FieldText(t.fields[k]);
    assert FieldsAfter(t, k + 1) == "}";
    AtLeft(s, i, f, "}");
    AtFirst(s, i + |f|, "}");
  }

  lemma NextFieldLies(t: Tree, k: nat, s: string, i: nat, e: nat)
    requires t.Dict? && k + 1 < |t.fields| && At(s, i, FieldsText(t, k)) && e == i + |FieldText(t.fields[k])|
    ensures At(s, i, FieldText(t.fields[k])) && e + 1 < |s| && s[e] == ',' && s[e + 1] == ' '
    ensures At(s, e + 2, FieldsText(t, k + 1)) && e + 2 + |FieldsText(t, k + 1)| == i + |FieldsText(t, k)|
  {
    var f, rest := FieldText(t.fields[k]), FieldsText(t, k + 1);
    assert FieldsText(t, k) == f + (", " + rest);
    SeparatedLies(s, i, f, rest, e);
  }

  lemma FieldStarts(f: Pair, s: string, i: nat)
    requires FlowPairPrintable(f) && At(s, i, FieldText(f))
    ensures i < |s| && !IsBlank(s[i]) && s[i] != '}'
  {
    assert FieldText(f)[0] == f.written[0];
    AtFirst(s, i, FieldText(f));
  }

  lemma LastFieldReads(t: Tree, s: string, i: nat, line: nat, ns: seq<Field>, r: FlowEntry, e: nat, out: Parsed)
    requires FieldsSoFar(ns, t) && |ns| + 1 == |t.fields| && i < |s| && !IsBlank(s[i]) && s[i] != '}'
    requires FieldGives(r, s, i, line) && FieldReadsTo(r, e, t.fields[|ns|]) && e < |s| && s[e] == '}'
    requires FieldsGive(out, s, i, line, ns)
    ensures ReadsTo(out, e + 1, t)
  {
    LastField(s, i, line, ns, r, out);
    OneMoreField(ns, t, r.field);
    AllFields(ns + [r.field], t, line);
  }

  lemma NextFieldReads(t: Tree, s: string, i: nat, line: nat, ns: seq<Field>, r: FlowEntry, e: nat, out: Parsed)
    requires FieldsSoFar(ns, t) && |ns| + 1 < |t.fields| && i < |s| && !IsBlank(s[i]) && s[i] != '}'
    requires FieldGives(r, s, i, line) && FieldReadsTo(r, e, t.fields[|ns|])
    requires e + 1 < |s| && s[e] == ',' && s[e + 1] == ' ' && FieldsGive(out, s, i, line, ns)
    ensures FieldsSoFar(ns + [r.field], t) && FieldsGive(out, s, e + 2, line, ns + [r.field])
  {
    NextField(s, i, line, ns, r, out);
    OneMoreField(ns, t, r.field);
  }

  lemma FieldEnded(t: Tree, k: nat, s: string, i: nat, e: nat)
    requires t.Dict? && k < |t.fields| && At(s, i, FieldsText(t, k)) && e == i + |FieldText(t.fields[k])|
    ensures i <= |s| && At(s, i, FieldText(t.fields[k])) && Ended(s, e)
  {
    if k + 1 == |t.fields| { LastFieldLies(t, k, s, i, e); } else { NextFieldLies(t, k, s, i, e); }
  }

  lemma NoFieldLeft(t: Tree, s: string, i: nat, line: nat, ns: seq<Field>, out: Parsed)
    requires FieldsSoFar(ns, t) && |ns| == |t.fields| && At(s, i, FieldsText(t, |ns|)) && i <= |s|
    requires FieldsGive(out, s, i, line, ns)
    ensures |FieldsText(t, |ns|)| == 1 && ReadsTo(out, i + 1, t)
  {
    AtFirst(s, i, "}");
    AllFields(ns, t, line);
  }

  /** One field is read, and the reading goes on behind it or ends. */
  lemma {:induction false} OneField(t: Tree, s: string, i: nat, line: nat, ns: seq<Field>, e: nat, out: Parsed)
    returns (f: Field)
    requires FlowPrintable(t) && FieldsSoFar(ns, t) && |ns| < |t.fields|
    requires At(s, i, FieldsText(t, |ns|)) && e == i + |FieldText(t.fields[|ns|])|
    requires FieldsGive(out, s, i, line, ns)
    ensures FieldsSoFar(ns + [f], t)
    ensures |ns| + 1 == |t.fields| ==> ReadsTo(out, i + |FieldsText(t, |ns|)|, t)
    ensures |ns| + 1 < |t.fields| ==>
      && e + 2 <= |s| && At(s, e + 2, FieldsText(t, |ns| + 1))
      && e + 2 + |FieldsText(t, |ns| + 1)| == i + |FieldsText(t, |ns|)|
      && FieldsGive(out, s, e + 2, line, ns + [f])
    decreases t, 1
  {
    var k, r := |ns|, FlowField(s, i, line, NoError);
    FieldEnded(t, k, s, i, e);
    FieldStarts(t.fields[k], s, i);
    FieldReads(t.fields[k], s, i, line, e, r);
    f := r.field;
    if k + 1 == |t.fields| {
      OneMoreField(ns, t, f);
      LastFieldLies(t, k, s, i, e);
      LastFieldReads(t, s, i, line, ns, r, e, out);
    } else {
      NextFieldLies(t, k, s, i, e);
      NextFieldReads(t, s, i, line, ns, r, e, out);
    }
  }

  lemma {:induction false} FieldsRead(t: Tree, s: string, i: nat, line: nat, ns: seq<Field>, end: nat, out: Parsed)
    requires FlowPrintable(t) && FieldsSoFar(ns, t) && At(s, i, FieldsText(t, |ns|)) && end == i + |FieldsText(t, |ns|)|
    requires FieldsGive(out, s, i, line, ns)
    ensures ReadsTo(out, end, t)
    decreases t, 2, |t.fields| - |ns|
  {
    var k := |ns|;
    if k == |t.fields| {
      NoFieldLeft(t, s, i, line, ns, out);
    } else {
      var e := i + |FieldText(t.fields[k])|;
      var f := OneField(t, s, i, line, ns, e, out);
      if k + 1 < |t.fields| {
        FieldsRead(t, s, e + 2, line, ns + [f], end, out);
      }
    }
  }

  /** A line that holds the flow form of a collection and nothing else is read as that collection. */
  lemma FlowRoundTrip(t: Tree, line: nat)
    requires FlowPrintable(t)
    ensures Flow(FlowText(t), line, NoError).1 == NoError && Denotes(Flow(FlowText(t), line, NoError).0, t)
  {
    AtSelf(FlowText(t));
    FlowReads(t, FlowText(t), 0, line, |FlowText(t)|, FlowValue(FlowText(t), 0, line, NoError));
  }

  // ---------------------------------------------------------------- flow text is quiet

  lemma ShortQuiet()
    ensures Quiet("[", 0, Out, true) && Quiet("]", 0, Out, true) && Quiet("{", 0, Out, true) && Quiet("}", 0, Out, true)
    ensures Quiet("~", 0, Out, true) && Quiet(", ", 0, Out, true)
    ensures Quiet(": ", 0, Out, true) && Quiet(":", 0, Out, true)
  {
    assert Quiet(", ", 2, Out, true) && Quiet(", ", 1, Out, true);
    assert Quiet(": ", 2, Out, true) && Quiet(": ", 1, Out, true);
  }

  lemma {:induction false} FlowIsQuiet(t: Tree)
    requires FlowPrintable(t)
    ensures Quiet(FlowText(t), 0, Out, true)
    decreases t, 2
  {
    ShortQuiet();
    match t
    case Nil =>
    case Leaf(_, _) =>
    case List(_, _) =>
      ItemsAreQuiet(t, 0);
      QuietConcat("[", ItemsText(t, 0), true);
    case Dict(_, _) =>
      FieldsAreQuiet(t, 0);
      QuietConcat("{", FieldsText(t, 0), true);
  }

  lemma {:induction false} ItemsAreQuiet(t: Tree, k: nat)
    requires t.List? && FlowPrintable(t) && k <= |t.items|
    ensures Quiet(ItemsText(t, k), 0, Out, true)
    decreases t, 1, |t.items| - k
  {
    ShortQuiet();
    if k < |t.items| {
      FlowIsQuiet(t.items[k]);
      if k + 1 < |t.items| {
        ItemsAreQuiet(t, k + 1);
        QuietConcat(", ", ItemsText(t, k + 1), true);
      }
      QuietConcat(FlowText(t.items[k]), ItemsAfter(t, k + 1), true);
    }
  }

  lemma KeyIsQuiet(written: string)
    requires Quiet(written, 0, Out, true)
    ensures Quiet(written + ": ", 0, Out, true) && Quiet(written + ":", 0, Out, true)
  {
    ShortQuiet();
    QuietConcat(written, ": ", true);
    QuietConcat(written, ":", true);
  }

  lemma {:induction false} FieldsAreQuiet(t: Tree, k: nat)
    requires t.Dict? && FlowPrintable(t) && k <= |t.fields|
    ensures Quiet(FieldsText(t, k), 0, Out, true)
    decreases t, 1, |t.fields| - k
  {
    ShortQuiet();
    if k < |t.fields| {
      var f := t.fields[k];
      assert FlowPairPrintable(f);
      KeyIsQuiet(f.written);
      FlowIsQuiet(f.value);
      QuietConcat(f.written + ": ", FlowText(f.value), true);
      if k + 1 < |t.fields| {
        FieldsAreQuiet(t, k + 1);
        QuietConcat(", ", FieldsText(t, k + 1), true);
      }
      QuietConcat(FieldText(f), FieldsAfter(t, k + 1), true);
    }
  }
}
