/** Plain values: which ones a document can hold, and printing one and parsing the text gives it back. */
module YamlValues {
  import opened YamlGrammar
  import opened YamlTokens
  import opened YamlFlow
  import opened YamlBlock
  import opened YamlDocument

  datatype Value =
    | Nothing
    | Text(text: string)
    | Items(items: seq<Value>)
    | Fields(fields: seq<Named>)

  datatype Named = Named(key: string, value: Value)

  /** What a node holds, whatever lines it came from. */
  function ValueOf(n: Node): Value
    decreases n, 0
  {
    match n
    case Null(_) => Nothing
    case Scalar(_, text) => Text(text)
    case Seq(_, items) => Items(seq(|items|, i requires 0 <= i < |items| => ValueOf(items[i])))
    case Map(_, fields) => Fields(seq(|fields|, i requires 0 <= i < |fields| => NamedOf(fields[i])))
  }

  function NamedOf(f: Field): Named
    decreases f, 0
  {
    Named(f.key, ValueOf(f.value))
  }

  // ---------------------------------------------------------------- values a document can hold

  /** Every key and scalar can stand in a flow collection. */
  predicate FitsFlow(v: Value)
    decreases v, 0
  {
    match v
    case Nothing => true
    case Text(text) => FlowWritable(text)
    case Items(items) => forall i | 0 <= i < |items| :: FitsFlow(items[i])
    case Fields(fields) => forall i | 0 <= i < |fields| :: FitsFlowField(fields[i])
  }

  predicate FitsFlowField(p: Named)
    decreases p, 0
  {
    FlowWritable(p.key) && FitsFlow(p.value)
  }

  /** Any scalar fits behind a key or a dash; a mapping fits field by field, or else as a flow mapping. */
  predicate Fits(v: Value)
    decreases v, 1
  {
    match v
    case Nothing => true
    case Text(_) => true
    case Items(items) => forall i | 0 <= i < |items| :: Fits(items[i])
    case Fields(_) => FieldsFit(v) || FitsFlow(v)
  }

  predicate FieldsFit(v: Value)
    requires v.Fields?
    decreases v, 0
  {
    forall i | 0 <= i < |v.fields| :: FieldFits(v.fields[i])
  }

  predicate FieldFits(p: Named)
    decreases p, 0
  {
    p.key != "" && KeyWritable(p.key) && Fits(p.value)
  }

  /** What a document can be: nothing, or a collection in block form. */
  predicate FitsDocument(v: Value) {
    || v.Nothing?
    || (v.Items? && v.items != [] && Fits(v))
    || (v.Fields? && v.fields != [] && FieldsFit(v))
  }

  // ---------------------------------------------------------------- printing

  function LayOut(v: Value): Tree
    decreases v, 0
  {
    match v
    case Nothing => Nil
    case Text(text) => Leaf(text, Written(text))
    case Items(items) => List(seq(|items|, i requires 0 <= i < |items| => LayOut(items[i])), false)
    case Fields(fields) =>
      if FieldsFit(v) then Dict(seq(|fields|, i requires 0 <= i < |fields| => LayOutField(fields[i])), false)
      else LayOutFlow(v)
  }

  function LayOutField(p: Named): Pair
    decreases p, 0
  {
    Pair(p.key, Written(p.key), LayOut(p.value))
  }

  function LayOutFlow(v: Value): Tree
    decreases v, 0
  {
    match v
    case Nothing => Nil
    case Text(text) => Leaf(text, Written(text))
    case Items(items) => List(seq(|items|, i requires 0 <= i < |items| => LayOutFlow(items[i])), true)
    case Fields(fields) => Dict(seq(|fields|, i requires 0 <= i < |fields| => LayOutFlowField(fields[i])), true)
  }

  function LayOutFlowField(p: Named): Pair
    decreases p, 0
  {
    Pair(p.key, Written(p.key), LayOutFlow(p.value))
  }

  lemma {:induction false} LayOutFlowPrintable(v: Value)
    requires FitsFlow(v)
    ensures FlowPrintable(LayOutFlow(v))
    decreases v, 0
  {
    match v
    case Nothing =>
    case Text(text) => WrittenIsToken(text);
    case Items(items) =>
      var t := LayOutFlow(v);
      forall i | 0 <= i < |items| ensures FlowPrintable(t.items[i]) { LayOutFlowPrintable(items[i]); }
    case Fields(fields) =>
      var t := LayOutFlow(v);
      forall i | 0 <= i < |fields| ensures FlowPairPrintable(t.fields[i]) {
        assert FitsFlowField(fields[i]);
        WrittenIsToken(fields[i].key);
        LayOutFlowPrintable(fields[i].value);
      }
  }

  lemma {:induction false} LayOutPrintable(v: Value)
    requires Fits(v)
    ensures Printable(LayOut(v))
    decreases v, 0
  {
    var t := LayOut(v);
    if v.Text? {
      WrittenIsToken(v.text);
    } else if v.Items? {
      forall i | 0 <= i < |v.items| ensures Printable(t.items[i]) { LayOutPrintable(v.items[i]); }
    } else if v.Fields? && FieldsFit(v) {
      forall i | 0 <= i < |v.fields| ensures PairPrintable(t.fields[i]) { LayOutFieldPrintable(v.fields[i]); }
    } else if v.Fields? {
      LayOutFlowPrintable(v);
    }
  }

  lemma {:induction false} LayOutFieldPrintable(p: Named)
    requires FieldFits(p)
    ensures PairPrintable(LayOutField(p))
    decreases p, 0
  {
    WrittenIsToken(p.key);
    LayOutPrintable(p.value);
  }

  lemma {:induction false} DenotesLayOutFlow(n: Node, v: Value)
    requires Denotes(n, LayOutFlow(v))
    ensures ValueOf(n) == v
    decreases v, 0
  {
    var t := LayOutFlow(v);
    if v.Items? {
      forall i | 0 <= i < |v.items| ensures ValueOf(n.items[i]) == v.items[i] {
        assert Denotes(n.items[i], t.items[i]);
        DenotesLayOutFlow(n.items[i], v.items[i]);
      }
    } else if v.Fields? {
      forall i | 0 <= i < |v.fields| ensures NamedOf(n.fields[i]) == v.fields[i] {
        assert FieldDenotes(n.fields[i], t.fields[i]) && t.fields[i] == LayOutFlowField(v.fields[i]);
        DenotesLayOutFlow(n.fields[i].value, v.fields[i].value);
      }
    }
  }

  lemma {:induction false} DenotesLayOut(n: Node, v: Value)
    requires Denotes(n, LayOut(v))
    ensures ValueOf(n) == v
    decreases v, 0
  {
    var t := LayOut(v);
    if v.Items? {
      forall i | 0 <= i < |v.items| ensures ValueOf(n.items[i]) == v.items[i] {
        assert Denotes(n.items[i], t.items[i]);
        DenotesLayOut(n.items[i], v.items[i]);
      }
    } else if v.Fields? && FieldsFit(v) {
      forall i | 0 <= i < |v.fields| ensures NamedOf(n.fields[i]) == v.fields[i] {
        assert FieldDenotes(n.fields[i], t.fields[i]) && t.fields[i] == LayOutField(v.fields[i]);
        DenotesLayOut(n.fields[i].value, v.fields[i].value);
      }
    } else if v.Fields? {
      DenotesLayOutFlow(n, v);
    }
  }

  function Document(v: Value): string
    requires FitsDocument(v)
  {
    if v.Nothing? then "" else Print(LayOut(v))
  }

  /** Parsing the printed value gives the value. */
  lemma ValueRoundTrip(v: Value, r: Result)
    requires FitsDocument(v) && r == Parse(Document(v))
    ensures r.Ok? && ValueOf(r.root) == v
  {
    if !v.Nothing? {
      LayOutPrintable(v);
      DocumentRoundTrip(LayOut(v), r);
      DenotesLayOut(r.root, v);
    }
  }

  /** Only keys are restricted, not scalars. */
  predicate KeysFit(v: Value)
    decreases v, 0
  {
    match v
    case Nothing => true
    case Text(_) => true
    case Items(items) => forall i | 0 <= i < |items| :: KeysFit(items[i])
    case Fields(fields) => forall i | 0 <= i < |fields| :: KeyFits(fields[i])
  }

  predicate KeyFits(p: Named)
    decreases p, 0
  {
    p.key != "" && KeyWritable(p.key) && KeysFit(p.value)
  }

  lemma {:induction false} KeysDecide(v: Value)
    requires KeysFit(v)
    ensures Fits(v) && (v.Fields? ==> FieldsFit(v))
    decreases v, 0
  {
    if v.Items? {
      forall i | 0 <= i < |v.items| ensures Fits(v.items[i]) { KeysDecide(v.items[i]); }
    } else if v.Fields? {
      forall i | 0 <= i < |v.fields| ensures FieldFits(v.fields[i]) {
        assert KeyFits(v.fields[i]);
        KeysDecide(v.fields[i].value);
      }
    }
  }
}
