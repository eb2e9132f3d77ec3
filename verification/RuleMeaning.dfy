/**
 What the expansion of a `when` means, independently of bits: the chosen alternatives agree with the plain
 conjunction exactly when no atom is asked for with both polarities.
 */
module RuleMeaning {
  import opened Common
  import opened Features
  import opened Rules

  lemma {:induction false} ProductMember(front: seq<set<Atom>>, atoms: seq<Atom>, c: set<Atom>)
    ensures c in Product(front, atoms)
       <==> exists i, j :: 0 <= i < |front| && 0 <= j < |atoms| && c == front[i] + {atoms[j]}
  {
    if front != [] {
      var n := |front| - 1;
      ProductMember(front[..n], atoms, c);
      var block := seq(|atoms|, j requires 0 <= j < |atoms| => front[n] + {atoms[j]});
      assert Product(front, atoms) == Product(front[..n], atoms) + block;
      if c in Product(front[..n], atoms) {
        var i, j :| 0 <= i < n && 0 <= j < |atoms| && c == front[..n][i] + {atoms[j]};
        assert c == front[i] + {atoms[j]};
      }
      if i, j :| 0 <= i < |front| && 0 <= j < |atoms| && c == front[i] + {atoms[j]} {
        if i < n { assert c == front[..n][i] + {atoms[j]}; } else { assert c == block[j]; }
      }
    }
  }

  /** A conjunction that holds selects a choice all of whose atoms hold. */
  lemma {:induction false} HoldingChoice(v: Truth, cls: seq<Clause>) returns (c: set<Atom>)
    requires Plain(v, cls)
    ensures c in Choices(cls) && forall a | a in c :: v(a)
  {
    if cls == [] {
      c := {};
    } else {
      var n := |cls| - 1;
      c := HoldingChoice(v, cls[..n]);
      assert ClauseHolds(v, cls[n]);
      if cls[n].AnyOf? && cls[n].atoms != [] {
        var front := Choices(cls[..n]);
        var i :| 0 <= i < |front| && front[i] == c;
        var j :| 0 <= j < |cls[n].atoms| && v(cls[n].atoms[j]);
        ProductMember(front, cls[n].atoms, c + {cls[n].atoms[j]});
        c := c + {cls[n].atoms[j]};
      }
    }
  }

  /** The choice of the last clause taken off. */
  lemma FrontChoice(cls: seq<Clause>, c: set<Atom>) returns (front: set<Atom>)
    requires cls != [] && c in Choices(cls)
    ensures front in Choices(cls[..|cls| - 1]) && front <= c
    ensures var last := cls[|cls| - 1];
            if last.AnyOf? && last.atoms != [] then
              exists j :: 0 <= j < |last.atoms| && c == front + {last.atoms[j]}
            else c == front
  {
    var n := |cls| - 1;
    front := c;
    if cls[n].AnyOf? && cls[n].atoms != [] {
      var fs := Choices(cls[..n]);
      ProductMember(fs, cls[n].atoms, c);
      var i, j :| 0 <= i < |fs| && 0 <= j < |cls[n].atoms| && c == fs[i] + {cls[n].atoms[j]};
      front := fs[i];
    }
  }

  lemma PositiveIntro(cls: seq<Clause>, i: nat, j: nat)
    requires i < |cls| && cls[i].AnyOf? && j < |cls[i].atoms|
    ensures cls[i].atoms[j] in Positives(cls)
  {
  }

  lemma PositivesGrow(cls: seq<Clause>, n: nat)
    requires n <= |cls|
    ensures Positives(cls[..n]) <= Positives(cls)
  {
    forall x | x in Positives(cls[..n]) ensures x in Positives(cls) {
      var i, j :| 0 <= i < n && cls[..n][i].AnyOf? && 0 <= j < |cls[..n][i].atoms| && cls[..n][i].atoms[j] == x;
      PositiveIntro(cls, i, j);
    }
  }

  /** A choice takes only listed alternatives. */
  lemma {:induction false} ChoiceWithin(cls: seq<Clause>, c: set<Atom>)
    requires c in Choices(cls)
    ensures c <= Positives(cls)
    decreases |cls|
  {
    if cls != [] {
      var n := |cls| - 1;
      var front := FrontChoice(cls, c);
      ChoiceWithin(cls[..n], front);
      PositivesGrow(cls, n);
      if cls[n].AnyOf? && cls[n].atoms != [] {
        var j :| 0 <= j < |cls[n].atoms| && c == front + {cls[n].atoms[j]};
        PositiveIntro(cls, n, j);
      }
    }
  }

  /** A choice takes one alternative from each non-empty list. */
  lemma {:induction false} ChoiceCovers(cls: seq<Clause>, c: set<Atom>, i: nat) returns (j: nat)
    requires c in Choices(cls) && i < |cls| && cls[i].AnyOf? && cls[i].atoms != []
    ensures j < |cls[i].atoms| && cls[i].atoms[j] in c
    decreases |cls|
  {
    var n := |cls| - 1;
    var front := FrontChoice(cls, c);
    if i == n {
      j :| 0 <= j < |cls[n].atoms| && c == front + {cls[n].atoms[j]};
    } else {
      j := ChoiceCovers(cls[..n], front, i);
    }
  }

  /** Every listed alternative is in some choice. */
  lemma {:induction false} ChoiceContaining(cls: seq<Clause>, x: Atom) returns (c: set<Atom>)
    requires x in Positives(cls)
    ensures c in Choices(cls) && x in c
    decreases |cls|
  {
    var n := |cls| - 1;
    var front := Choices(cls[..n]);
    if x in Positives(cls[..n]) {
      c := ChoiceContaining(cls[..n], x);
      if cls[n].AnyOf? && cls[n].atoms != [] {
        var i :| 0 <= i < |front| && front[i] == c;
        ProductMember(front, cls[n].atoms, c + {cls[n].atoms[0]});
        c := c + {cls[n].atoms[0]};
      }
    } else {
      var i, j :| 0 <= i < |cls| && cls[i].AnyOf? && 0 <= j < |cls[i].atoms| && cls[i].atoms[j] == x;
      assert forall m | 0 <= m < n :: cls[..n][m] == cls[m];
      assert i == n;
      c := front[0] + {x};
      ProductMember(front, cls[n].atoms, c);
    }
  }

  lemma PlainImpliesSetWins(v: Truth, cls: seq<Clause>)
    requires Plain(v, cls)
    ensures SetWins(v, cls)
  {
    var c := HoldingChoice(v, cls);
    var i :| 0 <= i < |Choices(cls)| && Choices(cls)[i] == c;
    assert ChoiceHolds(v, Choices(cls)[i], Negatives(cls));
  }

  lemma SetWinsImpliesPlain(v: Truth, cls: seq<Clause>)
    requires SetWins(v, cls) && NoConflict(cls)
    ensures Plain(v, cls)
  {
    var m :| 0 <= m < |Choices(cls)| && ChoiceHolds(v, Choices(cls)[m], Negatives(cls));
    var c := Choices(cls)[m];
    ChoiceWithin(cls, c);
    forall i | 0 <= i < |cls| ensures ClauseHolds(v, cls[i]) {
      if cls[i].NoneOf? {
        forall j | 0 <= j < |cls[i].atoms| ensures !v(cls[i].atoms[j]) {
          assert cls[i].atoms[j] in Negatives(cls) - c;
        }
      } else if cls[i].atoms != [] {
        var j := ChoiceCovers(cls, c, i);
      }
    }
  }

  /**
   The rows of a `when` mean its conjunction, whatever the atoms' truth, if and only if no atom is asked for with both
   polarities. This is over assignments of truth to atoms, of which requests make only some: an empty time window
   asked for both ways is a conflict, and the rows still agree with the conjunction on every request.
   `PolicySemantics.SetWinsOverWritten` is a request on which they do not.
   */
  lemma ConjunctionCondition(cls: seq<Clause>)
    ensures (forall v: Truth :: SetWins(v, cls) <==> Plain(v, cls)) <==> NoConflict(cls)
  {
    if NoConflict(cls) {
      forall v: Truth ensures SetWins(v, cls) <==> Plain(v, cls) {
        if Plain(v, cls) { PlainImpliesSetWins(v, cls); }
        if SetWins(v, cls) { SetWinsImpliesPlain(v, cls); }
      }
    } else {
      var x :| x in Positives(cls) && x in Negatives(cls);
      var c := ChoiceContaining(cls, x);
      var v: Truth := a => a in c;
      var m :| 0 <= m < |Choices(cls)| && Choices(cls)[m] == c;
      assert ChoiceHolds(v, Choices(cls)[m], Negatives(cls));
      var i, j :| 0 <= i < |cls| && cls[i].NoneOf? && 0 <= j < |cls[i].atoms| && cls[i].atoms[j] == x;
      assert !ClauseHolds(v, cls[i]);
      assert SetWins(v, cls) && !Plain(v, cls);
    }
  }

  /** Truth of atoms in a context. */
  function TruthIn(c: Context): Truth { a => AtomHolds(c, a) }

  /** A condition and the clause it becomes agree on every request. */
  lemma ClauseMeaning(n: Names, c: Context, cond: Condition)
    requires n.Valid() && ClauseOf(n, cond).Some?
    ensures ClauseHolds(TruthIn(c), ClauseOf(n, cond).value) <==> ConditionHolds(n, c, cond)
  {
    var v, cl := TruthIn(c), ClauseOf(n, cond).value;
    match cond
    case FlagIs(f, want) => assert cl.atoms[0] == FlagSet(f);
    case StatusIn(ss) =>
      assert forall i | 0 <= i < |ss| :: v(cl.atoms[i]) <==> StatusOf(c.rec) == ss[i];
    case RatIn(rs) =>
      assert forall i | 0 <= i < |rs| :: v(cl.atoms[i]) <==> rs[i].Code() == c.req.rat;
    case RatNotIn(rs) =>
      assert forall i | 0 <= i < |rs| :: v(cl.atoms[i]) <==> rs[i].Code() == c.req.rat;
    case DnnIn(ds) => DnnMeaning(n, c, ds);
    case DnnNotIn(ds) => DnnMeaning(n, c, ds);
    case UsageAbove(p) => assert cl.atoms[0] == UsageAtLeast(p);
    case UsageBelow(p) => assert cl.atoms[0] == UsageAtLeast(p);
    case TimeBetween(w) => assert cl.atoms[0] == InWindow(w);
    case TimeNotBetween(w) => assert cl.atoms[0] == InWindow(w);
  }

  lemma DnnMeaning(n: Names, c: Context, names: seq<string>)
    requires n.Valid() && DnnAtoms(n, names).Some?
    ensures DnnNamed(n, c, names)
       <==> exists i :: 0 <= i < |names| && AtomHolds(c, DnnAtoms(n, names).value[i])
  {
    var atoms := DnnAtoms(n, names).value;
    forall i | 0 <= i < |names|
      ensures AtomHolds(c, atoms[i]) <==> c.req.dnn < |n.dnns| && n.dnns[c.req.dnn] == names[i]
    {
      var k := IndexOf(n.dnns, names[i]).value;
      assert n.dnns[k] == names[i];
    }
    if DnnNamed(n, c, names) {
      var i :| 0 <= i < |names| && names[i] == n.dnns[c.req.dnn];
      assert AtomHolds(c, atoms[i]);
    }
  }

  /** A conflict-free `when` compiles to rows that mean what its author wrote, on every request. */
  lemma WhenMeaning(n: Names, c: Context, conds: seq<Condition>)
    requires n.Valid() && ClausesOf(n, conds).Some? && NoConflict(ClausesOf(n, conds).value)
    ensures SetWins(TruthIn(c), ClausesOf(n, conds).value)
       <==> forall i | 0 <= i < |conds| :: ConditionHolds(n, c, conds[i])
  {
    var v, cls := TruthIn(c), ClausesOf(n, conds).value;
    ConjunctionCondition(cls);
    assert SetWins(v, cls) <==> Plain(v, cls);
    forall i | 0 <= i < |conds| ensures ClauseHolds(v, cls[i]) <==> ConditionHolds(n, c, conds[i]) {
      ClauseMeaning(n, c, conds[i]);
    }
  }
}
