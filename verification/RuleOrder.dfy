/** `std::stable_sort` on priority: ascending priority, ties in file order. */
module RuleOrder {
  import opened RuleCompiler

  /** Position `a` goes before position `b`. */
  predicate Before(prios: seq<nat>, a: nat, b: nat)
    requires a < |prios| && b < |prios|
  {
    prios[a] < prios[b] || (prios[a] == prios[b] && a < b)
  }

  predicate Below(order: seq<nat>, n: nat) {
    forall i | 0 <= i < |order| :: order[i] < n
  }

  /** Insert position `x`, later in the file than everything in `order`, after all that do not exceed it. */
  function Insert(prios: seq<nat>, order: seq<nat>, x: nat): (r: seq<nat>)
    requires x < |prios| && Below(order, x)
    ensures Below(r, x + 1)
  {
    if order == [] then [x]
    else
      var last := order[|order| - 1];
      if prios[last] <= prios[x] then order + [x] else Insert(prios, order[..|order| - 1], x) + [last]
  }

  predicate Ordered(prios: seq<nat>, order: seq<nat>)
    requires Below(order, |prios|)
  {
    forall i, j | 0 <= i < j < |order| :: Before(prios, order[i], order[j])
  }

  lemma OrderedAppend(prios: seq<nat>, order: seq<nat>, x: nat)
    requires Below(order, |prios|) && x < |prios| && Ordered(prios, order)
    requires forall i | 0 <= i < |order| :: Before(prios, order[i], x)
    ensures Below(order + [x], |prios|) && Ordered(prios, order + [x])
  {
  }

  lemma {:induction false} InsertOrders(prios: seq<nat>, order: seq<nat>, x: nat)
    requires x < |prios| && Below(order, x) && Ordered(prios, order)
    ensures Ordered(prios, Insert(prios, order, x))
    ensures forall y :: y in Insert(prios, order, x) <==> y in order || y == x
    ensures |Insert(prios, order, x)| == |order| + 1
    decreases |order|
  {
    if order != [] {
      var n := |order| - 1;
      var front, last := order[..n], order[n];
      assert order == front + [last];
      InsertOrders(prios, front, x);
      if prios[last] <= prios[x] {
        forall i | 0 <= i < |order| ensures Before(prios, order[i], x) {
          if i < n { assert Before(prios, order[i], last); }
        }
        OrderedAppend(prios, order, x);
      } else {
        var r := Insert(prios, front, x);
        forall i | 0 <= i < |r| ensures Before(prios, r[i], last) {
          assert r[i] in r;
          if r[i] in front {
            var m :| 0 <= m < n && front[m] == r[i];
            assert Before(prios, order[m], order[n]);
          }
        }
        OrderedAppend(prios, r, last);
      }
    }
  }

  /** The positions of the first `n` rules in evaluation order. */
  function Order(prios: seq<nat>, n: nat): (order: seq<nat>)
    requires n <= |prios|
    ensures Below(order, n)
  {
    if n == 0 then [] else Insert(prios, Order(prios, n - 1), n - 1)
  }

  /** Every position once, ascending by (priority, position). */
  lemma {:induction false} OrderIsStable(prios: seq<nat>, n: nat)
    requires n <= |prios|
    ensures var order := Order(prios, n);
            Ordered(prios, order) && |order| == n && forall y :: y in order <==> 0 <= y < n
  {
    if n > 0 {
      OrderIsStable(prios, n - 1);
      InsertOrders(prios, Order(prios, n - 1), n - 1);
    }
  }

  function Priorities(rows: seq<CompiledRule>): (p: seq<nat>)
    ensures |p| == |rows| && forall i | 0 <= i < |rows| :: p[i] == rows[i].priority
  {
    seq(|rows|, i requires 0 <= i < |rows| => rows[i].priority)
  }

  function StableSort(rows: seq<CompiledRule>): seq<CompiledRule> {
    var order := Order(Priorities(rows), |rows|);
    seq(|order|, i requires 0 <= i < |order| => rows[order[i]])
  }

  /** The order a comment in the source gives: ascending priority, ties by id. */
  ghost predicate AscendingById(rows: seq<CompiledRule>) {
    forall i, j | 0 <= i < j < |rows| ::
      rows[i].priority < rows[j].priority || (rows[i].priority == rows[j].priority && rows[i].id <= rows[j].id)
  }

  /** Rows of equal priority are written in id order. */
  ghost predicate TiesInIdOrder(rows: seq<CompiledRule>) {
    forall a, b | 0 <= a < b < |rows| && rows[a].priority == rows[b].priority :: rows[a].id <= rows[b].id
  }

  lemma SortedRow(rows: seq<CompiledRule>, i: nat)
    requires i < |rows|
    ensures var order := Order(Priorities(rows), |rows|);
      |order| == |rows| && order[i] < |rows| && StableSort(rows)[i] == rows[order[i]]
  {
    OrderIsStable(Priorities(rows), |rows|);
  }

  lemma TiesOfSorted(rows: seq<CompiledRule>, a: nat, b: nat)
    requires AscendingById(StableSort(rows)) && a < b < |rows| && rows[a].priority == rows[b].priority
    ensures rows[a].id <= rows[b].id
  {
    var prios := Priorities(rows);
    var order := Order(prios, |rows|);
    OrderIsStable(prios, |rows|);
    assert a in order && b in order;
    var i :| 0 <= i < |order| && order[i] == a;
    var j :| 0 <= j < |order| && order[j] == b;
    SortedRow(rows, i);
    SortedRow(rows, j);
  }

  /** The sorted table is ascending by (priority, id) if and only if ties are written in id order. */
  lemma SortedByIdIff(rows: seq<CompiledRule>)
    ensures AscendingById(StableSort(rows)) <==> TiesInIdOrder(rows)
  {
    var prios := Priorities(rows);
    var order := Order(prios, |rows|);
    OrderIsStable(prios, |rows|);
    if AscendingById(StableSort(rows)) {
      forall a, b | 0 <= a < b < |rows| && rows[a].priority == rows[b].priority ensures rows[a].id <= rows[b].id {
        TiesOfSorted(rows, a, b);
      }
    }
    if TiesInIdOrder(rows) {
      var sorted := StableSort(rows);
      forall i, j | 0 <= i < j < |sorted|
        ensures sorted[i].priority < sorted[j].priority
          || (sorted[i].priority == sorted[j].priority && sorted[i].id <= sorted[j].id)
      {
        assert Before(prios, order[i], order[j]);
        SortedRow(rows, i);
        SortedRow(rows, j);
      }
    }
  }

  /** Two rules of one priority with ids 2 and 1 stay in file order. */
  lemma TieOutOfIdOrder(two: CompiledRule, one: CompiledRule)
    requires two.priority == one.priority && two.id == 2 && one.id == 1
    ensures !AscendingById(StableSort([two, one]))
  {
    var rows := [two, one];
    SortedByIdIff(rows);
    assert rows[0].priority == rows[1].priority && rows[0].id > rows[1].id;
  }
}
