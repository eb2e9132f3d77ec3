/**
 Linear probing over a power-of-two table, for an arbitrary hash function.

 The table is seen as the sequence of its slots' keys, 0 marking an empty slot. What makes lookups right is
 that every key is reachable: the slots from its home slot up to it, going around, are all taken.
 */
module ProbeTable {
  import opened Bits

  /** The slot `d` steps after `home`, going around. */
  function Slot(home: nat, d: nat, cap: nat): (i: nat)
    requires home < cap && d < cap
    ensures i < cap
  {
    if home + d < cap then home + d else home + d - cap
  }

  /** How many steps after `home` slot `i` comes. */
  function Dist(home: nat, i: nat, cap: nat): (d: nat)
    requires home < cap && i < cap
    ensures d < cap && Slot(home, d, cap) == i
  {
    if i >= home then i - home else i + cap - home
  }

  /** `hash(key) & mask`. */
  function Home(hash: nat -> nat, key: nat, cap: nat): nat
    requires cap >= 1
  {
    And(hash(key), cap - 1)
  }

  lemma HomeInRange(hash: nat -> nat, key: nat, log: nat)
    ensures Home(hash, key, Pow2(log)) < Pow2(log)
  {
    AndMask(hash(key), log);
  }

  /** `(i + 1) & mask` is one step further around. */
  lemma StepAround(home: nat, d: nat, log: nat)
    requires home < Pow2(log) && d + 1 < Pow2(log)
    ensures And(Slot(home, d, Pow2(log)) + 1, Pow2(log) - 1) == Slot(home, d + 1, Pow2(log))
  {
    var i := Slot(home, d, Pow2(log)) + 1;
    AndMask(i, log);
    if i < Pow2(log) { ModuloUnique(i, Pow2(log), 0, i); } else { ModuloUnique(i, Pow2(log), 1, 0); }
  }

  /** Subtraction in an unsigned word of `width` bits. */
  function WrappingSub(a: nat, b: nat, width: nat): nat
    requires a < Pow2(width) && b < Pow2(width)
  {
    if a >= b then a - b else a + Pow2(width) - b
  }

  /** Unsigned `(i - home) & mask` is the distance. */
  lemma MaskedDifference(home: nat, i: nat, log: nat, width: nat)
    requires log <= width && home < Pow2(log) && i < Pow2(log)
    ensures home < Pow2(width) && i < Pow2(width)
    ensures And(WrappingSub(i, home, width), Pow2(log) - 1) == Dist(home, i, Pow2(log))
  {
    Pow2Monotone(log, width);
    WordIsMultiple(log, width);
    AndMask(WrappingSub(i, home, width), log);
    DifferenceModulo(i, home, Pow2(log), Pow2(width - log), Pow2(width));
  }

  lemma WordIsMultiple(log: nat, width: nat)
    requires log <= width
    ensures Pow2(width) == Pow2(width - log) * Pow2(log)
  {
    Pow2Add(width - log, log);
  }

  lemma DifferenceModulo(i: nat, home: nat, cap: nat, q: nat, word: nat)
    requires i < cap && home < cap && q >= 1 && word == q * cap
    ensures word >= cap && (if i >= home then i - home else i + word - home) % cap == Dist(home, i, cap)
  {
    MultipleBounds(cap, q);
    if i >= home { ModuloUnique(i - home, cap, 0, i - home); } else { BorrowModulo(i, home, cap, q); }
  }

  lemma BorrowModulo(i: nat, home: nat, cap: nat, q: nat)
    requires i < home < cap && q >= 1
    ensures q * cap >= cap && (i + q * cap - home) % cap == i + cap - home
  {
    MultipleBounds(cap, q);
    assert i + q * cap - home == cap * (q - 1) + (i + cap - home);
    ModuloUnique(i + q * cap - home, cap, q - 1, i + cap - home);
  }

  // ---------------------------------------------------------------- tables

  /** The key in slot `i` is in no other slot. */
  predicate OnlyAt(keys: seq<nat>, i: nat)
    requires i < |keys|
  {
    forall j | 0 <= j < |keys| && j != i :: keys[j] != keys[i]
  }

  predicate Distinct(keys: seq<nat>) {
    forall i {:trigger OnlyAt(keys, i)} | 0 <= i < |keys| && keys[i] != 0 :: OnlyAt(keys, i)
  }

  /** The slots before offset `d` from `home` are all taken. */
  predicate TakenUpTo(keys: seq<nat>, home: nat, d: nat)
    requires home < |keys| && d <= |keys|
  {
    forall e | 0 <= e < d :: keys[Slot(home, e, |keys|)] != 0
  }

  predicate HomesInRange(keys: seq<nat>, hash: nat -> nat) {
    |keys| >= 1 && forall i | 0 <= i < |keys| :: Home(hash, keys[i], |keys|) < |keys|
  }

  /** The slots from the home of the key in slot `i` up to it are all taken. */
  predicate ReachedAt(keys: seq<nat>, hash: nat -> nat, i: nat)
    requires i < |keys|
  {
    var home := Home(hash, keys[i], |keys|);
    home < |keys| && TakenUpTo(keys, home, Dist(home, i, |keys|))
  }

  predicate Reachable(keys: seq<nat>, hash: nat -> nat) {
    forall i {:trigger ReachedAt(keys, hash, i)} | 0 <= i < |keys| && keys[i] != 0 :: ReachedAt(keys, hash, i)
  }

  predicate Table(keys: seq<nat>, hash: nat -> nat) {
    HomesInRange(keys, hash) && Distinct(keys) && Reachable(keys, hash) && 0 in keys
  }

  /** How many slots are taken. */
  function Taken(keys: seq<nat>): (n: nat)
    ensures n <= |keys|
  {
    if keys == [] then 0 else Taken(keys[..|keys| - 1]) + if keys[|keys| - 1] != 0 then 1 else 0
  }

  /** The offset from `home` at which a probe for `key` stops, starting at offset `d`. */
  function Scan(keys: seq<nat>, home: nat, key: nat, d: nat): (r: nat)
    requires home < |keys| && d <= |keys|
    ensures d <= r <= |keys|
    ensures r < |keys| ==> keys[Slot(home, r, |keys|)] == key || keys[Slot(home, r, |keys|)] == 0
    ensures forall e | d <= e < r :: keys[Slot(home, e, |keys|)] != key && keys[Slot(home, e, |keys|)] != 0
    decreases |keys| - d
  {
    if d == |keys| then d
    else
      var k := keys[Slot(home, d, |keys|)];
      if k == key || k == 0 then d else Scan(keys, home, key, d + 1)
  }

  /** A table with an empty slot stops every probe. */
  lemma ScanStops(keys: seq<nat>, home: nat, key: nat)
    requires home < |keys| && 0 in keys
    ensures Scan(keys, home, key, 0) < |keys|
  {
    var e :| 0 <= e < |keys| && keys[e] == 0;
    assert Slot(home, Dist(home, e, |keys|), |keys|) == e;
  }

  /** A probe stops at the key's own slot when it is in the table, and at an empty slot otherwise. */
  lemma ScanFinds(keys: seq<nat>, hash: nat -> nat, key: nat)
    requires Table(keys, hash) && key != 0 && Home(hash, key, |keys|) < |keys|
    ensures var home := Home(hash, key, |keys|);
            var d := Scan(keys, home, key, 0);
            d < |keys| && (keys[Slot(home, d, |keys|)] == key <==> key in keys)
  {
    var home := Home(hash, key, |keys|);
    ScanStops(keys, home, key);
    if key in keys {
      var i :| 0 <= i < |keys| && keys[i] == key;
      ScanIsDistance(keys, hash, i);
    }
  }

  /** The number of steps to a stored key is its distance from home. */
  lemma ScanIsDistance(keys: seq<nat>, hash: nat -> nat, i: nat)
    requires Table(keys, hash) && i < |keys| && keys[i] != 0
    ensures Scan(keys, Home(hash, keys[i], |keys|), keys[i], 0) == Dist(Home(hash, keys[i], |keys|), i, |keys|)
  {
    var home := Home(hash, keys[i], |keys|);
    var d, r := Dist(home, i, |keys|), Scan(keys, home, keys[i], 0);
    assert ReachedAt(keys, hash, i) && OnlyAt(keys, i);
    assert forall e | 0 <= e < d :: Slot(home, e, |keys|) != i;
  }

  /** Putting a missing key where its probe stopped keeps the table a table. */
  lemma InsertKeepsTable(keys: seq<nat>, hash: nat -> nat, key: nat)
    requires Table(keys, hash) && key != 0 && Home(hash, key, |keys|) < |keys| && key !in keys
    ensures var home := Home(hash, key, |keys|);
            var d := Scan(keys, home, key, 0);
            && d < |keys|
            && var keys' := keys[Slot(home, d, |keys|) := key];
               HomesInRange(keys', hash) && Distinct(keys') && Reachable(keys', hash)
  {
    var home := Home(hash, key, |keys|);
    ScanFinds(keys, hash, key);
    var d := Scan(keys, home, key, 0);
    var at := Slot(home, d, |keys|);
    InsertKeepsReachable(keys, hash, key, d, at);
    InsertKeepsDistinct(keys, key, at);
  }

  lemma InsertKeepsDistinct(keys: seq<nat>, key: nat, at: nat)
    requires Distinct(keys) && key != 0 && key !in keys && at < |keys| && keys[at] == 0
    ensures Distinct(keys[at := key])
  {
    var keys' := keys[at := key];
    forall i | 0 <= i < |keys'| && keys'[i] != 0 ensures OnlyAt(keys', i) {
      if i != at { assert OnlyAt(keys, i); }
    }
  }

  lemma InsertKeepsReachable(keys: seq<nat>, hash: nat -> nat, key: nat, d: nat, at: nat)
    requires HomesInRange(keys, hash) && Reachable(keys, hash) && key != 0
    requires Home(hash, key, |keys|) < |keys| && d < |keys| && at == Slot(Home(hash, key, |keys|), d, |keys|)
    requires keys[at] == 0 && TakenUpTo(keys, Home(hash, key, |keys|), d)
    ensures HomesInRange(keys[at := key], hash) && Reachable(keys[at := key], hash)
  {
    var keys' := keys[at := key];
    assert forall j | 0 <= j < |keys| && keys[j] != 0 :: keys'[j] == keys[j];
    forall i | 0 <= i < |keys'| && keys'[i] != 0 ensures ReachedAt(keys', hash, i) {
      if i == at {
        assert Dist(Home(hash, key, |keys|), at, |keys|) == d;
      } else {
        assert ReachedAt(keys, hash, i);
      }
    }
  }

  lemma {:induction false} TakenUpdate(keys: seq<nat>, i: nat, key: nat)
    requires i < |keys| && keys[i] == 0 && key != 0
    ensures Taken(keys[i := key]) == Taken(keys) + 1
    decreases |keys|
  {
    var n := |keys| - 1;
    if i == n {
      assert keys[i := key][..n] == keys[..n];
    } else {
      assert keys[i := key][..n] == keys[..n][i := key];
      TakenUpdate(keys[..n], i, key);
    }
  }

  lemma {:induction false} FullMeansNoEmpty(keys: seq<nat>)
    ensures Taken(keys) < |keys| <==> 0 in keys
    decreases |keys|
  {
    if keys != [] {
      var n := |keys| - 1;
      FullMeansNoEmpty(keys[..n]);
      assert keys == keys[..n] + [keys[n]];
    }
  }

  lemma {:induction false} EmptyTable(n: nat)
    ensures Taken(seq(n, i => 0)) == 0
  {
    if n > 0 {
      assert seq(n, i => 0)[..n - 1] == seq(n - 1, i => 0);
      EmptyTable(n - 1);
    }
  }

  lemma AllHomesInRange(keys: seq<nat>, hash: nat -> nat, log: nat)
    requires |keys| == Pow2(log)
    ensures HomesInRange(keys, hash)
  {
    forall i | 0 <= i < |keys| ensures Home(hash, keys[i], |keys|) < |keys| {
      HomeInRange(hash, keys[i], log);
    }
  }

  // ---------------------------------------------------------------- the loop

  function KeysOf<T>(slots: seq<T>, keyOf: T -> nat): (keys: seq<nat>)
    ensures |keys| == |slots| && forall i | 0 <= i < |slots| :: keys[i] == keyOf(slots[i])
  {
    seq(|slots|, i requires 0 <= i < |slots| => keyOf(slots[i]))
  }

  /** The probe every operation of both tables runs: from the home slot on, until the key or an empty slot. */
  method Probe<T>(slots: seq<T>, keyOf: T -> nat, hash: nat -> nat, mask: nat, key: nat, ghost log: nat)
    returns (i: nat, ghost steps: nat)
    requires |slots| == Pow2(log) && mask == |slots| - 1
    requires Table(KeysOf(slots, keyOf), hash) && key != 0
    ensures Home(hash, key, |slots|) < |slots| && i < |slots|
    ensures steps == Scan(KeysOf(slots, keyOf), Home(hash, key, |slots|), key, 0) < |slots|
    ensures i == Slot(Home(hash, key, |slots|), steps, |slots|)
    ensures keyOf(slots[i]) == key || keyOf(slots[i]) == 0
    ensures keyOf(slots[i]) == key <==> key in KeysOf(slots, keyOf)
  {
    ghost var keys := KeysOf(slots, keyOf);
    HomeInRange(hash, key, log);
    ScanFinds(keys, hash, key);
    ghost var home := Home(hash, key, |slots|);
    ghost var stop := Scan(keys, home, key, 0);
    i, steps := And(hash(key), mask), 0;
    while keyOf(slots[i]) != key && keyOf(slots[i]) != 0
      invariant steps <= stop && i == Slot(home, steps, |slots|)
      decreases stop - steps
    {
      assert keys[i] == keyOf(slots[i]);
      StepAround(home, steps, log);
      i, steps := And(i + 1, mask), steps + 1;
    }
    assert keys[i] == keyOf(slots[i]);
  }
}
