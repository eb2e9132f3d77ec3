/** `FlatSet64`: the open-addressing key set behind the IMEI blocklist and the roaming-partner table. */
module FlatSet {
  import opened Bits
  import opened ProbeTable

  function Same(k: nat): nat { k }

  class FlatSet64 {
    const hash: nat -> nat
    var slots: seq<nat>
    var mask: nat
    var size: nat
    ghost var log: nat

    ghost predicate Built()
      reads this
    {
      && |slots| == Pow2(log) && mask == |slots| - 1
      && Table(KeysOf(slots, Same), hash)
      && size == Taken(slots)
    }

    ghost predicate Valid()
      reads this
    {
      (slots == [] && size == 0) || Built()
    }

    ghost predicate Member(k: nat)
      reads this
    {
      k != 0 && k in slots
    }

    constructor (h: nat -> nat)
      ensures Valid() && slots == [] && hash == h
    {
      hash := h;
      slots, mask, size, log := [], 0, 0, 0;
    }

    /** Membership, for every hash function; the probe always terminates. */
    method Contains(key: nat) returns (found: bool)
      requires Valid()
      ensures found <==> Member(key)
    {
      if slots == [] || key == 0 {
        return false;
      }
      var i, _ := Probe(slots, Same, hash, mask, key, log);
      SameKeys(slots);
      found := slots[i] == key;
    }

    method Insert(key: nat)
      requires Built() && size + 1 < |slots|
      modifies this`slots, this`size
      ensures Built() && |slots| == old(|slots|)
      ensures old(size) <= size <= old(size) + 1
      ensures forall k: nat :: Member(k) <==> old(Member(k)) || (k == key && key != 0)
    {
      SameKeys(slots);
      if key == 0 {
        return;
      }
      var i, _ := Probe(slots, Same, hash, mask, key, log);
      if slots[i] == 0 {
        InsertKeepsTable(slots, hash, key);
        TakenUpdate(slots, i, key);
        SameKeys(slots[i := key]);
        FullMeansNoEmpty(slots[i := key]);
        ghost var before := slots;
        slots := slots[i := key];
        size := size + 1;
        forall k: nat | k != 0 ensures k in slots <==> k in before || k == key {
          UpdatedMembers(before, i, key, k);
        }
      }
    }

    method Clear(cap: nat, ghost k: nat)
      requires cap == Pow2(k) && cap >= 8
      modifies this
      ensures Built() && |slots| == cap && size == 0 && forall k: nat :: !Member(k)
    {
      size := 0;
      log := k;
      slots := seq(cap, i => 0);
      mask := cap - 1;
      EmptyTable(cap);
      SameKeys(slots);
      AllHomesInRange(slots, hash, log);
      assert slots[0] == 0;
    }

    /** The set is rebuilt from a key list; zeros and duplicates are dropped, everything else is in. */
    method Rebuild(keys: seq<nat>)
      requires Valid()
      modifies this
      ensures Valid()
      ensures forall k: nat :: Member(k) <==> k != 0 && k in keys
    {
      size := 0;
      if keys == [] {
        slots, mask := [], 0;
        return;
      }
      var cap := 8;
      ghost var k: nat := 3;
      while cap < |keys| * 2
        invariant cap == Pow2(k) && cap >= 8
        decreases |keys| * 2 - cap
      {
        cap := cap * 2;
        k := k + 1;
      }
      Clear(cap, k);
      for i := 0 to |keys|
        invariant Built() && |slots| == cap && size <= i
        invariant forall k: nat :: Member(k) <==> k != 0 && k in keys[..i]
      {
        assert keys[..i + 1] == keys[..i] + [keys[i]];
        Insert(keys[i]);
      }
      assert keys[..|keys|] == keys;
    }
  }

  lemma SameKeys(s: seq<nat>)
    ensures KeysOf(s, Same) == s
  {
  }

  lemma UpdatedMembers(s: seq<nat>, i: nat, key: nat, k: nat)
    requires i < |s| && s[i] == 0 && k != 0
    ensures k in s[i := key] <==> k in s || k == key
  {
    if k in s {
      var j :| 0 <= j < |s| && s[j] == k;
      assert s[i := key][j] == k;
    }
    assert s[i := key][i] == key;
  }
}
