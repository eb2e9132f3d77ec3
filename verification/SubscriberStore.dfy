/**
 The subscriber store: an open-addressing table of records that agrees with a mathematical map keyed by
 non-zero IMSI, through updates and growth, for every hash function.

 The load factor is an exact fraction num/den, clamped to [1/4, 9/10] like the source's floating-point one.
 */
module SubscriberStore {
  import opened Common
  import opened Bits
  import opened ProbeTable

  datatype Record = Record(
    imsi: nat, imei: nat, planId: nat, status: nat, bytesUsed: nat, periodResetTs: nat, homePlmn: nat, flags: nat)

  const EMPTY := Record(0, 0, 0, 0, 0, 0, 0, 0)

  function Imsi(r: Record): nat { r.imsi }

  /** A load factor num/den. */
  datatype Load = Load(num: nat, den: nat) {
    predicate Valid() { den >= 1 && den <= 4 * num && 10 * num <= 9 * den }

    /** `n` records in `cap` slots stay at or below the factor. */
    predicate Allows(n: nat, cap: nat) { Times(n, den) <= Times(cap, num) }
  }

  /** The product, one summand at a time. */
  function Times(a: nat, b: nat): nat { if a == 0 then 0 else b + Times(a - 1, b) }

  lemma {:induction false} TimesIsProduct(a: nat, b: nat)
    ensures Times(a, b) == a * b
  {
    if a > 0 { TimesIsProduct(a - 1, b); }
  }

  lemma AllowsProducts(f: Load, n: nat, cap: nat)
    ensures f.Allows(n, cap) <==> n * f.den <= cap * f.num
  {
    TimesIsProduct(n, f.den);
    TimesIsProduct(cap, f.num);
  }

  function ClampLoad(num: nat, den: nat): (f: Load)
    requires den >= 1
    ensures f.Valid()
  {
    if 4 * num < den then Load(1, 4) else if 10 * num > 9 * den then Load(9, 10) else Load(num, den)
  }

  // ---------------------------------------------------------------- sizing

  /** The least power of two at or above `n`, but at least 8. */
  method NextPow2(n: nat) returns (p: nat, ghost log: nat)
    ensures p == Pow2(log) && p >= 8 && p >= n
    ensures p > 8 ==> p < 2 * n
  {
    p, log := 8, 3;
    while p < n
      invariant p == Pow2(log) && p >= 8
      invariant p > 8 ==> p < 2 * n
      decreases n - p
    {
      p, log := 2 * p, log + 1;
    }
  }

  function CeilDiv(a: nat, b: nat): nat
    requires b >= 1
  {
    (a + b - 1) / b
  }

  lemma CeilDivCovers(a: nat, b: nat)
    requires b >= 1
    ensures CeilDiv(a, b) * b >= a
  {
    var x := a + b - 1;
    assert x == b * (x / b) + x % b;
  }

  /** Slots for `n` subscribers: enough that `n` of them stay at or below the load factor. */
  method SlotsFor(n: nat, f: Load) returns (cap: nat, ghost log: nat)
    requires f.Valid()
    ensures cap == Pow2(log) && cap >= 8
    ensures f.Allows(n, cap)
  {
    var m := if n < 4 then 4 else n;
    var needed := CeilDiv(m * f.den, f.num);
    cap, log := NextPow2(needed);
    CeilDivCovers(m * f.den, f.num);
    ProductMonotone(f.num, needed, cap);
    ProductMonotone(f.den, n, m);
    AllowsProducts(f, n, cap);
  }

  lemma AllowsNone(f: Load, cap: nat)
    ensures f.Allows(0, cap)
  {
    AllowsProducts(f, 0, cap);
    assert 0 * f.den == 0;
  }

  lemma AllowsFewer(f: Load, m: nat, n: nat, cap: nat)
    requires m <= n && f.Allows(n, cap)
    ensures f.Allows(m, cap)
  {
    AllowsProducts(f, m, cap);
    AllowsProducts(f, n, cap);
    ProductMonotone(f.den, m, n);
  }

  lemma AllowsDoubled(f: Load, n: nat, cap: nat)
    requires f.Valid() && cap >= 8 && f.Allows(n, cap)
    ensures f.Allows(n + 1, 2 * cap)
  {
    AllowsProducts(f, n, cap);
    AllowsProducts(f, n + 1, 2 * cap);
    ProductMonotone(f.num, 8, cap);
    assert (n + 1) * f.den == n * f.den + f.den;
    assert 2 * cap * f.num == cap * f.num + cap * f.num;
  }

  /** The ceiling is below one, so a slot stays empty. */
  lemma AllowsLeavesRoom(f: Load, n: nat, cap: nat)
    requires f.Valid() && cap >= 1 && f.Allows(n, cap)
    ensures n < cap
  {
    AllowsProducts(f, n, cap);
    StrictProduct(cap, f.num, f.den);
    MonotoneIfAtLeast(cap, n, f.den);
  }

  lemma StrictProduct(c: nat, a: nat, b: nat)
    requires c >= 1 && a < b
    ensures c * a < c * b
  {
    assert c * b == c * a + c * (b - a);
    MultipleBounds(c, b - a);
  }

  lemma MonotoneIfAtLeast(a: nat, b: nat, c: nat)
    ensures b >= a ==> a * c <= b * c
  {
    if b >= a { ProductMonotone(c, a, b); }
  }

  // ---------------------------------------------------------------- the store

  class Store {
    const hash: nat -> nat
    const load: Load
    var slots: seq<Record>
    var mask: nat
    var size: nat
    ghost var log: nat
    ghost var contents: map<nat, Record>

    ghost predicate Valid()
      reads this
    {
      mask == |slots| - 1 && Stocked(load, hash, slots, log, size, contents)
    }

    /** The next distinct insert would exceed the load ceiling. */
    predicate Overloaded()
      reads this
    {
      !load.Allows(size + 1, |slots|)
    }

    constructor (h: nat -> nat, expected: nat, num: nat, den: nat)
      requires den >= 1
      ensures Valid() && hash == h && load == ClampLoad(num, den) && contents == map[] && size == 0
      ensures load.Allows(expected, |slots|)
    {
      hash := h;
      load := ClampLoad(num, den);
      new;
      var cap, k := SlotsFor(expected, load);
      Clear(cap, k);
    }

    /** Fresh empty slots. */
    method Clear(cap: nat, ghost k: nat)
      requires load.Valid() && cap == Pow2(k) && cap >= 8
      modifies this
      ensures Valid() && contents == map[] && size == 0 && |slots| == cap
    {
      slots, mask, size := seq(cap, i => EMPTY), cap - 1, 0;
      log, contents := k, map[];
      EmptyIndexes(hash, cap, k);
      AllowsNone(load, cap);
    }

    /** Lookup agrees with the map and inspects exactly the slots up to where the key's probe stops. */
    method Find(imsi: nat) returns (r: Option<Record>, ghost inspected: nat)
      requires Valid()
      ensures r == if imsi in contents then Some(contents[imsi]) else None
      ensures imsi != 0 ==> Home(hash, imsi, |slots|) < |slots|
      ensures imsi != 0 ==> inspected == Scan(KeysOf(slots, Imsi), Home(hash, imsi, |slots|), imsi, 0) + 1
    {
      r, inspected := None, 0;
      if imsi == 0 {
        return;
      }
      var i, steps := Probe(slots, Imsi, hash, mask, imsi, log);
      HoldsLookup(slots, contents, imsi);
      inspected := steps + 1;
      if slots[i].imsi == imsi {
        r := Some(slots[i]);
      }
    }

    /** Insert or overwrite. The table doubles first when the next insert would exceed the load ceiling, and
        rehashing into the doubled table never doubles again. */
    method Upsert(rec: Record) returns (ok: bool)
      requires Valid()
      modifies this
      ensures Valid()
      ensures ok <==> rec.imsi != 0
      ensures contents == if ok then old(contents)[rec.imsi := rec] else old(contents)
      ensures |slots| == if ok && old(Overloaded()) then 2 * old(|slots|) else old(|slots|)
      decreases if Overloaded() then 2 else 0, 0
    {
      if rec.imsi == 0 {
        return false;
      }
      if !load.Allows(size + 1, |slots|) {
        Grow();
      }
      Place(rec);
      ok := true;
    }

    /** A store built for `n` subscribers takes its first `n` distinct ones without ever rehashing. */
    method Provision(recs: seq<Record>, ghost n: nat)
      requires Valid() && contents == map[] && load.Allows(n, |slots|) && |recs| <= n && Roster(recs)
      modifies this
      ensures Valid() && |slots| == old(|slots|) && contents == Loaded(recs)
    {
      for i := 0 to |recs|
        invariant Valid() && |slots| == old(|slots|) && contents == Loaded(recs[..i])
      {
        LoadedNext(recs, i);
        AllowsFewer(load, size + 1, n, |slots|);
        var _ := Upsert(recs[i]);
      }
      assert recs[..|recs|] == recs;
    }

    /** Double the table and put every record back through `Upsert`. */
    method Grow()
      requires Valid() && Overloaded()
      modifies this
      ensures Valid() && contents == old(contents) && |slots| == 2 * old(|slots|) && !Overloaded()
      decreases 1, 2
    {
      var was := slots;
      ghost var n, m := size, contents;
      AllowsDoubled(load, size, |slots|);
      Clear(2 * |slots|, log + 1);
      Rehash(was, m, n);
    }

    method Rehash(was: seq<Record>, ghost m: map<nat, Record>, ghost n: nat)
      requires Holds(was, m) && Distinct(KeysOf(was, Imsi)) && |m| == n
      requires Valid() && load.Allows(n + 1, |slots|) && contents == map[]
      modifies this
      ensures Valid() && contents == m && |slots| == old(|slots|)
      decreases 1, 1
    {
      PrefixNone(was, m);
      for i := 0 to |was|
        invariant Valid() && |slots| == old(|slots|)
        invariant contents == Prefix(was, m, i)
      {
        Reinsert(was, m, n, i);
      }
      PrefixAll(was, m);
    }

    /** One step of rehashing: an empty slot is skipped, a record goes in without growing. */
    method Reinsert(was: seq<Record>, ghost m: map<nat, Record>, ghost n: nat, i: nat)
      requires i < |was| && Holds(was, m) && Distinct(KeysOf(was, Imsi)) && |m| == n
      requires Valid() && load.Allows(n + 1, |slots|) && contents == Prefix(was, m, i)
      modifies this
      ensures Valid() && contents == Prefix(was, m, i + 1) && |slots| == old(|slots|)
      decreases 1, 0
    {
      PrefixNext(was, m, i);
      if was[i].imsi != 0 {
        PrefixIsSmaller(was, m, i);
        AllowsFewer(load, size + 1, n + 1, |slots|);
        var _ := Upsert(was[i]);
      }
    }

    /** The probe and store at the end of `upsert`. */
    method Place(rec: Record)
      requires Valid() && rec.imsi != 0 && !Overloaded()
      modifies this`slots, this`size, this`contents
      ensures Valid() && contents == old(contents)[rec.imsi := rec] && |slots| == old(|slots|)
    {
      var i, _ := Probe(slots, Imsi, hash, mask, rec.imsi, log);
      if slots[i].imsi == rec.imsi {
        Overwrite(i, rec);
      } else {
        FillEmpty(i, rec);
      }
    }

    method Overwrite(i: nat, rec: Record)
      requires Valid() && i < |slots| && rec.imsi == slots[i].imsi != 0
      modifies this`slots, this`size, this`contents
      ensures Valid() && contents == old(contents)[rec.imsi := rec] && slots == old(slots)[i := rec] && size == old(size)
    {
      OverwriteStocked(load, hash, slots, log, size, contents, i, rec, slots[i := rec], contents[rec.imsi := rec]);
      Write(i, rec, size);
    }

    method FillEmpty(i: nat, rec: Record)
      requires Valid() && rec.imsi != 0 && !Overloaded() && ProbeEndsFree(hash, slots, rec.imsi, i)
      modifies this`slots, this`size, this`contents
      ensures Valid() && contents == old(contents)[rec.imsi := rec] && |slots| == old(|slots|)
    {
      FillStocked(load, hash, slots, log, size, contents, i, rec, slots[i := rec], contents[rec.imsi := rec]);
      Write(i, rec, size + 1);
    }

    /** Write a record, where the result is known to be a store of the new size. */
    method Write(i: nat, rec: Record, newSize: nat)
      requires i < |slots| && mask == |slots| - 1
      requires Stocked(load, hash, slots[i := rec], log, newSize, contents[rec.imsi := rec])
      modifies this`slots, this`size, this`contents
      ensures Valid() && contents == old(contents)[rec.imsi := rec] && slots == old(slots)[i := rec] && size == newSize
    {
      slots, size, contents := slots[i := rec], newSize, contents[rec.imsi := rec];
    }

    /** The slot of a stored IMSI, or -1. */
    method FindMutable(imsi: nat) returns (i: int)
      requires Valid()
      ensures i >= 0 <==> imsi in contents
      ensures i >= 0 ==> i < |slots| && slots[i].imsi == imsi != 0 && contents[imsi] == slots[i]
    {
      HoldsNoZero(slots, contents);
      if imsi == 0 {
        return -1;
      }
      var at, _ := Probe(slots, Imsi, hash, mask, imsi, log);
      HoldsLookup(slots, contents, imsi);
      i := if slots[at].imsi == imsi then at else -1;
    }

    /** Accumulate usage, 64-bit wrap-around included; unknown IMSIs are ignored. */
    method AddUsage(imsi: nat, bytes: nat)
      requires Valid()
      modifies this`slots, this`size, this`contents
      ensures Valid() && |slots| == old(|slots|) && size == old(size)
      ensures contents == WithUsage(old(contents), imsi, bytes)
    {
      var i := FindMutable(imsi);
      if i >= 0 {
        Overwrite(i, Charge(slots[i], bytes));
      }
    }

    /** Start a new metering period: usage back to zero, new reset time. */
    method ResetPeriod(imsi: nat, newResetTs: nat) returns (ok: bool)
      requires Valid()
      modifies this`slots, this`size, this`contents
      ensures Valid() && |slots| == old(|slots|) && size == old(size)
      ensures ok <==> imsi in old(contents)
      ensures contents == WithNewPeriod(old(contents), imsi, newResetTs)
    {
      var i := FindMutable(imsi);
      ok := i >= 0;
      if ok {
        Overwrite(i, slots[i].(bytesUsed := 0, periodResetTs := newResetTs));
      }
    }

    /** Slots a lookup of the record in slot `i` inspects; 0 for an empty slot. */
    ghost function LookupLength(i: nat): nat
      requires i < |slots|
      reads this
    {
      LengthAt(KeysOf(slots, Imsi), hash, i)
    }

    /** What `stats()` derives from a record's position alone is the length of its lookup; `width` is the
        word size the unsigned subtraction wraps at. */
    method ProbeLength(i: nat, width: nat) returns (n: nat)
      requires Valid() && i < |slots| && log <= width
      ensures n == LookupLength(i)
    {
      if slots[i].imsi == 0 {
        return 0;
      }
      ghost var keys := KeysOf(slots, Imsi);
      var home := And(hash(slots[i].imsi), mask);
      PositionGivesLength(keys, hash, log, i, width, home, mask);
      n := And(WrappingSub(i, home, width), mask) + 1;
    }

    /** The longest probe and the sum of all of them, over the whole table. */
    method ProbeStats(width: nat) returns (longest: nat, total: nat)
      requires Valid() && log <= width
      ensures StatsTo(KeysOf(slots, Imsi), hash, |slots|, longest, total)
    {
      longest, total := 0, 0;
      ghost var keys := KeysOf(slots, Imsi);
      StatsStart(keys, hash);
      for i := 0 to |slots|
        invariant StatsTo(keys, hash, i, longest, total)
      {
        longest, total := AddProbe(i, width, longest, total);
      }
    }

    method AddProbe(i: nat, width: nat, longest0: nat, total0: nat) returns (longest: nat, total: nat)
      requires Valid() && i < |slots| && log <= width
      requires StatsTo(KeysOf(slots, Imsi), hash, i, longest0, total0)
      ensures StatsTo(KeysOf(slots, Imsi), hash, i + 1, longest, total)
    {
      var probes := ProbeLength(i, width);
      StatsStep(KeysOf(slots, Imsi), hash, i, longest0, total0, probes);
      total := total0 + probes;
      longest := if probes > longest0 then probes else longest0;
    }
  }

  function WithNewPeriod(m: map<nat, Record>, imsi: nat, ts: nat): map<nat, Record> {
    if imsi in m then m[imsi := m[imsi].(bytesUsed := 0, periodResetTs := ts)] else m
  }

  /** Slots a lookup of the key in slot `i` inspects; 0 for an empty slot. */
  ghost function LengthAt(keys: seq<nat>, hash: nat -> nat, i: nat): nat
    requires i < |keys|
  {
    var home := Home(hash, keys[i], |keys|);
    if keys[i] == 0 || home >= |keys| then 0 else Scan(keys, home, keys[i], 0) + 1
  }

  /** The lookup lengths of the first `n` slots. */
  ghost function LengthsTo(keys: seq<nat>, hash: nat -> nat, n: nat): (ls: seq<nat>)
    requires n <= |keys|
    ensures |ls| == n
  {
    if n == 0 then [] else LengthsTo(keys, hash, n - 1) + [LengthAt(keys, hash, n - 1)]
  }

  lemma PositionGivesLength(keys: seq<nat>, hash: nat -> nat, log: nat, i: nat, width: nat, home: nat, mask: nat)
    requires Table(keys, hash) && |keys| == Pow2(log) && log <= width && i < |keys| && keys[i] != 0
    requires mask == |keys| - 1 && home == And(hash(keys[i]), mask)
    ensures home < Pow2(width) && i < Pow2(width) && Home(hash, keys[i], |keys|) < |keys|
    ensures And(WrappingSub(i, home, width), mask) + 1 == LengthAt(keys, hash, i)
  {
    ScanIsDistance(keys, hash, i);
    MaskedDifference(home, i, log, width);
  }

  /** The largest of the lengths, 0 for none, and their sum. */
  ghost predicate Summed(lengths: seq<nat>, longest: nat, total: nat) {
    && total == Sum(lengths)
    && (longest == 0 || longest in lengths)
    && forall i | 0 <= i < |lengths| :: lengths[i] <= longest
  }

  lemma SummedAppend(lengths: seq<nat>, longest: nat, total: nat, x: nat)
    requires Summed(lengths, longest, total)
    ensures Summed(lengths + [x], if x > longest then x else longest, total + x)
  {
    SumAppend(lengths, x);
    assert (lengths + [x])[|lengths|] == x;
  }

  /** The longest lookup and the sum of all of them, over the first `n` slots. */
  ghost predicate StatsTo(keys: seq<nat>, hash: nat -> nat, n: nat, longest: nat, total: nat) {
    n <= |keys| && Summed(LengthsTo(keys, hash, n), longest, total)
  }

  lemma StatsStart(keys: seq<nat>, hash: nat -> nat)
    ensures StatsTo(keys, hash, 0, 0, 0)
  {
  }

  lemma StatsStep(keys: seq<nat>, hash: nat -> nat, n: nat, longest: nat, total: nat, x: nat)
    requires StatsTo(keys, hash, n, longest, total) && n < |keys| && x == LengthAt(keys, hash, n)
    ensures StatsTo(keys, hash, n + 1, if x > longest then x else longest, total + x)
  {
    SummedAppend(LengthsTo(keys, hash, n), longest, total, x);
  }

  lemma SumAppend(s: seq<nat>, x: nat)
    ensures Sum(s + [x]) == Sum(s) + x
  {
    assert (s + [x])[..|s|] == s;
  }

  function Sum(s: seq<nat>): nat {
    if s == [] then 0 else Sum(s[..|s| - 1]) + s[|s| - 1]
  }

  /** The 64-bit usage counter advanced. */
  function Charge(r: Record, bytes: nat): Record { r.(bytesUsed := (r.bytesUsed + bytes) % U64) }

  function WithUsage(m: map<nat, Record>, imsi: nat, bytes: nat): map<nat, Record> {
    if imsi in m then m[imsi := Charge(m[imsi], bytes)] else m
  }

  /** A new period zeroes one subscriber's usage and sets its reset time; nothing else changes. */
  lemma NewPeriodChanges(m: map<nat, Record>, imsi: nat, ts: nat, k: nat)
    ensures var n := WithNewPeriod(m, imsi, ts);
            && (k in n <==> k in m)
            && (k in m && k != imsi ==> n[k] == m[k])
            && (k in m && k == imsi ==>
                  && n[k].bytesUsed == 0 && n[k].periodResetTs == ts
                  && n[k].(bytesUsed := m[k].bytesUsed, periodResetTs := m[k].periodResetTs) == m[k])
  {
  }

  /** A call of `add_usage`. */
  datatype Usage = Usage(imsi: nat, bytes: nat)

  function AfterUsage(m: map<nat, Record>, calls: seq<Usage>): map<nat, Record> {
    if calls == [] then m
    else WithUsage(AfterUsage(m, calls[..|calls| - 1]), calls[|calls| - 1].imsi, calls[|calls| - 1].bytes)
  }

  /** What the calls charge one subscriber in all. */
  function Charged(calls: seq<Usage>, imsi: nat): nat {
    if calls == [] then 0
    else Charged(calls[..|calls| - 1], imsi) + if calls[|calls| - 1].imsi == imsi then calls[|calls| - 1].bytes else 0
  }

  /** After any calls a subscriber's usage has grown by what it was charged, modulo 2^64, and nothing else changed. */
  lemma {:induction false} UsageAddsUp(m: map<nat, Record>, calls: seq<Usage>, imsi: nat)
    requires imsi in m ==> m[imsi].bytesUsed < 0x1_0000_0000_0000_0000
    ensures imsi in AfterUsage(m, calls) <==> imsi in m
    ensures imsi in m ==>
      AfterUsage(m, calls)[imsi]
      == m[imsi].(bytesUsed := (m[imsi].bytesUsed + Charged(calls, imsi)) % 0x1_0000_0000_0000_0000)
    decreases |calls|
  {
    if calls != [] {
      var front, last := calls[..|calls| - 1], calls[|calls| - 1];
      UsageAddsUp(m, front, imsi);
      if imsi in m && last.imsi == imsi { AddedModulo(m[imsi].bytesUsed + Charged(front, imsi), last.bytes); }
    }
  }

  lemma AddedModulo(a: nat, b: nat)
    ensures (a % U64 + b) % U64 == (a + b) % U64
  {
  }

  // ---------------------------------------------------------------- rosters

  /** Records with non-zero, pairwise different IMSIs. */
  predicate Roster(recs: seq<Record>) {
    && (forall i | 0 <= i < |recs| :: recs[i].imsi != 0)
    && (forall i, j | 0 <= i < j < |recs| :: recs[i].imsi != recs[j].imsi)
  }

  function Loaded(recs: seq<Record>): map<nat, Record> {
    if recs == [] then map[] else Loaded(recs[..|recs| - 1])[recs[|recs| - 1].imsi := recs[|recs| - 1]]
  }

  lemma {:induction false} LoadedSize(recs: seq<Record>)
    requires Roster(recs)
    ensures |Loaded(recs)| == |recs|
    decreases |recs|
  {
    if recs != [] {
      var front, last := recs[..|recs| - 1], recs[|recs| - 1];
      LoadedSize(front);
      NewKey(front, last);
      UpdatedSize(Loaded(front), last);
    }
  }

  lemma NewKey(front: seq<Record>, last: Record)
    requires forall i | 0 <= i < |front| :: front[i].imsi != last.imsi
    ensures last.imsi !in Loaded(front)
  {
    if last.imsi in Loaded(front) { var i := LoadedFrom(front, last.imsi); }
  }

  /** A key of the loaded map comes from a record. */
  lemma {:induction false} LoadedFrom(recs: seq<Record>, k: nat) returns (i: nat)
    requires k in Loaded(recs)
    ensures i < |recs| && recs[i].imsi == k
    decreases |recs|
  {
    var n := |recs| - 1;
    if recs[n].imsi == k { i := n; } else { i := LoadedFrom(recs[..n], k); }
  }

  lemma LoadedNext(recs: seq<Record>, i: nat)
    requires Roster(recs) && i < |recs|
    ensures Loaded(recs[..i + 1]) == Loaded(recs[..i])[recs[i].imsi := recs[i]]
    ensures |Loaded(recs[..i])| == i
  {
    assert recs[..i + 1][..i] == recs[..i];
    LoadedSize(recs[..i]);
  }

  // ---------------------------------------------------------------- slots against the map

  /** The map holds exactly the records in taken slots. */
  ghost predicate Holds(slots: seq<Record>, m: map<nat, Record>) {
    && (forall i | 0 <= i < |slots| && slots[i].imsi != 0 :: slots[i].imsi in m && m[slots[i].imsi] == slots[i])
    && (forall k | k in m :: k != 0 && k in KeysOf(slots, Imsi))
  }

  lemma HoldsNoZero(slots: seq<Record>, m: map<nat, Record>)
    requires Holds(slots, m)
    ensures 0 !in m
  {
  }

  lemma HoldsLookup(slots: seq<Record>, m: map<nat, Record>, key: nat)
    requires Holds(slots, m) && key != 0
    ensures key in m <==> key in KeysOf(slots, Imsi)
  {
    if key in KeysOf(slots, Imsi) {
      var i :| 0 <= i < |slots| && KeysOf(slots, Imsi)[i] == key;
      assert slots[i].imsi == key;
    }
  }

  lemma HoldsUpdate(slots: seq<Record>, m: map<nat, Record>, i: nat, rec: Record)
    requires Holds(slots, m) && i < |slots| && rec.imsi != 0 && Distinct(KeysOf(slots, Imsi))
    requires slots[i].imsi == rec.imsi || (slots[i].imsi == 0 && rec.imsi !in KeysOf(slots, Imsi))
    ensures Holds(slots[i := rec], m[rec.imsi := rec])
  {
    KeysAfterUpdate(slots, i, rec);
    OthersDiffer(slots, i, rec);
  }

  /** The keys after writing a record over an empty slot or over itself: the same, and its own. */
  lemma KeysAfterUpdate(slots: seq<Record>, i: nat, rec: Record)
    requires i < |slots| && rec.imsi != 0 && (slots[i].imsi == rec.imsi || slots[i].imsi == 0)
    ensures rec.imsi in KeysOf(slots[i := rec], Imsi)
    ensures forall k :: k in KeysOf(slots, Imsi) && k != 0 ==> k in KeysOf(slots[i := rec], Imsi)
  {
    var keys, after := KeysOf(slots, Imsi), KeysOf(slots[i := rec], Imsi);
    assert after[i] == rec.imsi;
    forall k | k in keys && k != 0 ensures k in after {
      var j :| 0 <= j < |keys| && keys[j] == k;
      assert after[j] == k;
    }
  }

  lemma OthersDiffer(slots: seq<Record>, i: nat, rec: Record)
    requires i < |slots| && rec.imsi != 0 && Distinct(KeysOf(slots, Imsi))
    requires slots[i].imsi == rec.imsi || (slots[i].imsi == 0 && rec.imsi !in KeysOf(slots, Imsi))
    ensures forall j | 0 <= j < |slots| && j != i && slots[j].imsi != 0 :: slots[j].imsi != rec.imsi
  {
    var keys := KeysOf(slots, Imsi);
    forall j | 0 <= j < |slots| && j != i && slots[j].imsi != 0 ensures slots[j].imsi != rec.imsi {
      assert OnlyAt(keys, j) && keys[j] == slots[j].imsi && keys[i] == slots[i].imsi;
    }
  }

  lemma UpdatedSize(m: map<nat, Record>, rec: Record)
    ensures |m[rec.imsi := rec]| == if rec.imsi in m then |m| else |m| + 1
  {
    assert m[rec.imsi := rec].Keys == m.Keys + {rec.imsi};
  }

  /** The slots are a probe table that indexes exactly the map. */
  ghost predicate Indexes(hash: nat -> nat, slots: seq<Record>, log: nat, size: nat, m: map<nat, Record>) {
    && |slots| == Pow2(log) && |slots| >= 8
    && Table(KeysOf(slots, Imsi), hash)
    && size == Taken(KeysOf(slots, Imsi)) == |m|
    && Holds(slots, m)
  }

  /** ... within the load ceiling. */
  ghost predicate Stocked(
    load: Load, hash: nat -> nat, slots: seq<Record>, log: nat, size: nat, m: map<nat, Record>) {
    load.Valid() && load.Allows(size, |slots|) && Indexes(hash, slots, log, size, m)
  }

  lemma EmptyIndexes(hash: nat -> nat, cap: nat, log: nat)
    requires cap == Pow2(log) && cap >= 8
    ensures Indexes(hash, seq(cap, i => EMPTY), log, 0, map[])
  {
    var keys := KeysOf(seq(cap, i => EMPTY), Imsi);
    assert keys == seq(cap, i => 0);
    EmptyTable(cap);
    AllHomesInRange(keys, hash, log);
    assert keys[0] == 0;
  }

  lemma OverwriteIndexes(
    hash: nat -> nat, slots: seq<Record>, log: nat, size: nat, m: map<nat, Record>, i: nat, rec: Record)
    requires Indexes(hash, slots, log, size, m) && i < |slots| && rec.imsi == slots[i].imsi != 0
    ensures Indexes(hash, slots[i := rec], log, size, m[rec.imsi := rec])
  {
    assert KeysOf(slots[i := rec], Imsi) == KeysOf(slots, Imsi);
    HoldsUpdate(slots, m, i, rec);
    UpdatedSize(m, rec);
  }

  /** The IMSI is not stored, and its probe stops at slot `i`. */
  ghost predicate ProbeEndsFree(hash: nat -> nat, slots: seq<Record>, imsi: nat, i: nat) {
    && slots != [] && imsi !in KeysOf(slots, Imsi)
    && var home := Home(hash, imsi, |slots|);
       home < |slots|
       && var d := Scan(KeysOf(slots, Imsi), home, imsi, 0);
          d < |slots| && i == Slot(home, d, |slots|)
  }

  lemma InsertIndexes(
    hash: nat -> nat, slots: seq<Record>, log: nat, size: nat, m: map<nat, Record>, i: nat, rec: Record)
    requires Indexes(hash, slots, log, size, m) && size + 1 < |slots|
    requires rec.imsi != 0 && ProbeEndsFree(hash, slots, rec.imsi, i)
    ensures i < |slots| && Indexes(hash, slots[i := rec], log, size + 1, m[rec.imsi := rec])
  {
    var keys := KeysOf(slots, Imsi);
    ScanFinds(keys, hash, rec.imsi);
    assert KeysOf(slots[i := rec], Imsi) == keys[i := rec.imsi];
    InsertKeepsTable(keys, hash, rec.imsi);
    TakenUpdate(keys, i, rec.imsi);
    FullMeansNoEmpty(keys[i := rec.imsi]);
    HoldsLookup(slots, m, rec.imsi);
    HoldsUpdate(slots, m, i, rec);
    UpdatedSize(m, rec);
  }

  lemma OverwriteStocked(load: Load, hash: nat -> nat, slots: seq<Record>, log: nat, size: nat,
    m: map<nat, Record>, i: nat, rec: Record, next: seq<Record>, m': map<nat, Record>)
    requires Stocked(load, hash, slots, log, size, m) && i < |slots| && rec.imsi == slots[i].imsi != 0
    requires next == slots[i := rec] && m' == m[rec.imsi := rec]
    ensures Stocked(load, hash, next, log, size, m')
  {
    OverwriteIndexes(hash, slots, log, size, m, i, rec);
  }

  lemma FillStocked(load: Load, hash: nat -> nat, slots: seq<Record>, log: nat, size: nat,
    m: map<nat, Record>, i: nat, rec: Record, next: seq<Record>, m': map<nat, Record>)
    requires Stocked(load, hash, slots, log, size, m) && load.Allows(size + 1, |slots|)
    requires rec.imsi != 0 && ProbeEndsFree(hash, slots, rec.imsi, i) && i < |slots|
    requires next == slots[i := rec] && m' == m[rec.imsi := rec]
    ensures Stocked(load, hash, next, log, size + 1, m')
  {
    AllowsLeavesRoom(load, size + 1, |slots|);
    InsertIndexes(hash, slots, log, size, m, i, rec);
  }

  // ---------------------------------------------------------------- rehashing

  /** The part of the map whose records sit in the first `n` slots. */
  ghost function Prefix(slots: seq<Record>, m: map<nat, Record>, n: nat): map<nat, Record>
    requires n <= |slots|
  {
    map k | k in m && k in KeysOf(slots[..n], Imsi) :: m[k]
  }

  lemma PrefixNone(slots: seq<Record>, m: map<nat, Record>)
    ensures Prefix(slots, m, 0) == map[]
  {
  }

  lemma PrefixNext(slots: seq<Record>, m: map<nat, Record>, n: nat)
    requires n < |slots| && Holds(slots, m)
    ensures Prefix(slots, m, n + 1)
         == if slots[n].imsi == 0 then Prefix(slots, m, n) else Prefix(slots, m, n)[slots[n].imsi := slots[n]]
  {
    assert KeysOf(slots[..n + 1], Imsi) == KeysOf(slots[..n], Imsi) + [slots[n].imsi];
  }

  /** While a record is still to come, fewer records are back than there were. */
  lemma PrefixIsSmaller(slots: seq<Record>, m: map<nat, Record>, n: nat)
    requires n < |slots| && Holds(slots, m) && Distinct(KeysOf(slots, Imsi)) && slots[n].imsi != 0
    ensures |Prefix(slots, m, n)| < |m|
  {
    var p, keys := Prefix(slots, m, n), KeysOf(slots[..n], Imsi);
    assert forall i | 0 <= i < n :: keys[i] == KeysOf(slots, Imsi)[i];
    assert OnlyAt(KeysOf(slots, Imsi), n) && KeysOf(slots, Imsi)[n] == slots[n].imsi;
    assert slots[n].imsi !in p.Keys;
    SubsetIsSmaller(p.Keys, m.Keys, slots[n].imsi);
  }

  lemma SubsetIsSmaller(a: set<nat>, b: set<nat>, x: nat)
    requires a <= b && x in b && x !in a
    ensures |a| < |b|
  {
    assert b == a + (b - a);
    assert |b - a| > 0;
  }

  lemma PrefixAll(slots: seq<Record>, m: map<nat, Record>)
    requires Holds(slots, m)
    ensures Prefix(slots, m, |slots|) == m
  {
    assert slots[..|slots|] == slots;
  }
}
