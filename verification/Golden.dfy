/** The golden corpus: printing a case as a CSV row, reading it back, and comparing decisions. */
module Golden {
  import opened Common
  import opened Text

  const FIELD_COUNT: nat := 22
  const BUFFER_SIZE: nat := 512

  /** The request fields a golden row pins. */
  datatype Request = Request(
    imsi: nat, imei: nat, plmn: nat, tac: nat, rat: nat, dnn: nat, requested5qi: nat, flags: nat,
    localMinute: nat, bytesUsed: nat)
  {
    predicate InRange() {
      && imsi < U64 && imei < U64 && plmn < U32 && tac < U16 && rat < U8 && dnn < U8
      && requested5qi < U8 && flags < U8 && localMinute < U16 && bytesUsed < U64
    }
  }

  /** The decision fields a golden row pins. */
  datatype Decision = Decision(
    verdict: nat, reason: nat, qos5qi: nat, arp: nat, ambrUl: nat, ambrDl: nat, ratingGroup: nat,
    quotaBytes: nat, quotaValidity: nat, ruleId: nat, flags: nat, redirectId: nat)
  {
    predicate InRange() {
      && verdict < U8 && reason < U8 && qos5qi < U8 && arp < U8 && ambrUl < U32 && ambrDl < U32
      && ratingGroup < U32 && quotaBytes < U64 && quotaValidity < U32 && ruleId < U32
      && flags < U8 && redirectId < U8
    }
  }

  // ---------------------------------------------------------------- numbers

  predicate IsDigit(c: char) { '0' <= c <= '9' }

  predicate AllDigits(s: string) { forall i | 0 <= i < |s| :: IsDigit(s[i]) }

  function DigitChar(n: nat): char
    requires n < 10
  {
    ['0', '1', '2', '3', '4', '5', '6', '7', '8', '9'][n]
  }

  /** `%u` and `%llu`. */
  function Print(n: nat): (s: string)
    ensures s != [] && AllDigits(s)
  {
    if n < 10 then [DigitChar(n)] else Print(n / 10) + [DigitChar(n % 10)]
  }

  function Value(s: string): nat
    requires AllDigits(s)
  {
    if s == [] then 0 else 10 * Value(s[..|s| - 1]) + (s[|s| - 1] as nat - '0' as nat)
  }

  lemma {:induction false} ValueOfPrint(n: nat)
    ensures Value(Print(n)) == n
  {
    if n < 10 {
      assert Print(n)[..0] == [];
    } else {
      ValueOfPrint(n / 10);
      assert Print(n)[..|Print(n)| - 1] == Print(n / 10);
    }
  }

  predicate IsSpace(c: char) { c == ' ' || '\t' <= c <= '\r' }

  function SkipSpace(s: string): string {
    if s != [] && IsSpace(s[0]) then SkipSpace(s[1..]) else s
  }

  /** The longest prefix of digits. */
  function DigitPrefix(s: string): (p: string)
    ensures AllDigits(p)
  {
    if s != [] && IsDigit(s[0]) then [s[0]] + DigitPrefix(s[1..]) else []
  }

  /** `strtoull(..., 10)`: leading space, an optional sign, digits; saturating, and wrapping on a minus sign. */
  function ToU64(s: string): nat {
    var t := SkipSpace(s);
    var minus := t != [] && t[0] == '-';
    var body := if t != [] && (t[0] == '-' || t[0] == '+') then t[1..] else t;
    var v := Value(DigitPrefix(body));
    if v >= U64 then U64 - 1 else if minus && v != 0 then U64 - v else v
  }

  lemma {:induction false} DigitPrefixOfDigits(s: string)
    requires AllDigits(s)
    ensures DigitPrefix(s) == s
  {
    if s != [] { DigitPrefixOfDigits(s[1..]); }
  }

  /** A printed number reads back as itself. */
  lemma NumberRoundTrip(n: nat)
    requires n < U64
    ensures ToU64(Print(n)) == n
  {
    ValueOfPrint(n);
    DigitPrefixOfDigits(Print(n));
    assert IsDigit(Print(n)[0]);
  }

  // ---------------------------------------------------------------- rows

  /** Up to `limit` comma-separated fields from a position on; anything after the last one's comma is dropped. */
  function SplitFrom(line: string, start: nat, limit: nat): seq<string>
    requires start <= |line|
    decreases limit
  {
    if limit == 0 then []
    else
      var comma := Find(line, ',', start);
      if comma == |line| then [line[start..]] else [line[start..comma]] + SplitFrom(line, comma + 1, limit - 1)
  }

  function Split(line: string): seq<string> { SplitFrom(line, 0, FIELD_COUNT) }

  predicate NoComma(s: string) { Without(s, ',') }

  lemma SplitLastField(f: string, line: string, start: nat, limit: nat)
    requires NoComma(f) && limit > 0 && start + |f| == |line| && line[start..start + |f|] == f
    ensures SplitFrom(line, start, limit) == [f]
  {
    FindAt(line, start, f, ',');
    assert line[start..] == line[start..|line|];
  }

  lemma SplitNextField(f: string, line: string, start: nat, limit: nat)
    requires NoComma(f) && limit > 0 && start + |f| < |line| && line[start..start + |f|] == f && line[start + |f|] == ','
    ensures SplitFrom(line, start, limit) == [f] + SplitFrom(line, start + |f| + 1, limit - 1)
  {
    FindAt(line, start, f, ',');
  }

  /** Splitting finds the fields that lie in the line. */
  lemma {:induction false} SplitFindsFields(fields: seq<string>, line: string, start: nat, limit: nat)
    requires fields != [] && |fields| <= limit && forall i | 0 <= i < |fields| :: NoComma(fields[i])
    requires LiesAt(line, start, fields, ',')
    ensures start <= |line| && SplitFrom(line, start, limit) == fields
    decreases |fields|
  {
    if |fields| == 1 {
      SplitLastField(fields[0], line, start, limit);
    } else {
      var next := start + |fields[0]| + 1;
      SplitFindsFields(fields[1..], line, next, limit - 1);
      SplitNextField(fields[0], line, start, limit);
      assert fields == [fields[0]] + fields[1..];
    }
  }

  /** Joining and splitting undo each other for fields without commas. */
  lemma SplitOfJoin(fields: seq<string>, limit: nat)
    requires fields != [] && |fields| <= limit && forall i | 0 <= i < |fields| :: NoComma(fields[i])
    ensures SplitFrom(Join(fields, ','), 0, limit) == fields
  {
    JoinLies([], fields, ',');
    assert [] + Join(fields, ',') == Join(fields, ',');
    SplitFindsFields(fields, Join(fields, ','), 0, limit);
  }

  /** The commas from a position on. */
  function Commas(line: string, pos: nat): nat
    requires pos <= |line|
    decreases |line| - pos
  {
    if pos == |line| then 0 else (if line[pos] == ',' then 1 else 0) + Commas(line, pos + 1)
  }

  lemma {:induction false} NoCommasUpTo(line: string, pos: nat, end: nat)
    requires pos <= end <= |line| && forall k | pos <= k < end :: line[k] != ','
    ensures Commas(line, pos) == Commas(line, end)
    decreases end - pos
  {
    if pos < end { NoCommasUpTo(line, pos + 1, end); }
  }

  /** One field more than there are commas, up to the limit. */
  lemma {:induction false} SplitCount(line: string, start: nat, limit: nat)
    requires start <= |line|
    ensures |SplitFrom(line, start, limit)| == if Commas(line, start) + 1 <= limit then Commas(line, start) + 1 else limit
    decreases limit
  {
    if limit > 0 {
      var comma := Find(line, ',', start);
      NoCommasUpTo(line, start, comma);
      if comma < |line| { SplitCount(line, comma + 1, limit - 1); }
    }
  }

  /** The splitting loop: a cursor moves from comma to comma. */
  method SplitLine(line: string, limit: nat) returns (fields: seq<string>)
    ensures fields == SplitFrom(line, 0, limit)
  {
    fields := [];
    var start: nat, room: nat := 0, limit;
    ghost var all, rest := SplitFrom(line, 0, limit), SplitFrom(line, 0, limit);
    while room > 0
      invariant start <= |line| && rest == SplitFrom(line, start, room) && all == fields + rest
    {
      var comma := Find(line, ',', start);
      if comma == |line| {
        fields := fields + [line[start..]];
        return;
      }
      fields := fields + [line[start..comma]];
      start, room, rest := comma + 1, room - 1, rest[1..];
    }
  }

  /** The 22 numbers of a row, in column order. */
  function Columns(r: Request, d: Decision): (ns: seq<nat>)
    ensures |ns| == FIELD_COUNT
  {
    [r.imsi, r.imei, r.plmn, r.tac, r.rat, r.dnn, r.requested5qi, r.flags, r.localMinute, r.bytesUsed,
     d.verdict, d.reason, d.qos5qi, d.arp, d.ambrUl, d.ambrDl, d.ratingGroup, d.quotaBytes, d.quotaValidity,
     d.ruleId, d.flags, d.redirectId]
  }

  /** The value a column of this name holds. */
  function Named(r: Request, d: Decision, name: string): Option<nat> {
    if name == "ambr_dl_kbps" then Some(d.ambrDl)
    else if name == "ambr_ul_kbps" then Some(d.ambrUl)
    else if name == "arp" then Some(d.arp)
    else if name == "bytes_used" then Some(r.bytesUsed)
    else if name == "dec_flags" then Some(d.flags)
    else if name == "dnn" then Some(r.dnn)
    else if name == "imei" then Some(r.imei)
    else if name == "imsi" then Some(r.imsi)
    else if name == "local_minute" then Some(r.localMinute)
    else if name == "plmn" then Some(r.plmn)
    else if name == "qos_5qi" then Some(d.qos5qi)
    else if name == "quota_bytes" then Some(d.quotaBytes)
    else if name == "quota_validity_s" then Some(d.quotaValidity)
    else if name == "rat" then Some(r.rat)
    else if name == "rating_group" then Some(d.ratingGroup)
    else if name == "reason" then Some(d.reason)
    else if name == "redirect_id" then Some(d.redirectId)
    else if name == "req_5qi" then Some(r.requested5qi)
    else if name == "req_flags" then Some(r.flags)
    else if name == "rule_id" then Some(d.ruleId)
    else if name == "tac" then Some(r.tac)
    else if name == "verdict" then Some(d.verdict)
    else None
  }

  /** Every column holds what its name in the header says. */
  lemma ColumnsFollowHeader(r: Request, d: Decision, i: nat)
    requires i < FIELD_COUNT
    ensures |NAMES| == FIELD_COUNT && Named(r, d, NAMES[i]) == Some(Columns(r, d)[i])
  {
  }

  function Printed(ns: seq<nat>): (fs: seq<string>)
    ensures |fs| == |ns| && forall i | 0 <= i < |ns| :: fs[i] == Print(ns[i])
  {
    seq(|ns|, i requires 0 <= i < |ns| => Print(ns[i]))
  }

  /** `snprintf` into the fixed buffer: text beyond it is cut off. */
  function Truncate(s: string): string { if |s| < BUFFER_SIZE then s else s[..BUFFER_SIZE - 1] }

  function GoldenRow(r: Request, d: Decision): string { Truncate(Join(Printed(Columns(r, d)), ',')) }

  /** The numbers of a row back into a case, each cut to its field's width. */
  function Assemble(v: seq<nat>): (Request, Decision)
    requires |v| == FIELD_COUNT
  {
    (Request(v[0], v[1], v[2] % U32, v[3] % U16, v[4] % U8, v[5] % U8, v[6] % U8, v[7] % U8, v[8] % U16, v[9]),
     Decision(v[10] % U8, v[11] % U8, v[12] % U8, v[13] % U8, v[14] % U32, v[15] % U32, v[16] % U32, v[17],
              v[18] % U32, v[19] % U32, v[20] % U8, v[21] % U8))
  }

  lemma AssembleRequest(r: Request, d: Decision)
    requires r.InRange()
    ensures Assemble(Columns(r, d)).0 == r
  {
  }

  lemma AssembleDecision(r: Request, d: Decision)
    requires d.InRange()
    ensures Assemble(Columns(r, d)).1 == d
  {
  }

  function Read(fields: seq<string>): (ns: seq<nat>)
    ensures |ns| == |fields| && forall i | 0 <= i < |fields| :: ns[i] == ToU64(fields[i])
  {
    seq(|fields|, i requires 0 <= i < |fields| => ToU64(fields[i]))
  }

  /** A row back into a case; `None` for the wrong number of fields. */
  function ParseRow(line: string): Option<(Request, Decision)> {
    var f := Split(line);
    if |f| != FIELD_COUNT then None else Some(Assemble(Read(f)))
  }

  // ---------------------------------------------------------------- the row fits its buffer

  lemma {:induction false} PrintLength(n: nat, k: nat)
    requires k >= 1 && n < Pow10(k)
    ensures |Print(n)| <= k
  {
    if n >= 10 { PrintLength(n / 10, k - 1); }
  }

  lemma {:induction false} Pow10Add(a: nat, b: nat)
    ensures Pow10(a + b) == Pow10(a) * Pow10(b)
  {
    if a > 0 { Pow10Add(a - 1, b); }
  }

  lemma TwentyDigits()
    ensures Pow10(20) > U64
  {
    Pow10Add(5, 5);
    Pow10Add(10, 10);
    assert Pow10(5) == 100000;
  }

  /** No printed field is longer than the 20 digits of a 64-bit number. */
  lemma FieldLength(n: nat)
    requires n < U64
    ensures |Print(n)| <= 20
  {
    TwentyDigits();
    PrintLength(n, 20);
  }

  lemma {:induction false} JoinLength(fields: seq<string>)
    requires fields != [] && forall i | 0 <= i < |fields| :: |fields[i]| <= 20
    ensures |Join(fields, ',')| <= 21 * |fields| - 1
    decreases |fields|
  {
    if |fields| > 1 { JoinLength(fields[1..]); }
  }

  lemma ColumnsInRange(r: Request, d: Decision)
    requires r.InRange() && d.InRange()
    ensures forall i | 0 <= i < FIELD_COUNT :: Columns(r, d)[i] < U64
  {
  }

  /** The buffer never cuts a row short. */
  lemma RowIsNotTruncated(r: Request, d: Decision)
    requires r.InRange() && d.InRange()
    ensures GoldenRow(r, d) == Join(Printed(Columns(r, d)), ',')
  {
    var ns := Columns(r, d);
    ColumnsInRange(r, d);
    forall i | 0 <= i < FIELD_COUNT ensures |Printed(ns)[i]| <= 20 {
      FieldLength(ns[i]);
    }
    JoinLength(Printed(ns));
  }

  lemma PrintedReadsBack(ns: seq<nat>)
    requires forall i | 0 <= i < |ns| :: ns[i] < U64
    ensures Read(Printed(ns)) == ns
  {
    forall i | 0 <= i < |ns| ensures ToU64(Printed(ns)[i]) == ns[i] {
      NumberRoundTrip(ns[i]);
    }
  }

  lemma PrintedHasNoComma(n: nat)
    ensures NoComma(Print(n))
  {
    assert forall i | 0 <= i < |Print(n)| :: IsDigit(Print(n)[i]);
  }

  /** Printing a case and parsing the row recovers every pinned field. */
  lemma RowRoundTrip(r: Request, d: Decision)
    requires r.InRange() && d.InRange()
    ensures ParseRow(GoldenRow(r, d)) == Some((r, d))
  {
    var ns := Columns(r, d);
    RowIsNotTruncated(r, d);
    forall i | 0 <= i < FIELD_COUNT ensures NoComma(Printed(ns)[i]) {
      PrintedHasNoComma(ns[i]);
    }
    SplitOfJoin(Printed(ns), FIELD_COUNT);
    ColumnsInRange(r, d);
    PrintedReadsBack(ns);
    AssembleRequest(r, d);
    AssembleDecision(r, d);
  }

  // ---------------------------------------------------------------- files

  const NAMES: seq<string> := [
    "imsi", "imei", "plmn", "tac", "rat", "dnn", "req_5qi", "req_flags", "local_minute", "bytes_used",
    "verdict", "reason", "qos_5qi", "arp", "ambr_ul_kbps", "ambr_dl_kbps", "rating_group",
    "quota_bytes", "quota_validity_s", "rule_id", "dec_flags", "redirect_id"]

  const HEADER: string := Join(NAMES, ',')

  datatype Case = Case(line: nat, request: Request, expected: Decision)

  datatype LoadResult =
    | Loaded(cases: seq<Case>)
    | BadHeader(found: string)
    | BadRow(line: nat, fields: nat)
    | NoCases

  datatype Numbered = Numbered(line: nat, text: string)

  function Strip(s: string): string {
    if s != [] && (s[|s| - 1] == '\r' || s[|s| - 1] == ' ') then Strip(s[..|s| - 1]) else s
  }

  predicate Skipped(text: string) { text == [] || text[0] == '#' }

  /** The lines that are neither blank nor comments, stripped, with their numbers from 1. */
  function Meaningful(lines: seq<string>): seq<Numbered> {
    if lines == [] then []
    else
      var before := Meaningful(lines[..|lines| - 1]);
      var text := Strip(lines[|lines| - 1]);
      if Skipped(text) then before else before + [Numbered(|lines|, text)]
  }

  ghost predicate GoodRow(row: Numbered, c: Case) {
    ParseRow(row.text) == Some((c.request, c.expected)) && c.line == row.line
  }

  /** Every meaningful line after the header is a well-formed row, and `cases` holds them in order. */
  ghost predicate RowsAre(ms: seq<Numbered>, cases: seq<Case>) {
    && |ms| == |cases| + 1
    && ms[0].text == HEADER
    && Aligned(ms, cases, (row, c) => GoodRow(row, c))
  }

  /** Each case fits the row one further on. */
  ghost predicate Aligned<R, C>(rows: seq<R>, cases: seq<C>, fits: (R, C) -> bool)
    requires |rows| == |cases| + 1
  {
    forall i | 0 <= i < |cases| :: fits(rows[i + 1], cases[i])
  }

  lemma AlignedGrow<R, C>(rows: seq<R>, cases: seq<C>, fits: (R, C) -> bool, row: R, c: C)
    requires |rows| == |cases| + 1 && Aligned(rows, cases, fits) && fits(row, c)
    ensures Aligned(rows + [row], cases + [c], fits)
  {
    forall i | 0 <= i < |cases| + 1 ensures fits((rows + [row])[i + 1], (cases + [c])[i]) {
      if i < |cases| { assert fits(rows[i + 1], cases[i]); }
    }
  }

  /** What a file holds: its cases, or the first thing wrong with it. */
  ghost predicate Describes(ms: seq<Numbered>, res: LoadResult) {
    match res
    case Loaded(cases) => cases != [] && RowsAre(ms, cases)
    case NoCases => ms == [] || (|ms| == 1 && ms[0].text == HEADER)
    case BadHeader(found) => ms != [] && ms[0].text == found != HEADER
    case BadRow(line, fields) =>
      exists k | 0 < k < |ms| ::
        && ms[k].line == line && |Split(ms[k].text)| == fields != FIELD_COUNT
        && ms[0].text == HEADER && forall i | 0 < i < k :: ParseRow(ms[i].text).Some?
  }

  lemma {:induction false} MeaningfulPrefix(lines: seq<string>, n: nat)
    requires n <= |lines|
    ensures Meaningful(lines[..n]) <= Meaningful(lines)
    decreases |lines|
  {
    if n < |lines| {
      var shorter := lines[..|lines| - 1];
      MeaningfulPrefix(shorter, n);
      assert shorter[..n] == lines[..n];
    } else {
      assert lines[..n] == lines;
    }
  }

  /** Read one row: the case, or how many fields it had. Fields after the 22nd are dropped. */
  method ReadRow(row: Numbered) returns (c: Option<Case>, fields: nat)
    ensures fields == |Split(row.text)| && (c.Some? <==> fields == FIELD_COUNT)
    ensures c.Some? <==> Commas(row.text, 0) >= FIELD_COUNT - 1
    ensures c.None? ==> fields == Commas(row.text, 0) + 1
    ensures c.Some? ==> GoodRow(row, c.value)
  {
    var f := SplitLine(row.text, FIELD_COUNT);
    SplitCount(row.text, 0, FIELD_COUNT);
    fields := |f|;
    if fields != FIELD_COUNT {
      return None, fields;
    }
    var v := Assemble(Read(f));
    c := Some(Case(row.line, v.0, v.1));
  }

  /** The state of the reading loop: nothing meaningful yet, or the header and these cases. */
  ghost predicate Reading(ms: seq<Numbered>, checked: bool, cases: seq<Case>) {
    if checked then RowsAre(ms, cases) else ms == [] && cases == []
  }

  lemma RowsGrow(ms: seq<Numbered>, cases: seq<Case>, row: Numbered, c: Case)
    requires RowsAre(ms, cases) && GoodRow(row, c)
    ensures RowsAre(ms + [row], cases + [c])
  {
    AlignedGrow(ms, cases, (row, c) => GoodRow(row, c), row, c);
  }

  lemma BadRowDescribes(ms: seq<Numbered>, cases: seq<Case>, row: Numbered, all: seq<Numbered>)
    requires RowsAre(ms, cases) && |Split(row.text)| != FIELD_COUNT && ms + [row] <= all
    ensures Describes(all, BadRow(row.line, |Split(row.text)|))
  {
    var k := |ms|;
    assert all[k] == row && all[0] == ms[0];
    forall i | 0 < i < k ensures ParseRow(all[i].text).Some? {
      assert all[i] == ms[i] && GoodRow(ms[i - 1 + 1], cases[i - 1]);
    }
  }

  method LoadGolden(lines: seq<string>) returns (res: LoadResult)
    ensures Describes(Meaningful(lines), res)
  {
    ghost var all := Meaningful(lines);
    var cases: seq<Case>, checked := [], false;
    for i := 0 to |lines|
      invariant Reading(Meaningful(lines[..i]), checked, cases)
    {
      ghost var ms := Meaningful(lines[..i]);
      var row := Numbered(i + 1, Strip(lines[i]));
      assert lines[..i + 1][..i] == lines[..i];
      MeaningfulPrefix(lines, i + 1);
      if !Skipped(row.text) {
        assert ms + [row] <= all;
        if !checked {
          checked := true;
          if row.text != HEADER {
            return BadHeader(row.text);
          }
        } else {
          var c, fields := ReadRow(row);
          if c.None? {
            BadRowDescribes(ms, cases, row, all);
            return BadRow(row.line, fields);
          }
          RowsGrow(ms, cases, row, c.value);
          cases := cases + [c.value];
        }
      }
    }
    assert lines[..|lines|] == lines;
    res := if cases == [] then NoCases else Loaded(cases);
  }

  function RowOf(c: (Request, Decision)): string { GoldenRow(c.0, c.1) }

  function Rows(cases: seq<(Request, Decision)>): (lines: seq<string>)
    ensures |lines| == |cases| && forall i | 0 <= i < |cases| :: lines[i] == RowOf(cases[i])
  {
    if cases == [] then [] else Rows(cases[..|cases| - 1]) + [RowOf(cases[|cases| - 1])]
  }

  /** The file the generator writes: the header, then one row per case. */
  function GoldenFile(cases: seq<(Request, Decision)>): seq<string> { [HEADER] + Rows(cases) }

  predicate Solid(s: string) { s != [] && s[0] != '#' && s[|s| - 1] != '\r' && s[|s| - 1] != ' ' }

  /** A file without blank lines, comments or trailing space is read line by line. */
  lemma {:induction false} SolidLines(lines: seq<string>)
    requires forall i | 0 <= i < |lines| :: Solid(lines[i])
    ensures |Meaningful(lines)| == |lines|
    ensures forall i | 0 <= i < |lines| :: Meaningful(lines)[i] == Numbered(i + 1, lines[i])
  {
    if lines != [] { SolidLines(lines[..|lines| - 1]); }
  }

  lemma SolidFile(header: string, rows: seq<string>)
    requires Solid(header) && forall i | 0 <= i < |rows| :: Solid(rows[i])
    ensures |Meaningful([header] + rows)| == |rows| + 1 && Meaningful([header] + rows)[0] == Numbered(1, header)
    ensures forall i | 0 <= i < |rows| :: Meaningful([header] + rows)[i + 1] == Numbered(i + 2, rows[i])
  {
    var lines := [header] + rows;
    forall i | 0 <= i < |lines| ensures Solid(lines[i]) {
      if i > 0 { assert lines[i] == rows[i - 1]; }
    }
    SolidLines(lines);
  }

  lemma {:induction false} JoinEnds(fields: seq<string>)
    requires fields != [] && forall i | 0 <= i < |fields| :: fields[i] != []
    ensures Join(fields, ',') != [] && Join(fields, ',')[0] == fields[0][0]
    ensures Join(fields, ',')[|Join(fields, ',')| - 1] == fields[|fields| - 1][|fields[|fields| - 1]| - 1]
    decreases |fields|
  {
    if |fields| > 1 {
      JoinEnds(fields[1..]);
      var first, rest := fields[0], Join(fields[1..], ',');
      assert Join(fields, ',') == first + "," + rest;
      assert Join(fields, ',')[0] == first[0] && Join(fields, ',')[|first| + |rest|] == rest[|rest| - 1];
    }
  }

  lemma HeaderIsSolid()
    ensures Solid(HEADER)
  {
    var names := NAMES;
    JoinEnds(names);
    assert names[0] == "imsi" && names[21] == "redirect_id";
    assert names[0][0] == 'i' && names[21][10] == 'd';
  }

  lemma PrintedEnds(ns: seq<nat>, k: nat)
    requires k < |ns|
    ensures Printed(ns)[k] != [] && IsDigit(Printed(ns)[k][0]) && IsDigit(Printed(ns)[k][|Printed(ns)[k]| - 1])
  {
    assert AllDigits(Print(ns[k]));
  }

  lemma RowIsSolid(r: Request, d: Decision)
    requires r.InRange() && d.InRange()
    ensures Solid(GoldenRow(r, d))
  {
    var ns := Columns(r, d);
    RowIsNotTruncated(r, d);
    JoinEnds(Printed(ns));
    PrintedEnds(ns, 0);
    PrintedEnds(ns, FIELD_COUNT - 1);
  }

  ghost predicate InRange(c: (Request, Decision)) { c.0.InRange() && c.1.InRange() }

  /** The lines of a generated file, as the loader sees them. */
  lemma FileLines(cases: seq<(Request, Decision)>, ms: seq<Numbered>)
    requires forall i | 0 <= i < |cases| :: InRange(cases[i])
    requires ms == Meaningful(GoldenFile(cases))
    ensures |ms| == |cases| + 1 && ms[0] == Numbered(1, HEADER)
    ensures forall i | 0 <= i < |cases| :: ms[i + 1] == Numbered(i + 2, RowOf(cases[i]))
  {
    var rows := Rows(cases);
    forall i | 0 <= i < |rows| ensures Solid(rows[i]) {
      assert InRange(cases[i]);
      RowIsSolid(cases[i].0, cases[i].1);
    }
    HeaderIsSolid();
    SolidFile(HEADER, rows);
  }

  lemma GoodRowAt(ms: seq<Numbered>, cases: seq<Case>, i: nat)
    requires i < |cases| && RowsAre(ms, cases)
    ensures GoodRow(ms[i + 1], cases[i])
  {
    var fits := (row, c) => GoodRow(row, c);
    assert fits(ms[i + 1], cases[i]);
  }

  lemma GoodRowIsWhole(row: Numbered, c: Case)
    requires GoodRow(row, c)
    ensures |Split(row.text)| == FIELD_COUNT
  {
  }

  lemma GoodRowIsUnique(row: Numbered, c: Case, c': Case)
    requires GoodRow(row, c) && GoodRow(row, c')
    ensures c == c'
  {
  }

  lemma CasesAreUnique(ms: seq<Numbered>, cases: seq<Case>, cases': seq<Case>)
    requires RowsAre(ms, cases) && RowsAre(ms, cases')
    ensures cases == cases'
  {
    forall i | 0 <= i < |cases| ensures cases[i] == cases'[i] {
      GoodRowAt(ms, cases, i);
      GoodRowAt(ms, cases', i);
      GoodRowIsUnique(ms[i + 1], cases[i], cases'[i]);
    }
  }

  /** A file of well-formed rows has one possible result: its cases. */
  lemma WellFormedLoads(ms: seq<Numbered>, cases: seq<Case>, res: LoadResult)
    requires cases != [] && RowsAre(ms, cases) && Describes(ms, res)
    ensures res == Loaded(cases)
  {
    forall k | 0 < k < |ms| ensures |Split(ms[k].text)| == FIELD_COUNT {
      GoodRowAt(ms, cases, k - 1);
      GoodRowIsWhole(ms[k], cases[k - 1]);
    }
    if res.Loaded? { CasesAreUnique(ms, cases, res.cases); }
  }

  function CasesOf(cases: seq<(Request, Decision)>): (cs: seq<Case>)
    ensures |cs| == |cases| && forall i | 0 <= i < |cases| :: cs[i] == Case(i + 2, cases[i].0, cases[i].1)
  {
    seq(|cases|, i requires 0 <= i < |cases| => Case(i + 2, cases[i].0, cases[i].1))
  }

  /** Loading a generated file gives back exactly its cases, numbered from line 2. */
  lemma FileRoundTrip(cases: seq<(Request, Decision)>, res: LoadResult)
    requires cases != [] && forall i | 0 <= i < |cases| :: InRange(cases[i])
    requires Describes(Meaningful(GoldenFile(cases)), res)
    ensures res == Loaded(CasesOf(cases))
  {
    var ms, cs := Meaningful(GoldenFile(cases)), CasesOf(cases);
    FileLines(cases, ms);
    forall i | 0 <= i < |cs| ensures GoodRow(ms[i + 1], cs[i]) {
      assert InRange(cases[i]);
      RowRoundTrip(cases[i].0, cases[i].1);
    }
    WellFormedLoads(ms, cs, res);
  }

  // ---------------------------------------------------------------- comparing decisions

  /** Add a mismatch to the report. */
  method Report(os: string, name: string, differs: bool, expected: string, actual: string) returns (report: string)
    ensures report == "" <==> os == "" && !differs
    ensures os <= report
  {
    if !differs {
      return os;
    }
    var line := name + (": expected " + expected + " got " + actual);
    report := os + (if os == "" then "" else ", ") + line;
    assert line != "";
  }

  method Compare(os: string, name: string, e: nat, a: nat) returns (report: string)
    ensures report == "" <==> os == "" && e == a
  {
    report := Report(os, name, e != a, Print(e), Print(a));
  }

  /** The comparison report; the two naming functions are the protocol's. Empty exactly when all fields agree. */
  method DiffDecisions(e: Decision, a: Decision, verdictName: nat -> string, reasonName: nat -> string)
    returns (os: string)
    ensures os == "" <==> e == a
  {
    os := Report("", "verdict", e.verdict != a.verdict, verdictName(e.verdict), verdictName(a.verdict));
    os := Report(os, "reason", e.reason != a.reason, reasonName(e.reason), reasonName(a.reason));
    os := Compare(os, "rule_id", e.ruleId, a.ruleId);
    os := Compare(os, "qos_5qi", e.qos5qi, a.qos5qi);
    os := Compare(os, "arp", e.arp, a.arp);
    os := Compare(os, "ambr_ul_kbps", e.ambrUl, a.ambrUl);
    os := Compare(os, "ambr_dl_kbps", e.ambrDl, a.ambrDl);
    os := Compare(os, "rating_group", e.ratingGroup, a.ratingGroup);
    os := Compare(os, "quota_bytes", e.quotaBytes, a.quotaBytes);
    os := Compare(os, "quota_validity_s", e.quotaValidity, a.quotaValidity);
    os := Compare(os, "flags", e.flags, a.flags);
    os := Compare(os, "redirect_id", e.redirectId, a.redirectId);
  }
}
