/**
 Comments and carriage returns: a comment behind a blank and outside quotes is as if it were not there, any other `#`
 is content, and a carriage return at the end of a line is dropped.
 */
module YamlComments {
  import opened Text
  import opened YamlText
  import opened YamlGrammar
  import opened YamlLines
  import opened YamlReadable

  // ---------------------------------------------------------------- what one line is read as

  lemma {:induction false} CommentIsOne(line: string, k: nat, m: nat)
    requires CommentFrom(line, k) && CommentFrom(line, m)
    ensures k == m
  {
  }

  lemma {:induction false} CommentBehind(s: string, n: nat, i: nat, q: Quote)
    requires n + i <= |s| && (n == 0 || IsBlank(s[n - 1]))
    ensures n + CommentAt(s[n..], i, q) == CommentAt(s, n + i, q)
    decreases |s| - n - i
  {
    if n + i < |s| {
      assert s[n..][i] == s[n + i];
      if i > 0 { assert s[n..][i - 1] == s[n + i - 1]; }
      CommentBehind(s, n, i + 1, Step(q, s[n + i]));
    }
  }

  lemma {:induction false} SpacesSkipped(s: string, n: nat, i: nat)
    requires i <= n <= |s| && forall j | i <= j < n :: s[j] == ' '
    ensures CommentAt(s, i, Out) == CommentAt(s, n, Out)
    decreases n - i
  {
    if i < n { SpacesSkipped(s, n, i + 1); }
  }

  lemma {:induction false} OnlySpacesBefore(s: string, i: nat)
    requires i <= |s|
    ensures forall j | i <= j < SpacesAt(s, i) :: s[j] == ' '
    decreases |s| - i
  {
    if i < |s| && s[i] == ' ' { OnlySpacesBefore(s, i + 1); }
  }

  /** The line has `n` spaces in front and its content ends at `k`, where a comment starts or it is over. */
  ghost predicate Cut(s: string, n: nat, k: nat) {
    n <= k <= |s| && SpacesAt(s, 0) == n && CommentFrom(s, k)
  }

  /** The indentation and the text up to `k`, without trailing space. */
  function CutRead(s: string, n: nat, k: nat): Raw
    requires n <= k <= |s|
  {
    if n < |s| && s[n] == '\t' then Tabbed
    else if IsContent(TrimRight(s[n..k])) then Content(n, TrimRight(s[n..k]))
    else Empty
  }

  lemma CutOf(s: string, n: nat) returns (k: nat)
    requires n == SpacesAt(s, 0)
    ensures Cut(s, n, k) && n + CommentAt(s[n..], 0, Out) == k
  {
    k := CommentAt(s, 0, Out);
    OnlySpacesBefore(s, 0);
    CommentIsFirst(s, 0);
    SpacesSkipped(s, n, 0);
    CommentBehind(s, n, 0, Out);
  }

  /** A line is read as its indentation and its text up to the first comment. */
  lemma ReadUpToComment(s: string) returns (n: nat, k: nat)
    ensures Cut(s, n, k) && ReadRaw(s) == CutRead(s, n, k)
  {
    n := SpacesAt(s, 0);
    k := CutOf(s, n);
    assert s[n..][..k - n] == s[n..k];
  }

  // ---------------------------------------------------------------- more text behind a line

  lemma {:induction false} StateOfPrefix(s: string, more: string, i: nat)
    requires i <= |s|
    ensures QuoteState(s + more, i) == QuoteState(s, i)
  {
    if i > 0 { StateOfPrefix(s, more, i - 1); }
  }

  lemma StartsInPrefix(s: string, more: string, i: nat)
    requires i < |s|
    ensures StartsComment(s + more, i) <==> StartsComment(s, i)
  {
    StateOfPrefix(s, more, i);
  }

  lemma {:induction false} SpacesInPrefix(s: string, more: string, i: nat)
    requires i <= |s| && (SpacesAt(s, i) < |s| || more == [] || more[0] != ' ')
    ensures SpacesAt(s + more, i) == SpacesAt(s, i)
    decreases |s| - i
  {
    if i < |s| && s[i] == ' ' { SpacesInPrefix(s, more, i + 1); }
  }

  lemma {:induction false} AllSpaces(s: string, more: string, i: nat)
    requires i <= |s| && SpacesAt(s, i) == |s|
    ensures SpacesAt(s + more, i) == SpacesAt(s + more, |s|)
    decreases |s| - i
  {
    if i < |s| { AllSpaces(s, more, i + 1); }
  }

  /** The comment that is added starts where it was added, unless the line already had one. */
  lemma CommentAdded(s: string, b: char, rest: string, k: nat)
    requires IsBlank(b) && QuoteState(s, |s|) == Out && CommentFrom(s, k)
    ensures CommentFrom(s + [b, '#'] + rest, if k < |s| then k else |s| + 1)
  {
    var t := s + [b, '#'] + rest;
    assert t == s + ([b, '#'] + rest);
    forall i | 0 <= i < |s| ensures StartsComment(t, i) <==> StartsComment(s, i) {
      StartsInPrefix(s, [b, '#'] + rest, i);
    }
    StateOfPrefix(s, [b, '#'] + rest, |s|);
    assert t[|s|] == b && t[|s| + 1] == '#';
    assert QuoteState(t, |s| + 1) == Step(Out, b) == Out;
  }

  /**
   A comment behind a blank changes nothing about a line on which no quote is open. The one exception is a tab behind
   nothing but spaces, which is an indentation of its own.
   */
  lemma CommentIsDropped(s: string, b: char, rest: string)
    requires IsBlank(b) && QuoteState(s, |s|) == Out
    ensures ReadRaw(s + [b, '#'] + rest) == ReadRaw(s) <==> b == ' ' || SpacesAt(s, 0) < |s|
  {
    if SpacesAt(s, 0) < |s| {
      DroppedBehindText(s, b, rest, s + [b, '#'] + rest);
    } else {
      OnlySpacesLine(s, b, rest, s + [b, '#'] + rest);
    }
  }

  lemma DroppedBehindText(s: string, b: char, rest: string, t: string)
    requires IsBlank(b) && QuoteState(s, |s|) == Out && SpacesAt(s, 0) < |s| && t == s + [b, '#'] + rest
    ensures ReadRaw(t) == ReadRaw(s)
  {
    var n, k := ReadUpToComment(s);
    var l := CutBehind(s, b, rest, t, n, k);
    ReadAt(t, n, l);
    SameCut(s, b, t, n, k, l);
  }

  lemma CutBehind(s: string, b: char, rest: string, t: string, n: nat, k: nat) returns (l: nat)
    requires IsBlank(b) && QuoteState(s, |s|) == Out && t == s + [b, '#'] + rest
    requires n == SpacesAt(s, 0) < |s| && CommentFrom(s, k)
    ensures l == (if k < |s| then k else |s| + 1) && CommentFrom(t, l) && SpacesAt(t, 0) == n
    ensures |s| + 2 <= |t| && s + [b, '#'] == t[..|s| + 2]
  {
    l := if k < |s| then k else |s| + 1;
    CommentAdded(s, b, rest, k);
    assert t == s + ([b, '#'] + rest);
    SpacesInPrefix(s, [b, '#'] + rest, 0);
  }

  lemma ReadAt(s: string, n: nat, k: nat)
    requires CommentFrom(s, k) && n == SpacesAt(s, 0)
    ensures n <= k && ReadRaw(s) == CutRead(s, n, k)
  {
    var m, l := ReadUpToComment(s);
    CommentIsOne(s, k, l);
  }

  lemma SameCut(s: string, b: char, t: string, n: nat, k: nat, l: nat)
    requires IsBlank(b) && n < |s| && n <= k <= |s| && |s| + 2 <= |t| && s + [b, '#'] == t[..|s| + 2]
    requires l == if k < |s| then k else |s| + 1
    ensures CutRead(t, n, l) == CutRead(s, n, k)
  {
    assert forall i | 0 <= i < |s| + 2 :: t[i] == (s + [b, '#'])[i];
    if k < |s| {
      assert t[n..k] == s[n..k];
    } else {
      assert t[n..|s| + 1] == s[n..k] + [b];
      TrimmedOff(s[n..k], b);
    }
  }

  lemma OnlySpacesLine(s: string, b: char, rest: string, t: string)
    requires IsBlank(b) && SpacesAt(s, 0) == |s| && QuoteState(s, |s|) == Out && t == s + [b, '#'] + rest
    ensures ReadRaw(s) == Empty && ReadRaw(t) == if b == ' ' then Empty else Tabbed
  {
    SpacesAreEmpty(s);
    var m := SpacesBehind(s, b, rest, t);
    CommentAdded(s, b, rest, |s|);
    ReadAt(t, m, |s| + 1);
    NothingBefore(t, m, |s| + 1, b);
  }

  lemma SpacesAreEmpty(s: string)
    requires SpacesAt(s, 0) == |s|
    ensures ReadRaw(s) == Empty && CommentFrom(s, |s|)
  {
    var n, k := ReadUpToComment(s);
    assert s[n..k] == [];
  }

  lemma NothingBefore(t: string, m: nat, k: nat, b: char)
    requires m < |t| && k < |t| && t[k] == '#'
    requires if b == ' ' then m == k else b == '\t' && m + 1 == k && t[m] == b
    ensures CutRead(t, m, k) == if b == ' ' then Empty else Tabbed
  {
    if b == ' ' { assert t[m..k] == []; }
  }

  lemma SpacesBehind(s: string, b: char, rest: string, t: string) returns (m: nat)
    requires IsBlank(b) && SpacesAt(s, 0) == |s| && t == s + [b, '#'] + rest
    ensures m == SpacesAt(t, 0) == (if b == ' ' then |s| + 1 else |s|) && t[|s|] == b && t[|s| + 1] == '#'
  {
    assert t == s + ([b, '#'] + rest);
    AllSpaces(s, [b, '#'] + rest, 0);
    m := SpacesAt(t, |s|);
  }

  /** A `#` that starts no comment is content: the line's body goes on with it. */
  lemma OtherHashStays(s: string, rest: string)
    requires SpacesAt(s, 0) < |s| && s[SpacesAt(s, 0)] != '\t' && forall i | 0 <= i < |s| :: !StartsComment(s, i)
    requires QuoteState(s, |s|) != Out || !IsBlank(s[|s| - 1])
    ensures var n, r := SpacesAt(s, 0), ReadRaw(s + ['#'] + rest);
            r.Content? && r.indent == n && s[n..] + ['#'] <= r.body
  {
    var t := s + ['#'] + rest;
    var k := HashBehind(s, rest, t);
    ReadAt(t, SpacesAt(s, 0), k);
    HashInCut(s, t, SpacesAt(s, 0), k);
  }

  lemma HashBehind(s: string, rest: string, t: string) returns (k: nat)
    requires t == s + ['#'] + rest && SpacesAt(s, 0) < |s| && forall i | 0 <= i < |s| :: !StartsComment(s, i)
    requires QuoteState(s, |s|) != Out || !IsBlank(s[|s| - 1])
    ensures |s| < k && CommentFrom(t, k) && SpacesAt(t, 0) == SpacesAt(s, 0) && t[..|s| + 1] == s + ['#']
  {
    assert t == s + (['#'] + rest);
    SpacesInPrefix(s, ['#'] + rest, 0);
    NoCommentYet(s, rest, t);
    k := CommentBeyond(t, |s|);
  }

  lemma CommentBeyond(t: string, i: nat) returns (k: nat)
    requires i < |t| && forall j | 0 <= j <= i :: !StartsComment(t, j)
    ensures i < k && CommentFrom(t, k)
  {
    k := CommentAt(t, 0, Out);
    CommentIsFirst(t, 0);
  }

  lemma NoCommentYet(s: string, rest: string, t: string)
    requires s != [] && t == s + (['#'] + rest) && forall i | 0 <= i < |s| :: !StartsComment(s, i)
    requires QuoteState(s, |s|) != Out || !IsBlank(s[|s| - 1])
    ensures forall i | 0 <= i <= |s| :: !StartsComment(t, i)
  {
    StateOfPrefix(s, ['#'] + rest, |s|);
    assert t[|s| - 1] == s[|s| - 1];
    forall i | 0 <= i <= |s| ensures !StartsComment(t, i) {
      if i < |s| { StartsInPrefix(s, ['#'] + rest, i); }
    }
  }

  lemma HashInCut(s: string, t: string, n: nat, k: nat)
    requires n < |s| < k <= |t| && s + ['#'] == t[..|s| + 1] && s[n] != '\t'
    ensures var r := CutRead(t, n, k); r.Content? && r.indent == n && s[n..] + ['#'] <= r.body
  {
    assert forall i | 0 <= i < |s| + 1 :: t[i] == (s + ['#'])[i];
    HashIsKept(t[n..k], |s| - n);
    assert t[n..k][..|s| - n + 1] == s[n..] + ['#'];
  }

  lemma HashIsKept(u: string, i: nat)
    requires i < |u| && u[i] == '#'
    ensures |TrimRight(u)| > i && TrimRight(u)[..i + 1] == u[..i + 1] && IsContent(TrimRight(u))
  {
    var b := TrimRightIs(u);
    assert b > i;
    assert TrimRight(u)[i] == '#';
  }

  // ---------------------------------------------------------------- trailing space

  lemma CutBeforeTrailing(s: string, b: char, k: nat)
    requires IsTrailing(b) && CommentFrom(s, k)
    ensures CommentFrom(s + [b], if k < |s| then k else |s| + 1)
  {
    forall i | 0 <= i < |s| ensures StartsComment(s + [b], i) <==> StartsComment(s, i) { StartsInPrefix(s, [b], i); }
  }

  lemma TrailingCut(s: string, b: char, n: nat, k: nat)
    requires IsTrailing(b) && n < |s| && n <= k <= |s|
    ensures CutRead(s + [b], n, if k < |s| then k else |s| + 1) == CutRead(s, n, k)
  {
    var t := s + [b];
    if k < |s| {
      assert t[n..k] == s[n..k];
    } else {
      assert t[n..|s| + 1] == s[n..k] + [b];
      TrimmedOff(s[n..k], b);
    }
  }

  lemma TrimmedOff(s: string, b: char)
    requires IsTrailing(b)
    ensures TrimRight(s + [b]) == TrimRight(s)
  {
    assert (s + [b])[..|s|] == s;
  }

  /** A carriage return at the end of a line changes nothing. */
  lemma ReturnIsDropped(s: string)
    ensures ReadRaw(s + ['\r']) == ReadRaw(s)
  {
    if SpacesAt(s, 0) < |s| {
      var n, k := ReadUpToComment(s);
      CutBeforeTrailing(s, '\r', k);
      SpacesInPrefix(s, ['\r'], 0);
      ReadAt(s + ['\r'], n, if k < |s| then k else |s| + 1);
      TrailingCut(s, '\r', n, k);
    } else {
      LoneReturn(s);
    }
  }

  lemma LoneReturn(s: string)
    requires SpacesAt(s, 0) == |s|
    ensures ReadRaw(s + ['\r']) == Empty == ReadRaw(s)
  {
    SpacesAreEmpty(s);
    SpacesInPrefix(s, ['\r'], 0);
    CutBeforeTrailing(s, '\r', |s|);
    ReadAt(s + ['\r'], |s|, |s| + 1);
    assert (s + ['\r'])[|s|..|s| + 1] == [] + ['\r'];
    TrimmedOff([], '\r');
  }

  function WithReturn(line: string): string { line + ['\r'] }

  /** A text whose lines end in carriage return and line break is parsed as the text without the carriage returns. */
  lemma ReturnsChangeNothing(text: string, lines: seq<string>)
    requires |lines| == |RawLines(text)| && forall i | 0 <= i < |lines| :: lines[i] == WithReturn(RawLines(text)[i])
    ensures lines != [] && Parse(Join(lines, '\n')) == Parse(text)
  {
    var raws := RawLines(text);
    JoinOfRawLines(text);
    forall i | 0 <= i < |raws| ensures ReadRaw(lines[i]) == ReadRaw(raws[i]) && Without(lines[i], '\n') {
      ReturnIsDropped(raws[i]);
    }
    assert ReadAll(lines) == ReadAll(raws);
    SameReadings(lines, raws);
  }

  // ---------------------------------------------------------------- comments anywhere in a text

  /** The line, or the line with a comment behind it. */
  ghost predicate Commented(line: string, s: string) {
    || line == s
    || exists b: char, rest: string ::
         && line == s + [b, '#'] + rest && Without(rest, '\n') && QuoteState(s, |s|) == Out
         && (b == ' ' || (b == '\t' && SpacesAt(s, 0) < |s|))
  }

  lemma CommentedReads(line: string, s: string)
    requires Commented(line, s) && Without(s, '\n')
    ensures ReadRaw(line) == ReadRaw(s) && Without(line, '\n')
  {
    if line != s {
      var b: char, rest: string :| line == s + [b, '#'] + rest && Without(rest, '\n') && QuoteState(s, |s|) == Out
        && (b == ' ' || (b == '\t' && SpacesAt(s, 0) < |s|));
      CommentIsDropped(s, b, rest);
    }
  }

  /** Whatever the text, comments behind any of its lines change nothing about what it is parsed as. */
  lemma CommentsChangeNothing(text: string, lines: seq<string>)
    requires |lines| == |RawLines(text)| && forall i | 0 <= i < |lines| :: Commented(lines[i], RawLines(text)[i])
    ensures lines != [] && Parse(Join(lines, '\n')) == Parse(text)
  {
    var raws := RawLines(text);
    JoinOfRawLines(text);
    forall i | 0 <= i < |raws| ensures ReadRaw(lines[i]) == ReadRaw(raws[i]) && Without(lines[i], '\n') {
      CommentedReads(lines[i], raws[i]);
    }
    assert ReadAll(lines) == ReadAll(raws);
    SameReadings(lines, raws);
  }

  /** A whole line of comment, indented or not, is no content. */
  lemma CommentLineIsEmpty(s: string, rest: string)
    requires SpacesAt(s, 0) == |s|
    ensures ReadRaw(s + ['#'] + rest) == Empty
  {
    var t := s + ['#'] + rest;
    assert t == s + (['#'] + rest) && t[|s|] == '#';
    SpacesInPrefix(s, ['#'] + rest, 0);
    assert t[|s|..][0] == '#';
  }
}
