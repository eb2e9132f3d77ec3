/** Text shared by the file formats: searching for a character, and pieces joined by a separator. */
module Text {

  /** The first `c` at or after `start`, or the length. */
  function Find(s: string, c: char, start: nat): (i: nat)
    requires start <= |s|
    ensures start <= i <= |s| && (i < |s| ==> s[i] == c) && forall k | start <= k < i :: s[k] != c
    decreases |s| - start
  {
    if start == |s| || s[start] == c then start else Find(s, c, start + 1)
  }

  predicate Without(s: string, c: char) { forall k | 0 <= k < |s| :: s[k] != c }

  function Join(pieces: seq<string>, sep: char): string
    requires pieces != []
  {
    if |pieces| == 1 then pieces[0] else pieces[0] + [sep] + Join(pieces[1..], sep)
  }

  /** The pieces lie in the text one after another from `start` to its end, a separator between each two. */
  ghost predicate LiesAt(text: string, start: nat, pieces: seq<string>, sep: char)
    requires pieces != []
    decreases |pieces|
  {
    var end := start + |pieces[0]|;
    if |pieces| == 1 then end == |text| && text[start..end] == pieces[0]
    else end < |text| && text[start..end] == pieces[0] && text[end] == sep && LiesAt(text, end + 1, pieces[1..], sep)
  }

  lemma {:induction false} JoinLies(before: string, pieces: seq<string>, sep: char)
    requires pieces != []
    ensures LiesAt(before + Join(pieces, sep), |before|, pieces, sep)
    decreases |pieces|
  {
    if |pieces| > 1 {
      var p, rest := pieces[0], Join(pieces[1..], sep);
      JoinLies(before + p + [sep], pieces[1..], sep);
      assert before + Join(pieces, sep) == before + p + [sep] + rest;
    }
  }

  /** A piece without the separator ends where the next separator, or the text, does. */
  lemma FindAt(text: string, start: nat, piece: string, sep: char)
    requires start + |piece| <= |text| && Without(piece, sep) && text[start..start + |piece|] == piece
    requires start + |piece| < |text| ==> text[start + |piece|] == sep
    ensures Find(text, sep, start) == start + |piece|
  {
    assert forall k | start <= k < start + |piece| :: text[k] == piece[k - start];
  }
}
