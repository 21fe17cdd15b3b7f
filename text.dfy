/** The JavaScript string operations the adapters rely on: `split` on a
    string separator, `join`, `indexOf`, `slice(0, n)` and ASCII
    `toLowerCase`. */
module Text {

  import opened Common

  /** `sep` occurs in `s` starting at index `i`. */
  ghost predicate OccursAt(s: string, sep: string, i: nat)
  {
    i + |sep| <= |s| && s[i..i + |sep|] == sep
  }

  /** `sep` occurs nowhere in `s`. */
  ghost predicate Free(s: string, sep: string)
  {
    forall i: nat :: !OccursAt(s, sep, i)
  }

  /** `s.indexOf(sep)`: the leftmost occurrence of `sep` in `s`, if any. */
  function Find(s: string, sep: string): (r: Option<nat>)
    requires sep != []
    ensures r.None? ==> Free(s, sep)
    ensures r.Some? ==> OccursAt(s, sep, r.value) && forall i: nat :: i < r.value ==> !OccursAt(s, sep, i)
    decreases |s|
  {
    if |s| < |sep| then None
    else if s[..|sep|] == sep then Some(0)
    else
      var rest := Find(s[1..], sep);
      OccursInTail(s, sep);
      if rest.None? then None else Some(rest.value + 1)
  }

  /** An occurrence past the first character is an occurrence in the tail. */
  lemma OccursInTail(s: string, sep: string)
    requires s != []
    ensures forall i: nat :: 1 <= i ==> OccursAt(s, sep, i) == OccursAt(s[1..], sep, i - 1)
  {
    forall i: nat | 1 <= i ensures OccursAt(s, sep, i) == OccursAt(s[1..], sep, i - 1) {
      if i + |sep| <= |s| {
        assert s[1..][i - 1..i - 1 + |sep|] == s[i..i + |sep|];
      }
    }
  }

  /** `s.split(sep)` for a non-empty separator: the text before the first
      occurrence of `sep`, then the split of what follows that occurrence;
      without an occurrence, `s` itself. */
  function SplitOn(s: string, sep: string): (pieces: seq<string>)
    requires sep != []
    ensures |pieces| >= 1
    decreases |s|
  {
    match Find(s, sep)
    case None => [s]
    case Some(i) => [s[..i]] + SplitOn(s[i + |sep|..], sep)
  }

  /** `pieces.join(sep)`. */
  function JoinOn(pieces: seq<string>, sep: string): string
  {
    if pieces == [] then ""
    else if |pieces| == 1 then pieces[0]
    else pieces[0] + sep + JoinOn(pieces[1..], sep)
  }

  /** Number of occurrences of the character `c` in `s`. */
  function Occurrences(s: string, c: char): nat
  {
    if s == [] then 0 else (if s[0] == c then 1 else 0) + Occurrences(s[1..], c)
  }

  /** Joining the pieces of a split with the same separator gives back the string. */
  lemma {:induction false} JoinSplitOn(s: string, sep: string)
    requires sep != []
    ensures JoinOn(SplitOn(s, sep), sep) == s
    decreases |s|
  {
    match Find(s, sep)
    case None =>
    case Some(i) =>
      var tail := s[i + |sep|..];
      var rest := SplitOn(tail, sep);
      JoinSplitOn(tail, sep);
      var pieces := [s[..i]] + rest;
      assert pieces[0] == s[..i] && pieces[1..] == rest;
      assert JoinOn(pieces, sep) == s[..i] + sep + JoinOn(rest, sep);
      assert s == s[..i] + s[i..i + |sep|] + tail;
  }

  /** The second piece of a split runs from the end of the first occurrence
      of the separator to the start of the next one. */
  lemma SecondPieceBetween(s: string, sep: string, i: nat, d: nat)
    requires sep != []
    requires Find(s, sep) == Some(i)
    requires Find(s[i + |sep|..], sep) == Some(d)
    ensures i + |sep| + d <= |s|
    ensures |SplitOn(s, sep)| > 1 && SplitOn(s, sep)[1] == s[i + |sep|..i + |sep| + d]
  {
    var rest := s[i + |sep|..];
    assert SplitOn(s, sep) == [s[..i]] + SplitOn(rest, sep);
    assert SplitOn(rest, sep)[0] == rest[..d];
    assert rest[..d] == s[i + |sep|..i + |sep| + d];
  }

  /** Without a second occurrence, the second piece of a split is all that
      follows the first occurrence. */
  lemma SecondPieceToEnd(s: string, sep: string, i: nat)
    requires sep != []
    requires Find(s, sep) == Some(i)
    requires Find(s[i + |sep|..], sep).None?
    ensures i + |sep| <= |s|
    ensures SplitOn(s, sep) == [s[..i], s[i + |sep|..]]
  {
    var rest := s[i + |sep|..];
    assert SplitOn(s, sep) == [s[..i]] + SplitOn(rest, sep);
    assert SplitOn(rest, sep) == [rest];
  }

  /** A character that does not occur in `part` is found in `part + rest`
      exactly where it is found in `rest`, shifted past `part`. */
  lemma {:induction false} FindPastFree(part: string, rest: string, c: char)
    requires c !in part
    ensures Find(part + rest, [c]) == match Find(rest, [c]) case None => None case Some(j) => Some(|part| + j)
    decreases |part|
  {
    if part == [] {
      assert part + rest == rest;
    } else {
      FindPastFree(part[1..], rest, c);
      var s := part + rest;
      assert s[..1] == [part[0]];
      assert s[1..] == part[1..] + rest;
    }
  }

  /** Text without the separator character is a split of one piece. */
  lemma SplitFree(part: string, c: char)
    requires c !in part
    ensures SplitOn(part, [c]) == [part]
  {
    FindPastFree(part, [], c);
    assert part + [] == part;
  }

  /** Text without the separator character, then the separator, splits off as
      the first piece. */
  lemma SplitAfterFree(part: string, c: char, rest: string)
    requires c !in part
    ensures SplitOn(part + ([c] + rest), [c]) == [part] + SplitOn(rest, [c])
  {
    var s := part + ([c] + rest);
    FindPastFree(part, [c] + rest, c);
    assert ([c] + rest)[..1] == [c];
    assert s[..|part|] == part;
    assert s[|part| + 1..] == rest;
  }

  /** Two texts without the separator character, joined by it, split back into the two. */
  lemma SplitPair(a: string, c: char, b: string)
    requires c !in a && c !in b
    ensures SplitOn(a + ([c] + b), [c]) == [a, b]
  {
    SplitFree(b, c);
    SplitAfterFree(a, c, b);
  }

  /** No piece of a split on a one-character separator contains that character. */
  lemma {:induction false} PiecesAvoidSeparator(s: string, c: char)
    ensures forall p :: p in SplitOn(s, [c]) ==> c !in p
    decreases |s|
  {
    match Find(s, [c])
    case None =>
      forall j | 0 <= j < |s| ensures s[j] != c {
        assert !OccursAt(s, [c], j);
      }
    case Some(i) =>
      forall j | 0 <= j < i ensures s[j] != c {
        assert !OccursAt(s, [c], j);
      }
      PiecesAvoidSeparator(s[i + 1..], c);
  }

  /** Occurrences add up over a concatenation. */
  lemma {:induction false} OccurrencesConcat(a: string, b: string, c: char)
    ensures Occurrences(a + b, c) == Occurrences(a, c) + Occurrences(b, c)
    decreases |a|
  {
    if a == [] {
      assert a + b == b;
    } else {
      OccurrencesConcat(a[1..], b, c);
      assert (a + b)[1..] == a[1..] + b;
    }
  }

  /** A string without the character has no occurrences of it. */
  lemma {:induction false} OccurrencesAbsent(s: string, c: char)
    requires c !in s
    ensures Occurrences(s, c) == 0
    decreases |s|
  {
    if s != [] {
      OccurrencesAbsent(s[1..], c);
    }
  }

  /** A split on a one-character separator has one piece more than the
      separator has occurrences. */
  lemma {:induction false} SplitCount(s: string, c: char)
    ensures |SplitOn(s, [c])| == Occurrences(s, c) + 1
    decreases |s|
  {
    PiecesAvoidSeparator(s, c);
    match Find(s, [c])
    case None =>
      assert s in SplitOn(s, [c]);
      OccurrencesAbsent(s, c);
    case Some(i) =>
      var tail := s[i + 1..];
      SplitCount(tail, c);
      assert s[..i] in SplitOn(s, [c]);
      OccurrencesAbsent(s[..i], c);
      assert s == s[..i] + ([c] + tail);
      OccurrencesConcat(s[..i], [c] + tail, c);
  }

  /** `s.slice(0, n)`: the first `n` characters, or all of `s` when it is shorter. */
  function Prefix(s: string, n: nat): (r: string)
    ensures |r| == if |s| < n then |s| else n
    ensures r <= s
  {
    if |s| < n then s else s[..n]
  }

  predicate IsUpperAscii(c: char)
  {
    'A' <= c <= 'Z'
  }

  /** ASCII `toLowerCase` of one character. */
  function LowerChar(c: char): (d: char)
    ensures !IsUpperAscii(d)
    ensures !IsUpperAscii(c) ==> d == c
  {
    if IsUpperAscii(c) then (c as int - 'A' as int + 'a' as int) as char else c
  }

  /** ASCII `toLowerCase`: every upper-case letter replaced by its lower-case
      letter, every other character kept, the length unchanged. */
  function ToLower(s: string): (r: string)
    ensures |r| == |s|
    ensures forall i :: 0 <= i < |s| ==> r[i] == LowerChar(s[i])
  {
    if s == [] then [] else [LowerChar(s[0])] + ToLower(s[1..])
  }

  /** Lower-casing leaves no upper-case letter and is idempotent. */
  lemma ToLowerIsLower(s: string)
    ensures forall i :: 0 <= i < |ToLower(s)| ==> !IsUpperAscii(ToLower(s)[i])
    ensures ToLower(ToLower(s)) == ToLower(s)
  {
  }
}
