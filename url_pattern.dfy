/** The part of the `url-pattern` library's matching that the adapters'
    patterns use: literal text, optional named segments `(:name)` and a
    trailing wildcard `*`, matched against the whole URL. */
module UrlPattern {

  import opened Common

  /** The characters a named segment matches by default: `a-zA-Z0-9-_~ %`. */
  predicate IsValueChar(c: char)
  {
    || 'a' <= c <= 'z'
    || 'A' <= c <= 'Z'
    || '0' <= c <= '9'
    || c == '-' || c == '_' || c == '~' || c == ' ' || c == '%'
  }

  /** A non-empty run of value characters: what a named segment can capture. */
  predicate IsSegmentValue(s: string)
  {
    s != [] && forall i :: 0 <= i < |s| ==> IsValueChar(s[i])
  }

  /** What an optional named segment yields: nothing, or a segment value. */
  predicate IsCapture(o: Option<string>)
  {
    o.None? || IsSegmentValue(o.value)
  }

  /** Text that cannot extend a capture in front of it: a greedy capture ends here. */
  predicate StopsCapture(s: string)
  {
    s == [] || !IsValueChar(s[0])
  }

  /** A JavaScript line terminator: `.` in a regular expression does not match it. */
  predicate IsLineTerminator(c: char)
  {
    c == '\n' || c == '\r' || c == '\U{2028}' || c == '\U{2029}'
  }

  /** Text without a line terminator: what the wildcard `*`, compiled to
      `(.*?)` inside `^...$`, can match. */
  predicate LineFree(s: string)
  {
    forall i :: 0 <= i < |s| ==> !IsLineTerminator(s[i])
  }

  /** Text without line terminators, put together, has none. */
  lemma LineFreeConcat(a: string, b: string)
    requires LineFree(a) && LineFree(b)
    ensures LineFree(a + b)
  {
    forall i | 0 <= i < |a + b| ensures !IsLineTerminator((a + b)[i]) {
      if i >= |a| {
        assert (a + b)[i] == b[i - |a|];
      }
    }
  }

  /** What a named segment captures has no line terminator. */
  lemma CaptureIsLineFree(o: Option<string>)
    requires IsCapture(o)
    ensures LineFree(TextOf(o))
  {
    if o.Some? {
      forall i | 0 <= i < |o.value| ensures !IsLineTerminator(o.value[i]) {
        assert IsValueChar(o.value[i]);
      }
    }
  }

  /** Length of the longest run of value characters at the front of `s`. */
  function ValueRun(s: string): (n: nat)
    ensures n <= |s|
    ensures forall i :: 0 <= i < n ==> IsValueChar(s[i])
    ensures StopsCapture(s[n..])
  {
    if s == [] || !IsValueChar(s[0]) then 0 else 1 + ValueRun(s[1..])
  }

  /** `(:name)` at the front of `s`, matched greedily: the capture (absent when
      no value character is there) and the text that follows it. */
  function OptionalSegment(s: string): (r: (Option<string>, string))
    ensures IsCapture(r.0) && StopsCapture(r.1)
    ensures s == TextOf(r.0) + r.1
  {
    var n := ValueRun(s);
    if n == 0 then (None, s) else (Some(s[..n]), s[n..])
  }

  /** The capture is determined by the text: a capture followed by text that
      stops it is exactly what `OptionalSegment` finds. */
  lemma OptionalSegmentOf(o: Option<string>, rest: string)
    requires IsCapture(o) && StopsCapture(rest)
    ensures OptionalSegment(TextOf(o) + rest) == (o, rest)
  {
    var text := TextOf(o);
    var s := text + rest;
    assert s[..|text|] == text && s[|text|..] == rest;
  }

  /** Literal text at the front of `s`: what follows it, or nothing when `s`
      does not start with it. */
  function Strip(lit: string, s: string): (r: Option<string>)
    ensures r.Some? <==> lit <= s
    ensures r.Some? ==> s == lit + r.value
  {
    if lit <= s then Some(s[|lit|..]) else None
  }

  /** Stripping a literal from text that starts with it leaves what follows. */
  lemma StripFront(lit: string, rest: string)
    ensures Strip(lit, lit + rest) == Some(rest)
  {
    assert (lit + rest)[|lit|..] == rest;
  }
}
