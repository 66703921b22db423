/**
  The few pieces of Python string behaviour the parser relies on: slicing
  with clamped bounds, `str.startswith`, `sep.join(parts)` and the class of
  characters matched by the regular-expression escape `\s`.
*/
module Text {

  /** `s[:n]`: the first n characters, or all of s when it is shorter. */
  function Take(s: string, n: nat): string {
    if n <= |s| then s[..n] else s
  }

  /** `s[n:]`: what follows the first n characters, or "" when s is shorter. */
  function Drop(s: string, n: nat): string {
    if n <= |s| then s[n..] else ""
  }

  /** `s[i:j]` for non-negative bounds: both are clamped to |s|, and i >= j gives "". */
  function Slice(s: string, i: nat, j: nat): string {
    if i < j && i < |s| then s[i..if j <= |s| then j else |s|] else ""
  }

  /** `sep.join(parts)` */
  function Join(parts: seq<string>, sep: string): string
    decreases |parts|
  {
    if |parts| == 0 then ""
    else if |parts| == 1 then parts[0]
    else parts[0] + sep + Join(parts[1..], sep)
  }

  lemma {:induction false} JoinSnoc(parts: seq<string>, last: string, sep: string)
    requires parts != []
    ensures Join(parts + [last], sep) == Join(parts, sep) + sep + last
    decreases |parts|
  {
    if |parts| == 1 {
      assert parts + [last] == [parts[0], last];
    } else {
      assert (parts + [last])[1..] == parts[1..] + [last];
      JoinSnoc(parts[1..], last, sep);
    }
  }

  /**
    The characters `\s` matches in a pattern over `str`: those for which
    Python's `str.isspace()` holds.
  */
  predicate IsSpace(c: char) {
    || ('\t' <= c <= '\r')
    || ('\U{1C}' <= c <= '\U{1F}')
    || c == ' '
    || c == '\U{85}'
    || c == '\U{A0}'
    || c == '\U{1680}'
    || ('\U{2000}' <= c <= '\U{200A}')
    || c == '\U{2028}'
    || c == '\U{2029}'
    || c == '\U{202F}'
    || c == '\U{205F}'
    || c == '\U{3000}'
  }
}
