/** The two string-trimming operations of Python's `str` that the core uses:
    `rstrip(chars)` and `strip()` with no argument. */
module Text {

  /** `s.rstrip(drop)`: s without its longest suffix made only of characters in drop.
      The three ensures determine the result uniquely. */
  function TrimEnd(s: string, drop: set<char>): (r: string)
    ensures r <= s
    ensures r == [] || r[|r| - 1] !in drop
    ensures forall i | |r| <= i < |s| :: s[i] in drop
    decreases |s|
  {
    if |s| > 0 && s[|s| - 1] in drop then TrimEnd(s[..|s| - 1], drop) else s
  }

  /** `s.lstrip(drop)`: s without its longest prefix made only of characters in drop. */
  function TrimStart(s: string, drop: set<char>): (r: string)
    ensures |r| <= |s| && r == s[|s| - |r|..]
    ensures r == [] || r[0] !in drop
    ensures forall i | 0 <= i < |s| - |r| :: s[i] in drop
    decreases |s|
  {
    if |s| > 0 && s[0] in drop then TrimStart(s[1..], drop) else s
  }

  /** The characters Python's `str.isspace` accepts, which `strip()` removes. */
  const Whitespace: set<char> := {
    '\t', '\n', '\U{000B}', '\U{000C}', '\r',
    '\U{001C}', '\U{001D}', '\U{001E}', '\U{001F}', ' ',
    '\U{0085}', '\U{00A0}', '\U{1680}',
    '\U{2000}', '\U{2001}', '\U{2002}', '\U{2003}', '\U{2004}', '\U{2005}',
    '\U{2006}', '\U{2007}', '\U{2008}', '\U{2009}', '\U{200A}',
    '\U{2028}', '\U{2029}', '\U{202F}', '\U{205F}', '\U{3000}'
  }

  /** `s.strip(drop)`: s without its leading and trailing characters in drop.
      The result is a slice of s with only characters of drop outside it. */
  function StripChars(s: string, drop: set<char>): (r: string)
    ensures r == [] || (r[0] !in drop && r[|r| - 1] !in drop)
    ensures |r| <= |s|
    ensures exists start | 0 <= start <= |s| - |r| :: IsSliceWithMargins(s, start, r, drop)
  {
    var t := TrimEnd(s, drop);
    var r := TrimStart(t, drop);
    var start := |t| - |r|;
    assert t == s[..|t|];
    assert r == s[start..start + |r|];
    assert forall k | 0 <= k < start :: s[k] == t[k];
    assert IsSliceWithMargins(s, start, r, drop);
    r
  }

  /** r is s[start..start + |r|], and everything of s outside that slice is in drop. */
  ghost predicate IsSliceWithMargins(s: string, start: int, r: string, drop: set<char>) {
    && 0 <= start <= start + |r| <= |s|
    && r == s[start..start + |r|]
    && (forall k | 0 <= k < start :: s[k] in drop)
    && (forall k | start + |r| <= k < |s| :: s[k] in drop)
  }

  /** `s.strip()`: s without leading and trailing whitespace. */
  function Strip(s: string): (r: string)
    ensures r == [] || (r[0] !in Whitespace && r[|r| - 1] !in Whitespace)
    ensures |r| <= |s|
    ensures exists start | 0 <= start <= |s| - |r| :: IsSliceWithMargins(s, start, r, Whitespace)
  {
    StripChars(s, Whitespace)
  }

  /** Stripping adds no character: what s lacks, its stripped form lacks. */
  lemma StripAddsNothing(s: string, drop: set<char>, c: char)
    requires c !in s
    ensures c !in StripChars(s, drop)
  {
    var r := StripChars(s, drop);
    var start :| 0 <= start <= |s| - |r| && IsSliceWithMargins(s, start, r, drop);
    forall i | 0 <= i < |r| ensures r[i] != c {
      assert r[i] == s[start + i];
    }
  }
}
