/** Python's `str.strip()`. */
module Text {

  predicate IsSpace(c: char)
  {
    var n := c as int;
    || 9 <= n <= 13 || 28 <= n <= 32 || n == 133 || n == 160 || n == 5760
    || 8192 <= n <= 8202 || n == 8232 || n == 8233 || n == 8239 || n == 8287 || n == 12288
  }

  /** The spaces one by one: controls, blanks, the no-break space, and the separators of the general punctuation. */
  lemma SpacesAre(c: char)
    ensures IsSpace(c) <==> c in {
      '\t', '\n', '\U{b}', '\U{c}', '\r', '\U{1c}', '\U{1d}', '\U{1e}', '\U{1f}', ' ', '\U{85}', '\U{a0}', '\U{1680}',
      '\U{2000}', '\U{2001}', '\U{2002}', '\U{2003}', '\U{2004}', '\U{2005}', '\U{2006}', '\U{2007}', '\U{2008}',
      '\U{2009}', '\U{200a}', '\U{2028}', '\U{2029}', '\U{202f}', '\U{205f}', '\U{3000}'}
  {
  }

  function StripLeft(s: string): string
  {
    if s != [] && IsSpace(s[0]) then StripLeft(s[1..]) else s
  }

  function StripRight(s: string): string
  {
    if s != [] && IsSpace(s[|s| - 1]) then StripRight(s[..|s| - 1]) else s
  }

  function Strip(s: string): string
  {
    StripRight(StripLeft(s))
  }

  ghost predicate Trimmed(s: string)
  {
    s != [] ==> !IsSpace(s[0]) && !IsSpace(s[|s| - 1])
  }

  lemma {:induction false} LeftTrimmed(s: string)
    ensures StripLeft(s) != [] ==> !IsSpace(StripLeft(s)[0])
  {
    if s != [] && IsSpace(s[0]) {
      LeftTrimmed(s[1..]);
    }
  }

  lemma {:induction false} RightTrimmed(s: string)
    requires s != [] ==> !IsSpace(s[0])
    ensures Trimmed(StripRight(s))
    decreases |s|
  {
    if s != [] && IsSpace(s[|s| - 1]) {
      RightTrimmed(s[..|s| - 1]);
    }
  }

  /** Stripping leaves no space at either end, and a text without one alone. */
  lemma StripIdempotent(s: string)
    ensures Trimmed(Strip(s)) && Strip(Strip(s)) == Strip(s)
  {
    LeftTrimmed(s);
    RightTrimmed(StripLeft(s));
  }

  predicate AllSpaces(s: string)
  {
    forall c :: c in s ==> IsSpace(c)
  }

  lemma {:induction false} LeftRemovesSpaces(s: string) returns (gone: string)
    ensures s == gone + StripLeft(s) && AllSpaces(gone)
  {
    if s != [] && IsSpace(s[0]) {
      var more := LeftRemovesSpaces(s[1..]);
      gone := [s[0]] + more;
    } else {
      gone := [];
    }
  }

  lemma {:induction false} RightRemovesSpaces(s: string) returns (gone: string)
    ensures s == StripRight(s) + gone && AllSpaces(gone)
    decreases |s|
  {
    if s != [] && IsSpace(s[|s| - 1]) {
      var more := RightRemovesSpaces(s[..|s| - 1]);
      gone := more + [s[|s| - 1]];
      assert s == s[..|s| - 1] + [s[|s| - 1]];
    } else {
      gone := [];
    }
  }

  /** Stripping removes spaces at the two ends and nothing else. */
  lemma StripRemovesOnlySpaces(s: string) returns (left: string, right: string)
    ensures s == left + Strip(s) + right && AllSpaces(left) && AllSpaces(right)
  {
    left := LeftRemovesSpaces(s);
    right := RightRemovesSpaces(StripLeft(s));
  }
}
