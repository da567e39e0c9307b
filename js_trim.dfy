/** `String.prototype.trim` of ECMAScript (TrimString, section 22.1.3.32 of
    ECMA-262): the string without its leading and trailing run of characters
    that are WhiteSpace or LineTerminator code points. Nothing inside the
    string is touched. */
module JsTrim {

  /** The WhiteSpace (section 12.2) and LineTerminator (section 12.3) code
      points of ECMA-262: tab, vertical tab, form feed, space, no-break space,
      byte order mark, the other space separators of Unicode category Zs,
      line feed, carriage return, line separator and paragraph separator. */
  predicate IsWhitespace(c: char) {
    var n := c as int;
    n == 0x09 || n == 0x0B || n == 0x0C || n == 0x20 || n == 0xA0 || n == 0xFEFF
    || n == 0x1680 || (0x2000 <= n <= 0x200A) || n == 0x202F || n == 0x205F || n == 0x3000
    || n == 0x0A || n == 0x0D || n == 0x2028 || n == 0x2029
  }

  /** Spot checks of the set: the usual blanks and breaks are in it; NEXT
      LINE (U+0085) and MONGOLIAN VOWEL SEPARATOR (U+180E), which are not
      WhiteSpace in ECMA-262, and the first character of the config are
      not. */
  lemma WhitespaceSamples()
    ensures IsWhitespace(' ') && IsWhitespace('\t') && IsWhitespace('\n') && IsWhitespace('\r')
    ensures IsWhitespace(0xA0 as char) && IsWhitespace(0xFEFF as char) && IsWhitespace(0x3000 as char)
    ensures !IsWhitespace(0x85 as char) && !IsWhitespace(0x180E as char) && !IsWhitespace('[')
  {
  }

  predicate AllWhitespace(s: string) {
    forall i :: 0 <= i < |s| ==> IsWhitespace(s[i])
  }

  /** `s` without its leading whitespace. */
  function TrimStart(s: string): string
    decreases |s|
  {
    if |s| > 0 && IsWhitespace(s[0]) then TrimStart(s[1..]) else s
  }

  /** `s` without its trailing whitespace. */
  function TrimEnd(s: string): string
    decreases |s|
  {
    if |s| > 0 && IsWhitespace(s[|s| - 1]) then TrimEnd(s[..|s| - 1]) else s
  }

  /** TrimStart(s) is a suffix of `s` that starts with a non-whitespace
      character unless it is empty, and what it drops is all whitespace. */
  lemma {:induction false} TrimStartSpec(s: string)
    ensures var r := TrimStart(s);
            |r| <= |s| && r == s[|s| - |r|..] && AllWhitespace(s[..|s| - |r|]) &&
            (r == [] || !IsWhitespace(r[0]))
    decreases |s|
  {
    if |s| > 0 && IsWhitespace(s[0]) {
      TrimStartSpec(s[1..]);
      var r := TrimStart(s[1..]);
      assert s[..|s| - |r|] == [s[0]] + s[1..][..|s| - 1 - |r|];
    }
  }

  /** TrimEnd(s) is a prefix of `s` that ends with a non-whitespace
      character unless it is empty, and what it drops is all whitespace. */
  lemma {:induction false} TrimEndSpec(s: string)
    ensures var r := TrimEnd(s);
            |r| <= |s| && r == s[..|r|] && AllWhitespace(s[|r|..]) &&
            (r == [] || !IsWhitespace(r[|r| - 1]))
    decreases |s|
  {
    if |s| > 0 && IsWhitespace(s[|s| - 1]) {
      TrimEndSpec(s[..|s| - 1]);
      var r := TrimEnd(s[..|s| - 1]);
      assert s[|r|..] == s[..|s| - 1][|r|..] + [s[|s| - 1]];
    }
  }

  /** `s.trim()`: TrimUnique, TrimDecomposes and TrimEndsNonWhitespace
      characterize it without reference to this definition. */
  function Trim(s: string): string {
    TrimEnd(TrimStart(s))
  }

  /** Two whitespace runs make one. */
  lemma AllWhitespaceConcat(a: string, b: string)
    requires AllWhitespace(a) && AllWhitespace(b)
    ensures AllWhitespace(a + b)
  {
    forall i | 0 <= i < |a + b|
      ensures IsWhitespace((a + b)[i])
    {
      if i >= |a| {
        assert (a + b)[i] == b[i - |a|];
      }
    }
  }

  /** Dropping leading whitespace in front of a non-whitespace character. */
  lemma {:induction false} TrimStartAfterWhitespace(p: string, m: string)
    requires AllWhitespace(p) && m != [] && !IsWhitespace(m[0])
    ensures TrimStart(p + m) == m
    decreases |p|
  {
    if p != [] {
      assert (p + m)[1..] == p[1..] + m;
      TrimStartAfterWhitespace(p[1..], m);
    }
  }

  /** Trailing whitespace is dropped whatever stands before it. */
  lemma {:induction false} TrimEndBeforeWhitespace(m: string, q: string)
    requires AllWhitespace(q)
    ensures TrimEnd(m + q) == TrimEnd(m)
    decreases |q|
  {
    if q == [] {
      assert m + q == m;
    } else {
      assert (m + q)[|m + q| - 1] == q[|q| - 1];
      assert (m + q)[..|m + q| - 1] == m + q[..|q| - 1];
      TrimEndBeforeWhitespace(m, q[..|q| - 1]);
    }
  }

  /** TrimEnd only looks at the end: a part that is not all whitespace is
      followed by the rest untouched. */
  lemma {:induction false} TrimEndAppend(a: string, b: string)
    ensures TrimEnd(a + b) == if AllWhitespace(b) then TrimEnd(a) else a + TrimEnd(b)
    decreases |b|
  {
    if AllWhitespace(b) {
      TrimEndBeforeWhitespace(a, b);
    } else {
      assert b != [];
      if IsWhitespace(b[|b| - 1]) {
        assert (a + b)[..|a + b| - 1] == a + b[..|b| - 1];
        assert !AllWhitespace(b[..|b| - 1]);
        TrimEndAppend(a, b[..|b| - 1]);
      }
    }
  }

  lemma {:induction false} TrimStartAllWhitespace(s: string)
    requires AllWhitespace(s)
    ensures TrimStart(s) == []
    decreases |s|
  {
    if s != [] {
      TrimStartAllWhitespace(s[1..]);
    }
  }

  /** The result of Trim is the unique middle part: whenever `s` is a
      whitespace run, a part that is empty or starts and ends with
      non-whitespace, and another whitespace run, Trim gives that part. */
  lemma TrimUnique(p: string, m: string, q: string)
    requires AllWhitespace(p) && AllWhitespace(q)
    requires m == [] || (!IsWhitespace(m[0]) && !IsWhitespace(m[|m| - 1]))
    ensures Trim(p + m + q) == m
  {
    if m == [] {
      assert p + m + q == p + q;
      TrimStartAllWhitespace(p + q);
    } else {
      assert p + m + q == p + (m + q);
      TrimStartAfterWhitespace(p, m + q);
      TrimEndBeforeWhitespace(m, q);
    }
  }

  /** Slicing a suffix of `s` is slicing `s`. */
  lemma SliceOfSuffix(s: string, i: int, t: string, n: int)
    requires 0 <= i <= |s| && t == s[i..] && 0 <= n <= |t|
    ensures s[i..i + n] == t[..n] && s[i + n..] == t[n..]
  {
  }

  /** Conversely, Trim(s) is such a middle part of `s`: it stands right
      after the leading whitespace of `s`, and everything before and after it
      is whitespace. */
  lemma TrimDecomposes(s: string)
    ensures var i := |s| - |TrimStart(s)|;
            0 <= i <= |s| - |Trim(s)| && s[i..i + |Trim(s)|] == Trim(s) &&
            AllWhitespace(s[..i]) && AllWhitespace(s[i + |Trim(s)|..])
  {
    var t := TrimStart(s);
    var i := |s| - |t|;
    var r := TrimEnd(t);
    TrimStartSpec(s);
    TrimEndSpec(t);
    SliceOfSuffix(s, i, t, |r|);
    assert t[..|r|] == r;
  }

  /** Trim(s) starts and ends with non-whitespace unless it is empty. */
  lemma TrimEndsNonWhitespace(s: string)
    ensures Trim(s) == [] || (!IsWhitespace(Trim(s)[0]) && !IsWhitespace(Trim(s)[|Trim(s)| - 1]))
  {
    var t := TrimStart(s);
    var r := TrimEnd(t);
    TrimStartSpec(s);
    TrimEndSpec(t);
    assert r != [] ==> r[0] == t[0];
  }
}
