/** The JavaScript string primitives the core relies on, over `string`
    (`seq<char>`): `split` on a one-character separator, `join`, `includes`,
    `startsWith`, `endsWith`, `trim`, and decimal rendering of a number in a
    template literal. */
module Text {

  /** `parts.join(sep)`. */
  function Join(parts: seq<string>, sep: string): string
  {
    if |parts| == 0 then ""
    else if |parts| == 1 then parts[0]
    else parts[0] + sep + Join(parts[1..], sep)
  }

  /** `s.split(c)` for a one-character separator: the maximal separator-free
      pieces, in order; the empty string splits into `[""]`. */
  function Split(s: string, c: char): (r: seq<string>)
    ensures |r| >= 1
    ensures forall i :: 0 <= i < |r| ==> c !in r[i]
    decreases |s|
  {
    if |s| == 0 then [""]
    else
      var rest := Split(s[1..], c);
      if s[0] == c then [""] + rest
      else [[s[0]] + rest[0]] + rest[1..]
  }

  lemma JoinCons(x: string, parts: seq<string>, sep: string)
    requires |parts| >= 1
    ensures Join([x + parts[0]] + parts[1..], sep) == x + Join(parts, sep)
  {
    var ps := [x + parts[0]] + parts[1..];
    if |parts| == 1 {
      assert ps == [x + parts[0]];
    } else {
      assert ps[1..] == parts[1..];
    }
  }

  /** Splitting and re-joining on the same separator gives back the input. */
  lemma {:induction false} SplitJoin(s: string, c: char)
    ensures Join(Split(s, c), [c]) == s
    decreases |s|
  {
    if |s| == 0 {
    } else {
      var rest := Split(s[1..], c);
      SplitJoin(s[1..], c);
      if s[0] == c {
        assert ([""] + rest)[1..] == rest;
        assert s == [c] + s[1..];
      } else {
        JoinCons([s[0]], rest, [c]);
        assert s == [s[0]] + s[1..];
      }
    }
  }

  lemma {:induction false} SplitNoSeparator(a: string, c: char)
    requires c !in a
    ensures Split(a, c) == [a]
    decreases |a|
  {
    if |a| > 0 {
      SplitNoSeparator(a[1..], c);
      assert [a[0]] + a[1..] == a;
    }
  }

  lemma {:induction false} SplitAfterFirst(a: string, b: string, c: char)
    requires c !in a
    ensures Split(a + [c] + b, c) == [a] + Split(b, c)
    decreases |a|
  {
    var s := a + [c] + b;
    if |a| == 0 {
      assert s[1..] == b;
    } else {
      assert s[1..] == a[1..] + [c] + b;
      SplitAfterFirst(a[1..], b, c);
      assert [a[0]] + a[1..] == a;
    }
  }

  /** Joining separator-free pieces and splitting again gives back the pieces. */
  lemma {:induction false} JoinSplit(parts: seq<string>, c: char)
    requires |parts| >= 1
    requires forall i :: 0 <= i < |parts| ==> c !in parts[i]
    ensures Split(Join(parts, [c]), c) == parts
    decreases |parts|
  {
    if |parts| == 1 {
      SplitNoSeparator(parts[0], c);
    } else {
      JoinSplit(parts[1..], c);
      SplitAfterFirst(parts[0], Join(parts[1..], [c]), c);
      assert [parts[0]] + parts[1..] == parts;
    }
  }

  /** A string holding the separator splits into at least two pieces. */
  lemma {:induction false} SplitHasSeparator(s: string, c: char)
    requires c in s
    ensures |Split(s, c)| >= 2
    decreases |s|
  {
    if s[0] != c {
      SplitHasSeparator(s[1..], c);
    }
  }

  /** `s.startsWith(prefix)`. */
  predicate StartsWith(s: string, prefix: string)
  {
    |prefix| <= |s| && s[..|prefix|] == prefix
  }

  /** `s.endsWith(suffix)`. */
  predicate EndsWith(s: string, suffix: string)
  {
    |suffix| <= |s| && s[|s| - |suffix|..] == suffix
  }

  /** `s.includes(pat)`. */
  predicate Contains(s: string, pat: string)
    decreases |s|
  {
    StartsWith(s, pat) || (|s| > 0 && Contains(s[1..], pat))
  }

  lemma {:induction false} ContainsChar(s: string, pat: string, i: nat)
    requires Contains(s, pat)
    requires i < |pat|
    ensures pat[i] in s
    decreases |s|
  {
    if StartsWith(s, pat) {
      assert s[i] == pat[i];
    } else {
      ContainsChar(s[1..], pat, i);
    }
  }

  /** The characters `String.prototype.trim` strips: ECMAScript WhiteSpace
      (tab, vertical tab, form feed, space, no-break space, byte order mark and
      the Unicode space separators) and LineTerminator. */
  predicate IsWhitespace(ch: char)
  {
    || ch == '\t' || ch == '\U{000B}' || ch == '\U{000C}' || ch == ' '
    || ch == '\U{00A0}' || ch == '\U{FEFF}' || ch == '\U{1680}'
    || ('\U{2000}' <= ch <= '\U{200A}')
    || ch == '\U{202F}' || ch == '\U{205F}' || ch == '\U{3000}'
    || ch == '\n' || ch == '\r' || ch == '\U{2028}' || ch == '\U{2029}'
  }

  function TrimStart(s: string): (r: string)
    ensures |r| <= |s| && r == s[|s| - |r|..]
    ensures |r| > 0 ==> !IsWhitespace(r[0])
    ensures forall i :: 0 <= i < |s| - |r| ==> IsWhitespace(s[i])
    decreases |s|
  {
    if |s| > 0 && IsWhitespace(s[0]) then TrimStart(s[1..]) else s
  }

  function TrimEnd(s: string): (r: string)
    ensures |r| <= |s| && r == s[..|r|]
    ensures |r| > 0 ==> !IsWhitespace(r[|r| - 1])
    ensures forall i :: |r| <= i < |s| ==> IsWhitespace(s[i])
    decreases |s|
  {
    if |s| > 0 && IsWhitespace(s[|s| - 1]) then TrimEnd(s[..|s| - 1]) else s
  }

  /** `s.trim()`: the longest slice of `s` that neither starts nor ends with
      whitespace, everything around it being whitespace. */
  function Trim(s: string): (r: string)
    ensures var k := |s| - |TrimStart(s)|; k + |r| <= |s| && r == s[k..k + |r|]
    ensures var k := |s| - |TrimStart(s)|;
      forall i :: 0 <= i < |s| && (i < k || k + |r| <= i) ==> IsWhitespace(s[i])
    ensures |r| > 0 ==> !IsWhitespace(r[0]) && !IsWhitespace(r[|r| - 1])
  {
    TrimSpec(s);
    TrimEnd(TrimStart(s))
  }

  lemma TrimSpec(s: string)
    ensures var r := TrimEnd(TrimStart(s)); var k := |s| - |TrimStart(s)|;
      && k + |r| <= |s| && r == s[k..k + |r|]
      && (forall i :: 0 <= i < |s| && (i < k || k + |r| <= i) ==> IsWhitespace(s[i]))
      && (|r| > 0 ==> !IsWhitespace(r[0]) && !IsWhitespace(r[|r| - 1]))
  {
    TrimIsSlice(s);
    TrimDropsOnlyWhitespace(s);
    TrimEnds(s);
  }

  lemma TrimIsSlice(s: string)
    ensures var t := TrimStart(s); var u := TrimEnd(t); var k := |s| - |t|;
      k + |u| <= |s| && u == s[k..k + |u|]
  {
    var t := TrimStart(s);
    var k := |s| - |t|;
    assert t == s[k..];
    var u := TrimEnd(t);
    assert u == t[..|u|];
    SliceOfSuffix(s, k, |u|);
  }

  lemma SliceOfSuffix(s: string, k: nat, n: nat)
    requires k + n <= |s|
    ensures s[k..][..n] == s[k..k + n]
  {
  }

  lemma TrimDropsOnlyWhitespace(s: string)
    ensures var t := TrimStart(s); var u := TrimEnd(t); var k := |s| - |t|;
      forall i :: 0 <= i < |s| && (i < k || k + |u| <= i) ==> IsWhitespace(s[i])
  {
    var t := TrimStart(s);
    var k := |s| - |t|;
    assert t == s[k..];
    var u := TrimEnd(t);
    forall i | 0 <= i < |s| && (i < k || k + |u| <= i)
      ensures IsWhitespace(s[i])
    {
      if k + |u| <= i {
        assert s[i] == t[i - k];
      }
    }
  }

  lemma TrimEnds(s: string)
    ensures var u := TrimEnd(TrimStart(s));
      |u| > 0 ==> !IsWhitespace(u[0]) && !IsWhitespace(u[|u| - 1])
  {
    var t := TrimStart(s);
    var u := TrimEnd(t);
    if |u| > 0 {
      assert u[0] == t[0];
    }
  }

  function Digit(d: nat): char
    requires d < 10
  {
    "0123456789"[d]
  }

  /** The decimal rendering of a non-negative integer in a template literal. */
  function NatToString(n: nat): (r: string)
    ensures |r| >= 1
    ensures forall i :: 0 <= i < |r| ==> '0' <= r[i] <= '9'
    ensures n >= 10 ==> r[0] != '0'
  {
    if n < 10 then [Digit(n)] else NatToString(n / 10) + [Digit(n % 10)]
  }
}
