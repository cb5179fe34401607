/** The string operations of Python that the modelled code relies on:
    `sep.join(xs)`, `s.split(c)`, `s.strip()`, `s.lower()`, `pat in s`,
    `s.replace(pat, rep)` and `str(n)` for a natural number. */
module Text {

  /** `sep.join(xs)` */
  function Join(sep: string, xs: seq<string>): string
  {
    if |xs| == 0 then ""
    else if |xs| == 1 then xs[0]
    else xs[0] + sep + Join(sep, xs[1..])
  }

  /** `s.split(sep)` for a one-character separator: the pieces between the
      separators, empty ones included; never an empty list. */
  function Split(s: string, sep: char): (parts: seq<string>)
    ensures |parts| >= 1
    ensures forall i :: 0 <= i < |parts| ==> sep !in parts[i]
    decreases |s|
  {
    if s == [] then [""]
    else
      var rest := Split(s[1..], sep);
      if s[0] == sep then [""] + rest
      else [[s[0]] + rest[0]] + rest[1..]
  }

  /** Joining the pieces of a split with the same separator gives back the
      string. */
  lemma {:induction false} JoinSplit(s: string, sep: char)
    ensures Join([sep], Split(s, sep)) == s
    decreases |s|
  {
    if s != [] {
      var rest := Split(s[1..], sep);
      JoinSplit(s[1..], sep);
      if s[0] == sep {
        var parts := [""] + rest;
        assert parts[1..] == rest;
        assert Join([sep], parts) == "" + [sep] + Join([sep], rest);
        assert s == [s[0]] + s[1..];
      } else {
        var parts := [[s[0]] + rest[0]] + rest[1..];
        if |rest| == 1 {
          assert parts == [[s[0]] + rest[0]];
          assert s == [s[0]] + s[1..];
        } else {
          assert parts[1..] == rest[1..];
          assert Join([sep], rest) == rest[0] + [sep] + Join([sep], rest[1..]);
          assert Join([sep], parts) == [s[0]] + rest[0] + [sep] + Join([sep], rest[1..]);
          assert s == [s[0]] + s[1..];
        }
      }
    }
  }

  lemma {:induction false} SplitWithoutSeparator(a: string, sep: char)
    requires sep !in a
    ensures Split(a, sep) == [a]
    decreases |a|
  {
    if a != [] {
      SplitWithoutSeparator(a[1..], sep);
      assert a == [a[0]] + a[1..];
    }
  }

  lemma {:induction false} SplitAtSeparator(a: string, sep: char, b: string)
    requires sep !in a
    ensures Split(a + [sep] + b, sep) == [a] + Split(b, sep)
    decreases |a|
  {
    var s := a + [sep] + b;
    if a == [] {
      assert s[1..] == b;
    } else {
      assert s[1..] == a[1..] + [sep] + b;
      SplitAtSeparator(a[1..], sep, b);
      assert [s[0]] + a[1..] == a;
    }
  }

  /** Splitting a join of separator-free pieces gives back the pieces. */
  lemma {:induction false} SplitJoin(xs: seq<string>, sep: char)
    requires |xs| >= 1
    requires forall i :: 0 <= i < |xs| ==> sep !in xs[i]
    ensures Split(Join([sep], xs), sep) == xs
    decreases |xs|
  {
    if |xs| == 1 {
      SplitWithoutSeparator(xs[0], sep);
    } else {
      SplitJoin(xs[1..], sep);
      SplitAtSeparator(xs[0], sep, Join([sep], xs[1..]));
      assert [xs[0]] + xs[1..] == xs;
    }
  }

  /** Joining one more piece appends the separator and the piece. */
  lemma {:induction false} JoinAppend(sep: string, xs: seq<string>, y: string)
    requires |xs| >= 1
    ensures Join(sep, xs + [y]) == Join(sep, xs) + sep + y
    decreases |xs|
  {
    var ys := xs + [y];
    if |xs| == 1 {
      assert ys[1..] == [y];
    } else {
      assert ys[1..] == xs[1..] + [y];
      JoinAppend(sep, xs[1..], y);
    }
  }

  /** The pieces `s.split(",")` sees in `", ".join(xs)`: the first name, then
      every later name behind the space that followed its comma. */
  function CommaSpacePieces(xs: seq<string>): (ps: seq<string>)
    requires |xs| >= 1
  {
    [xs[0]] + seq(|xs| - 1, k requires 0 <= k < |xs| - 1 => " " + xs[k + 1])
  }

  lemma JoinPrefixFirst(sep: string, c: string, ps: seq<string>)
    requires |ps| >= 1
    ensures Join(sep, [c + ps[0]] + ps[1..]) == c + Join(sep, ps)
  {
    var qs := [c + ps[0]] + ps[1..];
    assert qs[1..] == ps[1..];
  }

  /** `", ".join(xs)` is the `","`-join of the comma-space pieces. */
  lemma {:induction false} JoinCommaSpace(xs: seq<string>)
    requires |xs| >= 1
    ensures Join(", ", xs) == Join(",", CommaSpacePieces(xs))
    decreases |xs|
  {
    if |xs| > 1 {
      var ps := CommaSpacePieces(xs);
      var rest := CommaSpacePieces(xs[1..]);
      assert ps[1..] == [" " + rest[0]] + rest[1..];
      JoinPrefixFirst(",", " ", rest);
      JoinCommaSpace(xs[1..]);
    }
  }

  /** The characters `str.isspace` accepts, which `str.strip()` removes. */
  const Whitespace: set<char> := {
    '\t', '\n', '\U{0B}', '\U{0C}', '\r', '\U{1C}', '\U{1D}', '\U{1E}', '\U{1F}', ' ',
    '\U{85}', '\U{A0}', '\U{1680}',
    '\U{2000}', '\U{2001}', '\U{2002}', '\U{2003}', '\U{2004}', '\U{2005}',
    '\U{2006}', '\U{2007}', '\U{2008}', '\U{2009}', '\U{200A}',
    '\U{2028}', '\U{2029}', '\U{202F}', '\U{205F}', '\U{3000}'
  }

  predicate IsSpace(c: char)
  {
    c in Whitespace
  }

  /** Drops the leading whitespace: the result is a suffix of `s`, everything
      dropped is whitespace and the result does not start with whitespace. */
  function TrimLeft(s: string): (r: string)
    ensures |r| <= |s| && r == s[|s| - |r|..]
    ensures forall k :: 0 <= k < |s| - |r| ==> IsSpace(s[k])
    ensures r != [] ==> !IsSpace(r[0])
    decreases |s|
  {
    if s != [] && IsSpace(s[0]) then TrimLeft(s[1..]) else s
  }

  /** Drops the trailing whitespace: the result is a prefix of `s`, everything
      dropped is whitespace and the result does not end with whitespace. */
  function TrimRight(s: string): (r: string)
    ensures |r| <= |s| && r == s[..|r|]
    ensures forall k :: |r| <= k < |s| ==> IsSpace(s[k])
    ensures r != [] ==> !IsSpace(r[|r| - 1])
    decreases |s|
  {
    if s != [] && IsSpace(s[|s| - 1]) then TrimRight(s[..|s| - 1]) else s
  }

  /** `r` is the slice of `s` at `i` and only whitespace lies around it. */
  predicate SpaceAround(s: string, r: string, i: int)
  {
    && 0 <= i <= |s| - |r|
    && r == s[i..i + |r|]
    && (forall k :: 0 <= k < i ==> IsSpace(s[k]))
    && (forall k :: i + |r| <= k < |s| ==> IsSpace(s[k]))
  }

  /** A prefix `r` of a suffix `t` of `s`, with whitespace around both cuts,
      is a slice of `s` with only whitespace around it. */
  lemma TrimmedSpaceAround(s: string, t: string, r: string)
    requires |t| <= |s| && t == s[|s| - |t|..]
    requires forall k :: 0 <= k < |s| - |t| ==> IsSpace(s[k])
    requires |r| <= |t| && r == t[..|r|]
    requires forall k :: |r| <= k < |t| ==> IsSpace(t[k])
    ensures SpaceAround(s, r, |s| - |t|)
  {
    var i := |s| - |t|;
    assert r == s[i..i + |r|];
    forall k | i + |r| <= k < |s| ensures IsSpace(s[k]) {
      assert s[k] == t[k - i];
    }
  }

  /** `s.strip()`: the slice of `s` left after removing whitespace at both
      ends. */
  function Strip(s: string): (r: string)
    ensures exists i :: SpaceAround(s, r, i)
    ensures r != [] ==> !IsSpace(r[0]) && !IsSpace(r[|r| - 1])
  {
    var t := TrimLeft(s);
    var r := TrimRight(t);
    TrimmedSpaceAround(s, t, r);
    r
  }

  /** `c.lower()` on the characters it maps to a single character: ASCII,
      Latin-1 and the letters of the Vietnamese alphabet. */
  function LowerChar(c: char): char
  {
    if 'A' <= c <= 'Z' then (c as int + 32) as char
    else if '\U{C0}' <= c <= '\U{DE}' && c != '\U{D7}' then (c as int + 32) as char
    else if c in {'\U{102}', '\U{110}', '\U{128}', '\U{168}', '\U{1A0}'} then (c as int + 1) as char
    else if c == '\U{1AF}' then '\U{1B0}'
    else if '\U{1EA0}' <= c <= '\U{1EF8}' && (c as int) % 2 == 0 then (c as int + 1) as char
    else c
  }

  /** `s.lower()`, character by character. */
  function Lower(s: string): (r: string)
    ensures |r| == |s|
    ensures forall k :: 0 <= k < |s| ==> r[k] == LowerChar(s[k])
  {
    seq(|s|, k requires 0 <= k < |s| => LowerChar(s[k]))
  }

  /** What lower-casing does to each character: no ASCII capital is left,
      ASCII capitals become their small letters, characters below `A`
      (digits, punctuation, ASCII controls and the space) are kept and
      nothing else becomes one of them, and whitespace stays whitespace. */
  lemma LowerCases(s: string)
    ensures var r := Lower(s);
            && (forall k :: 0 <= k < |s| ==> !('A' <= r[k] <= 'Z'))
            && (forall k :: 0 <= k < |s| && 'A' <= s[k] <= 'Z' ==> r[k] == (s[k] as int + 32) as char)
            && (forall k :: 0 <= k < |s| && (s[k] < 'A' || r[k] < 'A') ==> r[k] == s[k])
            && (forall k :: 0 <= k < |s| ==> (IsSpace(r[k]) <==> IsSpace(s[k])))
  {
  }

  /** Lower-casing a lower-cased character changes nothing. */
  lemma LowerCharIdempotent(c: char)
    ensures LowerChar(LowerChar(c)) == LowerChar(c)
  {
  }

  /** Lower-casing twice is lower-casing once. */
  lemma LowerIdempotent(s: string)
    ensures Lower(Lower(s)) == Lower(s)
  {
    var l := Lower(s);
    forall k | 0 <= k < |s| ensures Lower(l)[k] == l[k] {
      LowerCharIdempotent(s[k]);
    }
  }

  /** A string that starts and ends with something other than whitespace is
      left alone by `strip()`. */
  lemma StripUnpadded(t: string)
    requires t != [] ==> !IsSpace(t[0]) && !IsSpace(t[|t| - 1])
    ensures Strip(t) == t
  {
    assert TrimLeft(t) == t;
    assert TrimRight(t) == t;
  }

  predicate OccursAt(s: string, pat: string, i: int)
  {
    0 <= i <= |s| - |pat| && s[i..i + |pat|] == pat
  }

  /** `pat in s` for strings */
  predicate Contains(s: string, pat: string)
  {
    exists i :: 0 <= i <= |s| - |pat| && OccursAt(s, pat, i)
  }

  /** `s.replace(pat, rep)`: occurrences are replaced left to right without
      overlapping. */
  function ReplaceAll(s: string, pat: string, rep: string): string
    requires pat != []
    decreases |s|
  {
    if |s| < |pat| then s
    else if s[..|pat|] == pat then rep + ReplaceAll(s[|pat|..], pat, rep)
    else [s[0]] + ReplaceAll(s[1..], pat, rep)
  }

  /** Iterating over a string yields its characters as one-letter strings. */
  function Chars(s: string): (r: seq<string>)
    ensures |r| == |s|
    ensures forall k :: 0 <= k < |s| ==> r[k] == [s[k]]
  {
    seq(|s|, k requires 0 <= k < |s| => [s[k]])
  }

  /** `"".join(s)` gives back the string: the one-letter strings are its
      characters in order. */
  lemma {:induction false} JoinChars(s: string)
    ensures Join("", Chars(s)) == s
    decreases |s|
  {
    if |s| > 1 {
      JoinChars(s[1..]);
      assert Chars(s)[1..] == Chars(s[1..]);
      assert s == [s[0]] + s[1..];
    }
  }

  function Digit(d: nat): char
    requires d < 10
  {
    ('0' as int + d) as char
  }

  /** The number a string of decimal digits denotes. */
  function DigitsValue(s: string): nat
    requires forall k :: 0 <= k < |s| ==> '0' <= s[k] <= '9'
    decreases |s|
  {
    if s == [] then 0
    else DigitsValue(s[..|s| - 1]) * 10 + (s[|s| - 1] as int - '0' as int)
  }

  /** `str(n)` for a natural number: decimal digits that read back as `n`,
      with no leading zero. */
  function NatToString(n: nat): (r: string)
    ensures |r| >= 1
    ensures forall k :: 0 <= k < |r| ==> '0' <= r[k] <= '9'
    ensures DigitsValue(r) == n
    ensures |r| > 1 ==> r[0] != '0'
    decreases n
  {
    if n < 10 then [Digit(n)]
    else
      var prefix := NatToString(n / 10);
      var r := prefix + [Digit(n % 10)];
      assert r[..|r| - 1] == prefix;
      r
  }

  /** Different numbers print differently. */
  lemma NatToStringInjective(a: nat, b: nat)
    requires NatToString(a) == NatToString(b)
    ensures a == b
  {
  }
}
