/** String operations the terminal relies on, written as the JavaScript
    built-ins they stand for: String.prototype.trim, toLowerCase,
    split on one character, and the render-time replacement of every
    space by the entity "&nbsp;". */
module Text {

  /** The code points String.prototype.trim strips: ECMAScript WhiteSpace
      (TAB, VT, FF, ZWNBSP and every Zs space) and LineTerminator (LF, CR,
      LS, PS). */
  predicate IsWhitespace(c: char) {
    || c == '\t' || c == '\n' || c == '\U{000B}' || c == '\U{000C}' || c == '\r'
    || c == ' ' || c == '\U{00A0}' || c == '\U{1680}'
    || ('\U{2000}' <= c <= '\U{200A}')
    || c == '\U{2028}' || c == '\U{2029}' || c == '\U{202F}' || c == '\U{205F}'
    || c == '\U{3000}' || c == '\U{FEFF}'
  }

  /** A string that trims to "" (falsy in JavaScript). */
  predicate IsBlank(s: string) {
    forall i :: 0 <= i < |s| ==> IsWhitespace(s[i])
  }

  /** A string that trim leaves alone: it neither starts nor ends with whitespace. */
  predicate IsTrimmed(s: string) {
    s == [] || (!IsWhitespace(s[0]) && !IsWhitespace(s[|s| - 1]))
  }

  /** Length of the whitespace run at the start of `s`. */
  function LeadingWhitespace(s: string): (n: nat)
    ensures n <= |s|
    ensures forall i :: 0 <= i < n ==> IsWhitespace(s[i])
    ensures n < |s| ==> !IsWhitespace(s[n])
  {
    if |s| == 0 || !IsWhitespace(s[0]) then 0 else 1 + LeadingWhitespace(s[1..])
  }

  /** Length of the whitespace run at the end of `s`. */
  function TrailingWhitespace(s: string): (n: nat)
    ensures n <= |s|
    ensures forall i :: |s| - n <= i < |s| ==> IsWhitespace(s[i])
    ensures n < |s| ==> !IsWhitespace(s[|s| - 1 - n])
  {
    if |s| == 0 || !IsWhitespace(s[|s| - 1]) then 0
    else 1 + TrailingWhitespace(s[..|s| - 1])
  }

  /** String.prototype.trim: drop leading and trailing whitespace. */
  function Trim(s: string): (r: string)
    ensures IsTrimmed(r)
    ensures r == [] <==> IsBlank(s)
  {
    TrimShape(s);
    TrimBody(s)
  }

  function TrimBody(s: string): string {
    var lo := LeadingWhitespace(s);
    if lo == |s| then "" else s[lo..|s| - TrailingWhitespace(s)]
  }

  lemma TrimShape(s: string)
    ensures IsTrimmed(TrimBody(s))
    ensures TrimBody(s) == [] <==> IsBlank(s)
  {
    var lo := LeadingWhitespace(s);
    BlankPrefix(s, lo);
    if lo < |s| {
      var n := TrailingWhitespace(s);
      RunsDisjoint(s, lo, n);
      EndsOfSlice(s, lo, |s| - n);
    }
  }

  /** Trim only strips: what it returns is the slice of `s` that follows the
      leading whitespace, and only whitespace is left on either side of it. */
  lemma TrimStrips(s: string)
    ensures LeadingWhitespace(s) + |Trim(s)| <= |s|
    ensures Trim(s) == s[LeadingWhitespace(s)..LeadingWhitespace(s) + |Trim(s)|]
    ensures IsBlank(s[..LeadingWhitespace(s)])
    ensures IsBlank(s[LeadingWhitespace(s) + |Trim(s)|..])
  {
    var lo := LeadingWhitespace(s);
    BlankPrefix(s, lo);
    if lo == |s| {
      assert s[lo..] == [];
    } else {
      var n := TrailingWhitespace(s);
      RunsDisjoint(s, lo, n);
      BlankSuffix(s, |s| - n);
    }
  }

  /** A string that is not all whitespace has its leading run end before its trailing run starts. */
  lemma RunsDisjoint(s: string, lo: nat, n: nat)
    requires lo == LeadingWhitespace(s) < |s| && n == TrailingWhitespace(s)
    ensures lo < |s| - n
  {
    assert !IsWhitespace(s[lo]);
    assert IsWhitespace(s[lo]) || lo < |s| - n;
  }

  lemma EndsOfSlice(s: string, lo: nat, hi: nat)
    requires lo < hi <= |s| && !IsWhitespace(s[lo]) && !IsWhitespace(s[hi - 1])
    ensures IsTrimmed(s[lo..hi])
  {
    assert s[lo..hi][0] == s[lo] && s[lo..hi][hi - lo - 1] == s[hi - 1];
  }

  /** The leading whitespace run is blank, and it is all of `s` exactly when `s` is blank. */
  lemma BlankPrefix(s: string, lo: nat)
    requires lo == LeadingWhitespace(s)
    ensures IsBlank(s[..lo])
    ensures lo == |s| <==> IsBlank(s)
  {
    assert forall i :: 0 <= i < lo ==> s[..lo][i] == s[i];
    if lo < |s| {
      assert !IsWhitespace(s[lo]);
    }
  }

  /** The trailing whitespace run is blank. */
  lemma BlankSuffix(s: string, hi: nat)
    requires hi == |s| - TrailingWhitespace(s)
    ensures IsBlank(s[hi..])
  {
    assert forall i :: 0 <= i < |s| - hi ==> s[hi..][i] == s[hi + i];
  }

  lemma {:induction false} LeadingOfPadded(a: string, t: string)
    requires IsBlank(a)
    requires t == [] || !IsWhitespace(t[0])
    ensures LeadingWhitespace(a + t) == |a|
    decreases |a|
  {
    if |a| > 0 {
      assert (a + t)[1..] == a[1..] + t;
      LeadingOfPadded(a[1..], t);
    } else {
      assert a + t == t;
    }
  }

  lemma {:induction false} TrailingOfPadded(t: string, b: string)
    requires IsBlank(b)
    requires t == [] || !IsWhitespace(t[|t| - 1])
    ensures TrailingWhitespace(t + b) == |b|
    decreases |b|
  {
    if |b| > 0 {
      assert (t + b)[..|t + b| - 1] == t + b[..|b| - 1];
      TrailingOfPadded(t, b[..|b| - 1]);
    } else {
      assert t + b == t;
    }
  }

  /** Trim removes exactly the padding: a trimmed string surrounded by any
      whitespace trims back to itself. */
  lemma TrimPadded(a: string, t: string, b: string)
    requires IsBlank(a) && IsBlank(b) && IsTrimmed(t)
    ensures Trim(a + t + b) == t
  {
    var s := a + t + b;
    if t == [] {
      assert IsBlank(s) by {
        forall i | 0 <= i < |s| ensures IsWhitespace(s[i]) {
          if i < |a| { assert s[i] == a[i]; } else { assert s[i] == b[i - |a|]; }
        }
      }
    } else {
      assert s == a + (t + b);
      LeadingOfPadded(a, t + b);
      assert s[|a|..] == t + b;
      TrailingOfPadded(t, b);
      assert (t + b)[..|t|] == t;
    }
  }

  /** Trimming twice is trimming once. */
  lemma TrimIdempotent(s: string)
    ensures Trim(Trim(s)) == Trim(s)
  {
    TrimPadded("", Trim(s), "");
    assert "" + Trim(s) + "" == Trim(s);
  }

  /** String.prototype.toLowerCase on one code point, restricted to the
      mappings that can yield an ASCII letter: A-Z, and U+212A KELVIN SIGN,
      whose lower case is 'k'. Every other character is kept. */
  function LowerChar(c: char): (d: char)
    ensures d == ' ' <==> c == ' '
    ensures !('A' <= d <= 'Z')
    ensures 'A' <= c <= 'Z' ==> d as int == c as int + 32
    ensures c == '\U{212A}' ==> d == 'k'
    ensures !('A' <= c <= 'Z') && c != '\U{212A}' ==> d == c
  {
    if 'A' <= c <= 'Z' then (c as int + 32) as char
    else if c == '\U{212A}' then 'k'
    else c
  }

  /** toLowerCase, character by character. */
  function Lower(s: string): string {
    seq(|s|, i requires 0 <= i < |s| => LowerChar(s[i]))
  }

  /** Inverse of Split: the pieces glued back with `sep` between them. */
  function Join(parts: seq<string>, sep: char): string
    requires |parts| >= 1
    decreases |parts|
  {
    if |parts| == 1 then parts[0] else parts[0] + [sep] + Join(parts[1..], sep)
  }

  /** String.prototype.split with a one-character separator: the maximal
      separator-free pieces, in order; "" splits into [""]. */
  function Split(s: string, sep: char): (parts: seq<string>)
    ensures |parts| >= 1
    ensures forall i :: 0 <= i < |parts| ==> sep !in parts[i]
    ensures Join(parts, sep) == s
    decreases |s|
  {
    if |s| == 0 then [""]
    else
      var rest := Split(s[1..], sep);
      if s[0] == sep then
        assert ([""] + rest)[1..] == rest;
        [""] + rest
      else
        var parts := [[s[0]] + rest[0]] + rest[1..];
        assert parts[1..] == rest[1..];
        assert |rest| > 1 ==> Join(rest, sep) == rest[0] + [sep] + Join(rest[1..], sep);
        parts
  }

  /** A string without the separator is a single piece. */
  lemma {:induction false} SplitWithout(s: string, sep: char)
    requires sep !in s
    ensures Split(s, sep) == [s]
    decreases |s|
  {
    if |s| > 0 {
      SplitWithout(s[1..], sep);
      assert [s[0]] + s[1..] == s;
    }
  }

  /** Splitting `a + [sep] + b` where `a` has no separator cuts at that separator. */
  lemma {:induction false} SplitAtFirst(a: string, b: string, sep: char)
    requires sep !in a
    ensures Split(a + [sep] + b, sep) == [a] + Split(b, sep)
    decreases |a|
  {
    if |a| == 0 {
      assert a + [sep] + b == [sep] + b;
      assert ([sep] + b)[1..] == b;
    } else {
      var s := a + [sep] + b;
      assert s[1..] == a[1..] + [sep] + b;
      SplitAtFirst(a[1..], b, sep);
      assert [a[0]] + a[1..] == a;
    }
  }

  /** Round trip: splitting the join of separator-free pieces gives the pieces back. */
  lemma {:induction false} SplitJoin(parts: seq<string>, sep: char)
    requires |parts| >= 1
    requires forall i :: 0 <= i < |parts| ==> sep !in parts[i]
    ensures Split(Join(parts, sep), sep) == parts
    decreases |parts|
  {
    if |parts| == 1 {
      SplitWithout(parts[0], sep);
    } else {
      SplitJoin(parts[1..], sep);
      SplitAtFirst(parts[0], Join(parts[1..], sep), sep);
      assert [parts[0]] + parts[1..] == parts;
    }
  }

  /** The first piece of a split is the prefix of `s` up to the first
      separator, or all of `s` when there is none. */
  lemma {:induction false} SplitHead(s: string, sep: char)
    ensures |Split(s, sep)[0]| <= |s|
    ensures Split(s, sep)[0] == s[..|Split(s, sep)[0]|]
    ensures |Split(s, sep)[0]| < |s| ==> s[|Split(s, sep)[0]|] == sep
    decreases |s|
  {
    if |s| > 0 && s[0] != sep {
      SplitHead(s[1..], sep);
    }
  }

  /** Lower-casing never creates or removes a space, so splitting on ' '
      commutes with it. */
  lemma {:induction false} SplitSpaceLower(s: string)
    ensures Split(Lower(s), ' ')[0] == Lower(Split(s, ' ')[0])
    decreases |s|
  {
    if |s| > 0 {
      assert Lower(s)[1..] == Lower(s[1..]);
      SplitSpaceLower(s[1..]);
      if s[0] != ' ' {
        assert Lower([s[0]] + Split(s[1..], ' ')[0])
            == [LowerChar(s[0])] + Lower(Split(s[1..], ' ')[0]);
      }
    }
  }

  /** The entity a response line shows in place of each space. */
  const Nbsp: string := "&nbsp;"

  /** `content.replace(/ /g, '&nbsp;')`. */
  function EscapeSpaces(s: string): (r: string)
    ensures ' ' !in r
    ensures |r| >= |s|
    decreases |s|
  {
    if |s| == 0 then ""
    else (if s[0] == ' ' then Nbsp else [s[0]]) + EscapeSpaces(s[1..])
  }

  /** Reads "&nbsp;" back as a space, left to right; everything else is kept. */
  function UnescapeSpaces(s: string): string
    decreases |s|
  {
    if |s| == 0 then ""
    else if |s| >= |Nbsp| && s[..|Nbsp|] == Nbsp then " " + UnescapeSpaces(s[|Nbsp|..])
    else [s[0]] + UnescapeSpaces(s[1..])
  }

  /** The escape changes nothing but the spaces: on text without '&' it is
      undone by reading each "&nbsp;" back as a space. */
  lemma {:induction false} UnescapeEscape(s: string)
    requires '&' !in s
    ensures UnescapeSpaces(EscapeSpaces(s)) == s
    decreases |s|
  {
    if |s| > 0 {
      var e := EscapeSpaces(s);
      UnescapeEscape(s[1..]);
      if s[0] == ' ' {
        assert e[..|Nbsp|] == Nbsp;
        assert e[|Nbsp|..] == EscapeSpaces(s[1..]);
      } else {
        assert e[0] == s[0] && e[1..] == EscapeSpaces(s[1..]);
      }
      assert [s[0]] + s[1..] == s;
    }
  }

  /** The escape works character by character: escaping a concatenation
      escapes each part. */
  lemma {:induction false} EscapeConcat(a: string, b: string)
    ensures EscapeSpaces(a + b) == EscapeSpaces(a) + EscapeSpaces(b)
    decreases |a|
  {
    if |a| == 0 {
      assert a + b == b;
    } else {
      assert (a + b)[1..] == a[1..] + b;
      EscapeConcat(a[1..], b);
    }
  }

  /** A space becomes the entity; any other character is kept. */
  lemma EscapeOne(c: char)
    ensures c == ' ' ==> EscapeSpaces([c]) == Nbsp
    ensures c != ' ' ==> EscapeSpaces([c]) == [c]
  {
    assert [c][1..] == [];
  }

  /** Text without spaces is rendered verbatim. */
  lemma {:induction false} EscapeWithoutSpaces(s: string)
    requires ' ' !in s
    ensures EscapeSpaces(s) == s
    decreases |s|
  {
    if |s| > 0 {
      EscapeWithoutSpaces(s[1..]);
      assert [s[0]] + s[1..] == s;
    }
  }
}
