/** The JavaScript string operations the portal relies on, over `seq<char>`:
    `trim`, `toLowerCase` (ASCII letters), `startsWith`, `includes`, `indexOf`,
    `split`/`join` on one character, and decimal digits with `padStart`. */
module Text {
  import opened Base

  /** ECMAScript WhiteSpace and LineTerminator code points: what `trim` removes
      and what the regular expression `\s` matches. */
  const Spaces: set<char> := {' ', '\t', '\n', '\r', '\U{000B}', '\U{000C}', '\U{00A0}', '\U{1680}',
    '\U{2000}', '\U{2001}', '\U{2002}', '\U{2003}', '\U{2004}', '\U{2005}', '\U{2006}', '\U{2007}',
    '\U{2008}', '\U{2009}', '\U{200A}', '\U{2028}', '\U{2029}', '\U{202F}', '\U{205F}', '\U{3000}', '\U{FEFF}'}

  predicate IsSpace(c: char)
  {
    c in Spaces
  }

  function TrimStart(s: string): string
  {
    if |s| > 0 && IsSpace(s[0]) then TrimStart(s[1..]) else s
  }

  function TrimEnd(s: string): string
  {
    if |s| > 0 && IsSpace(s[|s| - 1]) then TrimEnd(s[..|s| - 1]) else s
  }

  /** `String.prototype.trim`: drop the white space at both ends. */
  function Trim(s: string): string
  {
    TrimEnd(TrimStart(s))
  }

  /** `trimStart` leaves a suffix that starts with a non-space, and drops only spaces. */
  lemma {:induction false} TrimStartFacts(s: string)
    ensures var r := TrimStart(s); |r| <= |s| && r == s[|s| - |r|..]
    ensures var r := TrimStart(s); r == [] || !IsSpace(r[0])
    ensures var r := TrimStart(s); forall i :: 0 <= i < |s| - |r| ==> IsSpace(s[i])
    decreases |s|
  {
    if |s| > 0 && IsSpace(s[0]) {
      TrimStartFacts(s[1..]);
    }
  }

  /** `trimEnd` leaves a prefix that ends with a non-space, and drops only spaces. */
  lemma {:induction false} TrimEndFacts(s: string)
    ensures var r := TrimEnd(s); |r| <= |s| && r == s[..|r|]
    ensures var r := TrimEnd(s); r == [] || !IsSpace(r[|r| - 1])
    ensures var r := TrimEnd(s); forall i :: |r| <= i < |s| ==> IsSpace(s[i])
    decreases |s|
  {
    if |s| > 0 && IsSpace(s[|s| - 1]) {
      TrimEndFacts(s[..|s| - 1]);
    }
  }

  /** The trimmed string is a slice of the input with no white space at either end. */
  lemma TrimFacts(s: string)
    ensures |Trim(s)| <= |s|
    ensures Trim(s) == [] || (!IsSpace(Trim(s)[0]) && !IsSpace(Trim(s)[|Trim(s)| - 1]))
    ensures exists i :: SliceAt(s, Trim(s), i)
  {
    var t := TrimStart(s);
    TrimStartFacts(s);
    TrimEndFacts(t);
    var r := TrimEnd(t);
    if r != [] {
      assert r[0] == t[0];
    }
    assert SliceAt(s, r, |s| - |t|);
  }

  /** A string with no white space at its ends is its own trim. */
  lemma TrimOfTrimmed(s: string)
    requires s == [] || (!IsSpace(s[0]) && !IsSpace(s[|s| - 1]))
    ensures Trim(s) == s
  {
  }

  lemma TrimIdempotent(s: string)
    ensures Trim(Trim(s)) == Trim(s)
  {
    TrimFacts(s);
    TrimOfTrimmed(Trim(s));
  }

  /** Trimming keeps every non-space character: only white space is lost. */
  lemma TrimEmptyIffBlank(s: string)
    ensures Trim(s) == [] <==> forall i :: 0 <= i < |s| ==> IsSpace(s[i])
  {
    var t := TrimStart(s);
    TrimStartFacts(s);
    TrimEndFacts(t);
    if t != [] {
      assert t[0] == s[|s| - |t|];
    }
  }

  function LowerChar(c: char): char
  {
    if 'A' <= c <= 'Z' then (c as int + 32) as char else c
  }

  /** `toLowerCase`, for the ASCII letters. */
  function Lower(s: string): string
  {
    if s == [] then [] else [LowerChar(s[0])] + Lower(s[1..])
  }

  /** Lower-casing keeps the length and maps every character on its own. */
  lemma {:induction false} LowerFacts(s: string)
    ensures |Lower(s)| == |s|
    ensures forall i :: 0 <= i < |s| ==> Lower(s)[i] == LowerChar(s[i])
    decreases |s|
  {
    if s != [] {
      LowerFacts(s[1..]);
    }
  }

  lemma {:induction false} LowerAppend(a: string, b: string)
    ensures Lower(a + b) == Lower(a) + Lower(b)
    decreases |a|
  {
    if a != [] {
      assert (a + b)[1..] == a[1..] + b;
      LowerAppend(a[1..], b);
    } else {
      assert a + b == b;
    }
  }

  lemma {:induction false} LowerIdempotent(s: string)
    ensures Lower(Lower(s)) == Lower(s)
    decreases |s|
  {
    if s != [] {
      LowerIdempotent(s[1..]);
    }
  }

  lemma LowerCharSpace(c: char)
    ensures IsSpace(LowerChar(c)) <==> IsSpace(c)
  {
  }

  lemma {:induction false} TrimStartLower(s: string)
    ensures TrimStart(Lower(s)) == Lower(TrimStart(s))
    decreases |s|
  {
    if |s| > 0 {
      LowerCharSpace(s[0]);
      if IsSpace(s[0]) {
        TrimStartLower(s[1..]);
      }
    }
  }

  lemma {:induction false} TrimEndLower(s: string)
    ensures TrimEnd(Lower(s)) == Lower(TrimEnd(s))
    decreases |s|
  {
    if |s| > 0 {
      var init, c := s[..|s| - 1], s[|s| - 1];
      assert s == init + [c];
      LowerAppend(init, [c]);
      assert Lower([c]) == [LowerChar(c)];
      LowerFacts(init);
      var l := Lower(init) + [LowerChar(c)];
      assert l[..|l| - 1] == Lower(init);
      LowerCharSpace(c);
      if IsSpace(c) {
        TrimEndLower(init);
      }
    }
  }

  /** Lower-casing never turns a character into white space or back, so it commutes with `trim`. */
  lemma TrimLower(s: string)
    ensures Trim(Lower(s)) == Lower(Trim(s))
  {
    TrimStartLower(s);
    TrimEndLower(TrimStart(s));
  }

  lemma TrimEndSpace(s: string, c: char)
    requires IsSpace(c)
    ensures TrimEnd(s + [c]) == TrimEnd(s)
  {
    assert (s + [c])[..|s|] == s;
  }

  lemma {:induction false} TrimStartAppend(s: string, u: string)
    ensures TrimStart(s) != [] ==> TrimStart(s + u) == TrimStart(s) + u
    ensures TrimStart(s) == [] ==> TrimStart(s + u) == TrimStart(u)
    decreases |s|
  {
    if |s| > 0 {
      assert (s + u)[1..] == s[1..] + u;
      assert (s + u)[0] == s[0];
      if IsSpace(s[0]) {
        TrimStartAppend(s[1..], u);
      }
    } else {
      assert s + u == u;
    }
  }

  /** `s.length` in JavaScript: UTF-16 code units, two for a character outside the
      Basic Multilingual Plane. */
  function Utf16Length(s: string): (n: nat)
    ensures |s| <= n <= 2 * |s|
    ensures (forall i :: 0 <= i < |s| ==> (s[i] as int) < 0x1_0000) ==> n == |s|
    ensures (forall i :: 0 <= i < |s| ==> (s[i] as int) >= 0x1_0000) ==> n == 2 * |s|
  {
    if s == [] then 0
    else
      assert forall i :: 1 <= i < |s| ==> s[1..][i - 1] == s[i];
      (if (s[0] as int) < 0x1_0000 then 1 else 2) + Utf16Length(s[1..])
  }

  /** Leading white space is dropped whatever follows it. */
  lemma {:induction false} TrimStartSpaces(p: string, x: string)
    requires forall i :: 0 <= i < |p| ==> IsSpace(p[i])
    ensures TrimStart(p + x) == TrimStart(x)
    decreases |p|
  {
    if |p| > 0 {
      assert (p + x)[0] == p[0] && (p + x)[1..] == p[1..] + x;
      TrimStartSpaces(p[1..], x);
    } else {
      assert p + x == x;
    }
  }

  /** Trailing white space is dropped whatever precedes it. */
  lemma {:induction false} TrimEndSpaces(x: string, q: string)
    requires forall i :: 0 <= i < |q| ==> IsSpace(q[i])
    ensures TrimEnd(x + q) == TrimEnd(x)
    decreases |q|
  {
    if |q| > 0 {
      var y := x + q;
      assert y[|y| - 1] == q[|q| - 1];
      assert y[..|y| - 1] == x + q[..|q| - 1];
      TrimEndSpaces(x, q[..|q| - 1]);
    } else {
      assert x + q == x;
    }
  }

  /** White space added on either side of a string does not survive the trim. */
  lemma TrimPadded(p: string, s: string, q: string)
    requires forall i :: 0 <= i < |p| ==> IsSpace(p[i])
    requires forall i :: 0 <= i < |q| ==> IsSpace(q[i])
    ensures Trim(p + s + q) == Trim(s)
  {
    assert p + s + q == p + (s + q);
    TrimStartSpaces(p, s + q);
    TrimStartAppend(s, q);
    if TrimStart(s) != [] {
      TrimEndSpaces(TrimStart(s), q);
    } else {
      TrimStartSpaces(q, []);
      assert q + [] == q;
    }
  }

  predicate EqualsIgnoreCase(a: string, b: string)
  {
    Lower(a) == Lower(b)
  }

  predicate StartsWith(s: string, prefix: string)
  {
    |prefix| <= |s| && s[..|prefix|] == prefix
  }

  /** `part` occurs in `s` at position `i`. */
  predicate SliceAt(s: string, part: string, i: int)
  {
    0 <= i <= |s| - |part| && s[i..i + |part|] == part
  }

  /** `String.prototype.includes`. */
  predicate Contains(s: string, part: string)
  {
    exists i | 0 <= i <= |s| - |part| :: SliceAt(s, part, i)
  }

  /** `indexOf` of one character: the first position, or -1. */
  function IndexOf(s: string, c: char): (r: int)
    ensures -1 <= r < |s|
    ensures r == -1 <==> c !in s
    ensures r >= 0 ==> s[r] == c && c !in s[..r]
  {
    if |s| == 0 then -1
    else if s[0] == c then 0
    else
      var k := IndexOf(s[1..], c);
      if k == -1 then -1
      else
        assert s[..k + 1] == [s[0]] + s[1..][..k];
        k + 1
  }

  /** `s.split(c)` for a one-character separator. */
  function Split(s: string, c: char): (r: seq<string>)
    ensures |r| >= 1
    ensures forall k :: 0 <= k < |r| ==> c !in r[k]
    decreases |s|
  {
    var i := IndexOf(s, c);
    if i < 0 then [s] else [s[..i]] + Split(s[i + 1..], c)
  }

  /** `parts.join(c)`. */
  function Join(parts: seq<string>, c: char): string
  {
    if |parts| == 0 then ""
    else if |parts| == 1 then parts[0]
    else parts[0] + [c] + Join(parts[1..], c)
  }

  lemma Join3(a: string, b: string, d: string, c: char)
    ensures Join([a, b, d], c) == a + [c] + b + [c] + d
  {
    assert [a, b, d][1..] == [b, d];
    assert [b, d][1..] == [d];
    assert Join([d], c) == d;
    assert Join([b, d], c) == b + [c] + d;
  }

  /** Where the two separators of three joined fields sit. */
  lemma SeparatorsAt(a: string, b: string, d: string, c: char)
    ensures var r := a + [c] + b + [c] + d; |r| == |a| + |b| + |d| + 2 && r[|a|] == c && r[|a| + 1 + |b|] == c
  {
    var r := a + [c] + b + [c] + d;
    assert r == (a + [c] + b) + ([c] + d);
  }

  /** Three separator-free fields joined by the separator split back into themselves. */
  lemma Split3(a: string, b: string, d: string, c: char)
    requires c !in a && c !in b && c !in d
    ensures Split(a + [c] + b + [c] + d, c) == [a, b, d]
  {
    var parts := [a, b, d];
    Join3(a, b, d, c);
    SplitJoin(parts, c);
  }

  /** Joining pieces that do not contain the separator and splitting again gives them back. */
  lemma {:induction false} SplitJoin(parts: seq<string>, c: char)
    requires |parts| >= 1
    requires forall k :: 0 <= k < |parts| ==> c !in parts[k]
    ensures Split(Join(parts, c), c) == parts
  {
    if |parts| == 1 {
      assert IndexOf(parts[0], c) == -1;
    } else {
      var s := Join(parts, c);
      var rest := Join(parts[1..], c);
      assert s == parts[0] + [c] + rest;
      var n := |parts[0]|;
      assert s[n] == c;
      assert s[..n] == parts[0];
      assert c !in s[..n];
      IndexOfFirst(s, c, n);
      assert s[n + 1..] == rest;
      SplitJoin(parts[1..], c);
    }
  }

  /** A string without the separator splits into itself alone. */
  lemma SplitWithout(s: string, c: char)
    requires c !in s
    ensures Split(s, c) == [s]
  {
  }

  /** `String.prototype.slice`'s reading of an index: a negative one counts from the
      end, and both are clamped to the string. */
  function SliceIndex(i: int, len: nat): (r: nat)
    ensures r <= len
  {
    if i < 0 then (if len + i < 0 then 0 else len + i) else if i > len then len else i
  }

  /** `s.slice(start, end)`. */
  function Slice(s: string, start: int, end: int): (r: string)
    ensures |r| <= |s|
  {
    var a := SliceIndex(start, |s|);
    var b := SliceIndex(end, |s|);
    if a < b then s[a..b] else ""
  }

  /** A character that is neither the separator nor in any piece is not in the join. */
  lemma {:induction false} NotInJoin(parts: seq<string>, c: char, x: char)
    requires x != c
    requires forall k :: 0 <= k < |parts| ==> x !in parts[k]
    ensures x !in Join(parts, c)
  {
    if |parts| >= 2 {
      NotInJoin(parts[1..], c, x);
    }
  }

  lemma IndexOfFirst(s: string, c: char, n: nat)
    requires n < |s| && s[n] == c && c !in s[..n]
    ensures IndexOf(s, c) == n
  {
    var i := IndexOf(s, c);
    assert s[..n][..] == s[..n];
  }

  lemma JoinCons(parts: seq<string>, c: char)
    requires |parts| >= 2
    ensures Join(parts, c) == parts[0] + [c] + Join(parts[1..], c)
  {
  }

  /** Splitting and joining again gives the original string. */
  lemma {:induction false} JoinSplit(s: string, c: char)
    ensures Join(Split(s, c), c) == s
    decreases |s|
  {
    var i := IndexOf(s, c);
    if i >= 0 {
      var head, rest := s[..i], s[i + 1..];
      var tail := Split(rest, c);
      JoinSplit(rest, c);
      var parts := [head] + tail;
      assert Split(s, c) == parts;
      assert parts[0] == head && parts[1..] == tail;
      JoinCons(parts, c);
      assert s == head + [c] + rest;
    }
  }

  /** Every character but white space, in order (`replace(/\s+/g, '')`). */
  function RemoveSpaces(s: string): (r: string)
    ensures |r| <= |s|
    ensures forall i :: 0 <= i < |r| ==> !IsSpace(r[i])
    ensures forall c :: c in s && !IsSpace(c) ==> c in r
    ensures forall c :: c in r ==> c in s
  {
    if s == [] then ""
    else
      var rest := RemoveSpaces(s[1..]);
      assert forall c :: c in s ==> c == s[0] || c in s[1..];
      if IsSpace(s[0]) then rest else [s[0]] + rest
  }

  predicate IsDigit(c: char)
  {
    '0' <= c <= '9'
  }

  function DigitValue(c: char): nat
    requires IsDigit(c)
  {
    c as int - '0' as int
  }

  function DigitChar(d: nat): (c: char)
    requires d < 10
    ensures IsDigit(c) && DigitValue(c) == d
  {
    ('0' as int + d) as char
  }

  /** The value of a string of decimal digits (0 for the empty string). */
  function DecimalValue(s: string): nat
    requires forall i :: 0 <= i < |s| ==> IsDigit(s[i])
  {
    if s == [] then 0 else DecimalValue(s[..|s| - 1]) * 10 + DigitValue(s[|s| - 1])
  }

  /** `n.toString()` for a non-negative integer. */
  function NatToString(n: nat): (r: string)
    ensures |r| >= 1
    ensures forall i :: 0 <= i < |r| ==> IsDigit(r[i])
    ensures DecimalValue(r) == n
    ensures n < 10 <==> |r| == 1
    ensures |r| > 1 ==> r[0] != '0'
  {
    if n < 10 then [DigitChar(n)]
    else
      var r := NatToString(n / 10) + [DigitChar(n % 10)];
      assert r[..|r| - 1] == NatToString(n / 10);
      r
  }

  /** Leading zeros do not change the value of a digit string. */
  lemma {:induction false} DecimalValueLeadingZeros(r: string, s: string)
    requires |s| <= |r| && r[|r| - |s|..] == s
    requires forall i :: 0 <= i < |r| ==> IsDigit(r[i])
    requires forall i :: 0 <= i < |r| - |s| ==> r[i] == '0'
    ensures DecimalValue(r) == DecimalValue(s)
    decreases |r|
  {
    if s == [] {
      ZerosValue(r);
    } else {
      var r', s' := r[..|r| - 1], s[..|s| - 1];
      assert r'[|r'| - |s'|..] == s';
      DecimalValueLeadingZeros(r', s');
    }
  }

  lemma {:induction false} ZerosValue(r: string)
    requires forall i :: 0 <= i < |r| ==> r[i] == '0'
    ensures DecimalValue(r) == 0
    decreases |r|
  {
    if r != [] {
      ZerosValue(r[..|r| - 1]);
    }
  }

  /** `padStart(width, '0')`: zeros in front up to `width` characters; never truncates. */
  function Zeros(n: nat): string
  {
    if n == 0 then [] else ['0'] + Zeros(n - 1)
  }

  lemma {:induction false} ZerosFacts(n: nat)
    ensures |Zeros(n)| == n
    ensures forall i :: 0 <= i < n ==> Zeros(n)[i] == '0'
  {
    if n > 0 {
      ZerosFacts(n - 1);
    }
  }

  function PadZeros(s: string, width: nat): string
  {
    if |s| >= width then s else Zeros(width - |s|) + s
  }

  /** `padStart(width, '0')`: zeros in front up to `width` characters, `s` at the end. */
  lemma PadZerosFacts(s: string, width: nat)
    ensures var r := PadZeros(s, width);
      && |r| == (if |s| >= width then |s| else width)
      && r[|r| - |s|..] == s
      && forall i :: 0 <= i < |r| - |s| ==> r[i] == '0'
  {
    if |s| < width {
      ZerosFacts(width - |s|);
      var r := PadZeros(s, width);
      assert r[|r| - |s|..] == s;
    }
  }

  /** `Number(s)` for plain decimal numerals, the form the option buttons store:
      surrounding white space is ignored and the blank string reads as 0. `None`
      stands for every other string, including the numerals `Number` also reads
      (a sign, a fraction or a trailing '.', an exponent, a hexadecimal prefix). */
  function NumberOf(s: string): Option<nat>
  {
    var t := Trim(s);
    if forall i :: 0 <= i < |t| ==> IsDigit(t[i]) then Some(DecimalValue(t)) else None
  }

  lemma DigitNotSpace(c: char)
    requires IsDigit(c)
    ensures !IsSpace(c)
  {
  }

  /** A numeral reads back as its number. */
  lemma NumberOfNumeral(n: nat)
    ensures NumberOf(NatToString(n)) == Some(n)
  {
    var r := NatToString(n);
    DigitNotSpace(r[0]);
    DigitNotSpace(r[|r| - 1]);
    TrimOfTrimmed(r);
  }

  /** A blank string reads as 0. */
  lemma NumberOfBlank(s: string)
    requires Trim(s) == ""
    ensures NumberOf(s) == Some(0)
  {
  }

  /** Lower-casing leaves a string without capitals unchanged. */
  lemma {:induction false} LowerOfLowercase(s: string)
    requires forall i :: 0 <= i < |s| ==> !('A' <= s[i] <= 'Z')
    ensures Lower(s) == s
  {
    if s != [] {
      LowerOfLowercase(s[1..]);
    }
  }

  /** `part` does not occur where its first character never appears early enough. */
  lemma NotContainsFirst(s: string, part: string)
    requires |part| > 0
    requires forall i :: 0 <= i <= |s| - |part| ==> s[i] != part[0]
    ensures !Contains(s, part)
  {
    forall i | 0 <= i <= |s| - |part|
      ensures !SliceAt(s, part, i)
    {
      assert s[i..i + |part|][0] == s[i];
    }
  }
}
