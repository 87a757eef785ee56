/** String helpers the compiler relies on implicitly: number-to-text
    conversion in generated names, " > "-joined paths, duplicate detection and
    the default ordering that `Array.prototype.sort` applies to strings
    (code unit by code unit). */
module Text {

  /** The decimal digit for 0..9. */
  function Digit(d: nat): (c: char)
    requires d < 10
    ensures '0' <= c <= '9'
    ensures c as int - '0' as int == d
  {
    ['0', '1', '2', '3', '4', '5', '6', '7', '8', '9'][d]
  }

  /** Decimal text of a natural number, as `"" + n` renders it. */
  function NatToString(n: nat): (s: string)
    ensures |s| >= 1
    ensures forall i :: 0 <= i < |s| ==> '0' <= s[i] <= '9'
    ensures DigitsValue(s) == n
    ensures n >= 10 <==> |s| >= 2
    ensures s[0] == '0' ==> n == 0
    decreases n
  {
    if n < 10 then [Digit(n)] else NatToString(n / 10) + [Digit(n % 10)]
  }

  /** The number denoted by a string of decimal digits. */
  function DigitsValue(s: string): int
  {
    if s == [] then 0 else DigitsValue(s[..|s| - 1]) * 10 + (s[|s| - 1] as int - '0' as int)
  }

  /** The decimal text is the only one for its number: a digit string
      without a leading zero (other than "0" itself) is the text of the
      number it denotes. */
  lemma {:induction false} DigitsCanonical(s: string, n: nat)
    requires |s| >= 1 && forall i :: 0 <= i < |s| ==> '0' <= s[i] <= '9'
    requires s[0] == '0' ==> |s| == 1
    requires DigitsValue(s) == n
    ensures s == NatToString(n)
    decreases |s|
  {
    var d := s[|s| - 1] as int - '0' as int;
    var init := s[..|s| - 1];
    assert s == init + [Digit(d)];
    if |s| == 1 {
      assert init == [];
    } else {
      var v := DigitsValue(init);
      assert v >= 1 && init == NatToString(v) by {
        assert init[0] == s[0] != '0';
        DigitsNonNegative(init);
        DigitsCanonical(init, v);
        assert NatToString(0) == ['0'];
      }
      assert n == v * 10 + d;
      NatToStringStep(v, d);
    }
  }

  lemma {:induction false} DigitsNonNegative(s: string)
    requires forall i :: 0 <= i < |s| ==> '0' <= s[i] <= '9'
    ensures DigitsValue(s) >= 0
    decreases |s|
  {
    if s != [] {
      DigitsNonNegative(s[..|s| - 1]);
    }
  }

  /** Appending a digit to the text of a positive number gives the text
      of ten times the number plus the digit. */
  lemma NatToStringStep(v: nat, d: nat)
    requires v >= 1 && d < 10
    ensures NatToString(v * 10 + d) == NatToString(v) + [Digit(d)]
  {
    DivideByTen(v, d);
  }

  lemma DivideByTen(v: nat, d: nat)
    requires d < 10
    ensures (v * 10 + d) / 10 == v && (v * 10 + d) % 10 == d
    ensures v >= 1 ==> v * 10 + d >= 10
  {
  }

  /** Distinct numbers have distinct decimal texts, so the generated names
      "#1", "#2", ... never collide with each other. */
  lemma NatToStringInjective(m: nat, n: nat)
    requires m != n
    ensures NatToString(m) != NatToString(n)
  {
    // both texts denote their number
  }

  /** `parts` joined by `sep`, as Array.prototype.join and repeated
      `a + sep + b` both produce. */
  function Join(parts: seq<string>, sep: string): (r: string)
    ensures parts == [] ==> r == ""
    ensures |parts| == 1 ==> r == parts[0]
  {
    if parts == [] then ""
    else if |parts| == 1 then parts[0]
    else Join(parts[..|parts| - 1], sep) + sep + parts[|parts| - 1]
  }

  /** No element occurs twice. */
  predicate NoDuplicates<T(==)>(s: seq<T>)
  {
    forall i, j :: 0 <= i < j < |s| ==> s[i] != s[j]
  }

  /** The place of a character in the order of its UTF-16 code units:
      characters below the surrogate block keep their value, characters
      beyond the Basic Multilingual Plane (whose first code unit is a high
      surrogate, 0xD800..0xDBFF) come next, and the characters 0xE000..0xFFFF
      come last. */
  function CodeUnitRank(c: char): int
  {
    if c as int < 0xD800 then c as int
    else if c as int < 0x10000 then c as int + 0x110000
    else c as int
  }

  /** The UTF-16 code units of a character: itself, or a surrogate pair. */
  function CodeUnits(c: char): (r: seq<int>)
    ensures 1 <= |r| <= 2
  {
    if c as int < 0x10000 then [c as int]
    else [0xD800 + (c as int - 0x10000) / 0x400, 0xDC00 + (c as int - 0x10000) % 0x400]
  }

  /** The UTF-16 encoding of a string, the form the host compares. */
  function Utf16(s: string): seq<int>
  {
    if s == [] then [] else CodeUnits(s[0]) + Utf16(s[1..])
  }

  /** Lexicographic order on code-unit sequences: the default comparison of
      `Array.prototype.sort`. */
  predicate UnitsLe(x: seq<int>, y: seq<int>)
  {
    if x == [] then true
    else if y == [] then false
    else if x[0] != y[0] then x[0] < y[0]
    else UnitsLe(x[1..], y[1..])
  }

  /** The default string order, character by character. */
  predicate StrLe(a: string, b: string)
  {
    if a == [] then true
    else if b == [] then false
    else if a[0] != b[0] then CodeUnitRank(a[0]) < CodeUnitRank(b[0])
    else StrLe(a[1..], b[1..])
  }

  /** Comparing strings character by character is comparing their UTF-16
      code units, as the host's `sort()` does. */
  lemma {:induction false} StrLeIsCodeUnitOrder(a: string, b: string)
    ensures StrLe(a, b) <==> UnitsLe(Utf16(a), Utf16(b))
  {
    if a == [] || b == [] {
    } else if a[0] == b[0] {
      StrLeIsCodeUnitOrder(a[1..], b[1..]);
      CommonPrefix(CodeUnits(a[0]), Utf16(a[1..]), Utf16(b[1..]));
    } else {
      FirstCharDecides(a[0], b[0], Utf16(a[1..]), Utf16(b[1..]));
    }
  }

  lemma {:induction false} CommonPrefix(u: seq<int>, x: seq<int>, y: seq<int>)
    ensures UnitsLe(u + x, u + y) == UnitsLe(x, y)
  {
    if u != [] {
      assert (u + x)[1..] == u[1..] + x;
      assert (u + y)[1..] == u[1..] + y;
      CommonPrefix(u[1..], x, y);
    } else {
      assert u + x == x && u + y == y;
    }
  }

  /** Two different characters: their code units decide at once. */
  lemma FirstCharDecides(c: char, d: char, x: seq<int>, y: seq<int>)
    requires c != d
    ensures UnitsLe(CodeUnits(c) + x, CodeUnits(d) + y) == (CodeUnitRank(c) < CodeUnitRank(d))
  {
    var u, v := CodeUnits(c) + x, CodeUnits(d) + y;
    if c as int >= 0x10000 && d as int >= 0x10000 {
      var p, q := c as int - 0x10000, d as int - 0x10000;
      if p / 0x400 == q / 0x400 {
        assert u[1..] == CodeUnits(c)[1..] + x;
        assert v[1..] == CodeUnits(d)[1..] + y;
        assert p % 0x400 != q % 0x400;
      }
    }
  }

  /** A character beyond the Basic Multilingual Plane sorts before U+FFFF. */
  lemma SupplementaryBeforeLastBmp()
    ensures StrLe("\U{1F600}", "\U{FFFF}") && !StrLe("\U{FFFF}", "\U{1F600}")
  {
  }

  lemma {:induction false} StrLeTotal(a: string, b: string)
    ensures StrLe(a, b) || StrLe(b, a)
  {
    if a != [] && b != [] && a[0] == b[0] {
      StrLeTotal(a[1..], b[1..]);
    }
  }

  lemma {:induction false} StrLeTransitive(a: string, b: string, c: string)
    requires StrLe(a, b) && StrLe(b, c)
    ensures StrLe(a, c)
  {
    if a != [] && b != [] && c != [] && a[0] == b[0] == c[0] {
      StrLeTransitive(a[1..], b[1..], c[1..]);
    }
  }

  lemma {:induction false} StrLeAntisymmetric(a: string, b: string)
    requires StrLe(a, b) && StrLe(b, a)
    ensures a == b
  {
    if a != [] && b != [] {
      StrLeAntisymmetric(a[1..], b[1..]);
      assert a == [a[0]] + a[1..] && b == [b[0]] + b[1..];
    }
  }

  predicate SortedStrings(s: seq<string>)
  {
    forall i, j :: 0 <= i < j < |s| ==> StrLe(s[i], s[j])
  }

  /** Inserts `x` into a sorted sequence, before the first greater element. */
  function Insert(x: string, s: seq<string>): (r: seq<string>)
    requires SortedStrings(s)
    ensures SortedStrings(r)
    ensures multiset(r) == multiset(s) + multiset{x}
    ensures |r| == |s| + 1
    decreases |s|
  {
    if s == [] then [x]
    else if StrLe(x, s[0]) then
      SmallestFirst(x, s);
      [x] + s
    else
      var rest := Insert(x, s[1..]);
      HeadBeforeInserted(x, s, rest);
      assert multiset([s[0]] + rest) == multiset{s[0]} + multiset(rest);
      assert multiset(s) == multiset{s[0]} + multiset(s[1..]) by {
        assert s == [s[0]] + s[1..];
      }
      [s[0]] + rest
  }

  /** An element no greater than the head of a sorted sequence may go first. */
  lemma SmallestFirst(x: string, s: seq<string>)
    requires s != [] && SortedStrings(s) && StrLe(x, s[0])
    ensures SortedStrings([x] + s)
  {
    forall j | 0 < j < |s|
      ensures StrLe(x, s[j])
    {
      StrLeTransitive(x, s[0], s[j]);
    }
    assert forall i :: 0 < i <= |s| ==> ([x] + s)[i] == s[i - 1];
  }

  /** The head of a sorted sequence stays first when a greater element is
      inserted into its tail. */
  lemma HeadBeforeInserted(x: string, s: seq<string>, rest: seq<string>)
    requires s != [] && SortedStrings(s) && !StrLe(x, s[0])
    requires SortedStrings(rest) && multiset(rest) == multiset(s[1..]) + multiset{x}
    ensures SortedStrings([s[0]] + rest)
  {
    StrLeTotal(x, s[0]);
    forall j | 0 <= j < |rest|
      ensures StrLe(s[0], rest[j])
    {
      var y := rest[j];
      assert y in multiset(rest);
      if y != x {
        assert y in multiset(s[1..]);
        var k :| 0 <= k < |s[1..]| && s[1..][k] == y;
        assert s[k + 1] == y;
      }
    }
  }

  /** Insertion sort standing in for the host's in-place `sort()`. */
  function Sort(s: seq<string>): (r: seq<string>)
    ensures SortedStrings(r)
    ensures multiset(r) == multiset(s)
    ensures |r| == |s|
  {
    if s == [] then []
    else
      assert s == [s[0]] + s[1..];
      Insert(s[0], Sort(s[1..]))
  }
}
