/** Strings as Go compares, trims and prints them: byte-wise (code point)
    ordering, Unicode white space, and decimal digits. */
module Text {

  /** `unicode.IsSpace`: the Latin-1 spaces plus the Unicode `Z` separators. */
  predicate IsSpace(c: char)
  {
    c == ' ' || c == '\t' || c == '\n' || c == '\U{000B}' || c == '\U{000C}' || c == '\r'
    || c == '\U{0085}' || c == '\U{00A0}' || c == '\U{1680}'
    || ('\U{2000}' <= c <= '\U{200A}')
    || c == '\U{2028}' || c == '\U{2029}' || c == '\U{202F}' || c == '\U{205F}' || c == '\U{3000}'
  }

  predicate AllSpace(s: string)
  {
    forall i :: 0 <= i < |s| ==> IsSpace(s[i])
  }

  function TrimLeft(s: string): (r: string)
    ensures |r| <= |s| && r == s[|s| - |r|..]
    ensures r == [] || !IsSpace(r[0])
    ensures AllSpace(s[..|s| - |r|])
  {
    if s == [] || !IsSpace(s[0]) then s
    else
      var r := TrimLeft(s[1..]);
      assert s[1..][..|s| - 1 - |r|] == s[1..|s| - |r|];
      r
  }

  function TrimRight(s: string): (r: string)
    ensures |r| <= |s| && r == s[..|r|]
    ensures r == [] || !IsSpace(r[|r| - 1])
    ensures AllSpace(s[|r|..])
  {
    if s == [] || !IsSpace(s[|s| - 1]) then s
    else
      var r := TrimRight(s[..|s| - 1]);
      assert s[..|s| - 1][|r|..] == s[|r|..|s| - 1];
      r
  }

  /** `strings.TrimSpace`. The result is empty exactly when the line holds
      nothing but white space. */
  function TrimSpace(s: string): (r: string)
    ensures r == [] <==> AllSpace(s)
    ensures r == [] || (!IsSpace(r[0]) && !IsSpace(r[|r| - 1]))
  {
    var l := TrimLeft(s);
    var r := TrimRight(l);
    assert r == [] ==> AllSpace(s) by {
      if r == [] { SpacesJoin(s[..|s| - |l|], l); assert s == s[..|s| - |l|] + l; }
    }
    r
  }

  /** Non-empty with no white space at either end. */
  predicate Tight(s: string)
  {
    s != [] && !IsSpace(s[0]) && !IsSpace(s[|s| - 1])
  }

  /** Trimming leaves a tight string alone. */
  lemma TrimTight(s: string)
    requires Tight(s)
    ensures TrimSpace(s) == s
  {
    assert TrimLeft(s) == s;
  }

  lemma SpacesJoin(a: string, b: string)
    requires AllSpace(a) && AllSpace(b)
    ensures AllSpace(a + b)
  {
  }

  /** Go's `a < b` on strings: lexicographic on bytes, which for valid
      UTF-8 is lexicographic on code points. */
  predicate LexLess(a: string, b: string)
  {
    if a == [] then b != []
    else if b == [] then false
    else if a[0] != b[0] then a[0] < b[0]
    else LexLess(a[1..], b[1..])
  }

  lemma {:induction false} LexIrreflexive(a: string)
    ensures !LexLess(a, a)
  {
    if a != [] { LexIrreflexive(a[1..]); }
  }

  lemma {:induction false} LexAsymmetric(a: string, b: string)
    ensures !(LexLess(a, b) && LexLess(b, a))
  {
    if a != [] && b != [] && a[0] == b[0] { LexAsymmetric(a[1..], b[1..]); }
  }

  lemma {:induction false} LexTransitive(a: string, b: string, c: string)
    requires LexLess(a, b) && LexLess(b, c)
    ensures LexLess(a, c)
  {
    if a != [] && a[0] == b[0] && b[0] == c[0] {
      LexTransitive(a[1..], b[1..], c[1..]);
    }
  }

  lemma {:induction false} LexTotal(a: string, b: string)
    ensures a == b || LexLess(a, b) || LexLess(b, a)
  {
    if a != [] && b != [] && a[0] == b[0] {
      LexTotal(a[1..], b[1..]);
      if a[1..] == b[1..] { assert a == [a[0]] + a[1..] && b == [b[0]] + b[1..]; }
    }
  }

  /** Strings of one length keep their order whatever follows them. */
  lemma {:induction false} LexAppend(p: string, q: string, x: string, y: string)
    requires |p| == |q| && LexLess(p, q)
    ensures LexLess(p + x, q + y)
  {
    assert (p + x)[0] == p[0] && (q + y)[0] == q[0];
    if p[0] == q[0] {
      assert (p + x)[1..] == p[1..] + x && (q + y)[1..] == q[1..] + y;
      LexAppend(p[1..], q[1..], x, y);
    }
  }

  /** A common prefix does not change the order. */
  lemma {:induction false} LexCommonPrefix(p: string, x: string, y: string)
    requires LexLess(x, y)
    ensures LexLess(p + x, p + y)
  {
    if p != [] {
      assert (p + x)[1..] == p[1..] + x && (p + y)[1..] == p[1..] + y;
      LexCommonPrefix(p[1..], x, y);
    } else {
      assert p + x == x && p + y == y;
    }
  }

  function DigitChar(d: nat): (c: char)
    requires d < 10
    ensures '0' <= c <= '9' && c as int - '0' as int == d
  {
    ('0' as int + d) as char
  }

  predicate IsDigit(c: char)
  {
    '0' <= c <= '9'
  }

  predicate AllDigits(s: string)
  {
    forall i :: 0 <= i < |s| ==> IsDigit(s[i])
  }

  function Pow10(w: nat): (r: nat)
    ensures r >= 1
  {
    if w == 0 then 1 else 10 * Pow10(w - 1)
  }

  /** The value of a string of decimal digits, most significant first. */
  function DigitsValue(s: string): (r: nat)
    requires AllDigits(s)
    ensures r < Pow10(|s|)
  {
    if s == [] then 0
    else DigitsValue(s[..|s| - 1]) * 10 + (s[|s| - 1] as int - '0' as int)
  }

  lemma {:induction false} DigitsConcat(a: string, b: string)
    requires AllDigits(a) && AllDigits(b)
    ensures AllDigits(a + b)
    ensures DigitsValue(a + b) == DigitsValue(a) * Pow10(|b|) + DigitsValue(b)
  {
    assert AllDigits(a + b) by {
      forall i | 0 <= i < |a + b| ensures IsDigit((a + b)[i]) {
        if i >= |a| { assert (a + b)[i] == b[i - |a|]; }
      }
    }
    if b == [] {
      assert a + b == a;
    } else {
      var ab := a + b;
      var b' := b[..|b| - 1];
      var d := b[|b| - 1] as int - '0' as int;
      assert ab[..|ab| - 1] == a + b';
      assert ab[|ab| - 1] == b[|b| - 1];
      DigitsConcat(a, b');
      var va, vb', p := DigitsValue(a), DigitsValue(b'), Pow10(|b'|);
      assert DigitsValue(ab) == (va * p + vb') * 10 + d by {
        assert DigitsValue(ab) == DigitsValue(a + b') * 10 + d;
      }
      assert DigitsValue(b) == vb' * 10 + d;
      assert Pow10(|b|) == p * 10;
      ShiftDecimal(va, p, vb');
    }
  }

  lemma ShiftDecimal(x: int, y: int, z: int)
    ensures (x * y + z) * 10 == x * (y * 10) + z * 10
  {
  }

  /** `n` written in exactly `w` decimal digits, zero-padded on the left
      (the least significant `w` digits when `n` is wider). */
  function Pad(n: nat, w: nat): (r: string)
    ensures |r| == w && AllDigits(r)
  {
    if w == 0 then [] else Pad(n / 10, w - 1) + [DigitChar(n % 10)]
  }

  lemma {:induction false} PadValue(n: nat, w: nat)
    requires n < Pow10(w)
    ensures DigitsValue(Pad(n, w)) == n
  {
    if w > 0 {
      PadValue(n / 10, w - 1);
      var p := Pad(n, w);
      assert p[..|p| - 1] == Pad(n / 10, w - 1);
    }
  }

  /** A digit string is the zero-padded form of its own value. */
  lemma {:induction false} DigitsPad(s: string)
    requires AllDigits(s)
    ensures s == Pad(DigitsValue(s), |s|)
  {
    if s != [] {
      var init := s[..|s| - 1];
      DigitsPad(init);
      var d := s[|s| - 1] as int - '0' as int;
      assert DigitsValue(s) / 10 == DigitsValue(init) && DigitsValue(s) % 10 == d;
      assert s == init + [s[|s| - 1]];
    }
  }

  /** Zero-padded numbers of one width sort as strings the way they sort as numbers. */
  lemma {:induction false} PadMonotone(a: nat, b: nat, w: nat)
    requires a < b < Pow10(w)
    ensures LexLess(Pad(a, w), Pad(b, w))
  {
    if a / 10 == b / 10 {
      assert Pad(a, w) == Pad(a / 10, w - 1) + [DigitChar(a % 10)];
      LexCommonPrefix(Pad(a / 10, w - 1), [DigitChar(a % 10)], [DigitChar(b % 10)]);
    } else {
      PadMonotone(a / 10, b / 10, w - 1);
      LexAppend(Pad(a / 10, w - 1), Pad(b / 10, w - 1), [DigitChar(a % 10)], [DigitChar(b % 10)]);
    }
  }

  /** `strconv.Itoa` on a natural number: shortest decimal form, "0" for zero. */
  function NatToString(n: nat): (r: string)
    ensures |r| >= 1 && AllDigits(r)
    ensures DigitsValue(r) == n
    ensures |r| == 1 || r[0] != '0'
  {
    if n < 10 then [DigitChar(n)]
    else
      var p := NatToString(n / 10);
      var r := p + [DigitChar(n % 10)];
      assert r[..|r| - 1] == p;
      r
  }

  /** Go's `%d` on a signed integer: a minus sign exactly for negative
      numbers, followed by the shortest decimal digits of the magnitude. */
  function IntToString(i: int): (r: string)
    ensures |r| >= 1
    ensures (i < 0) == (r[0] == '-')
    ensures var digits := if i < 0 then r[1..] else r;
      |digits| >= 1 && AllDigits(digits) && DigitsValue(digits) == (if i < 0 then -i else i) &&
      (|digits| == 1 || digits[0] != '0')
  {
    if i >= 0 then NatToString(i) else "-" + NatToString(-i)
  }
}
