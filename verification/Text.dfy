// Strings as the directory compares, prints and joins them.
module Text {

  datatype Option<+T> = None | Some(value: T)

  // Byte-wise string order: Rust's `str` comparison, and SQL's order on lower-case ids.
  predicate Less(a: string, b: string) {
    b != "" && (a == "" || a[0] < b[0] || (a[0] == b[0] && Less(a[1..], b[1..])))
  }

  predicate Leq(a: string, b: string) {
    a == b || Less(a, b)
  }

  lemma {:induction false} LessTrichotomy(a: string, b: string)
    ensures Less(a, b) || a == b || Less(b, a)
    ensures !(Less(a, b) && Less(b, a))
    ensures !Less(a, a)
  {
    if a != "" {
      LessTrichotomy(a[1..], if b == "" then "" else b[1..]);
      if b != "" && a[0] == b[0] && a[1..] == b[1..] {
        assert a == [a[0]] + a[1..] && b == [b[0]] + b[1..];
      }
    }
  }

  lemma {:induction false} LessTransitive(a: string, b: string, c: string)
    requires Less(a, b) && Less(b, c)
    ensures Less(a, c)
  {
    if a != "" && a[0] == b[0] == c[0] {
      LessTransitive(a[1..], b[1..], c[1..]);
    }
  }

  // A first field of fixed width decides the order of what follows it.
  lemma {:induction false} LessOfFixedWidth(a: string, b: string, x: string, y: string)
    requires |a| == |b|
    ensures Less(a + x, b + y) <==> Less(a, b) || (a == b && Less(x, y))
  {
    if a == "" {
      assert a + x == x && b + y == y;
    } else {
      LessOfFixedWidth(a[1..], b[1..], x, y);
      assert (a + x)[1..] == a[1..] + x && (b + y)[1..] == b[1..] + y;
      assert a == b <==> a[0] == b[0] && a[1..] == b[1..] by {
        assert a == [a[0]] + a[1..] && b == [b[0]] + b[1..];
      }
    }
  }

  function DigitChar(d: nat): (c: char)
    requires d < 10
    ensures '0' <= c <= '9' && c as int == '0' as int + d
  {
    ('0' as int + d) as char
  }

  // `{n}` for a non-negative integer.
  function Digits(n: nat): string {
    if n < 10 then [DigitChar(n)] else Digits(n / 10) + [DigitChar(n % 10)]
  }

  // `{n}` for a signed integer.
  function Decimal(n: int): string {
    if n < 0 then "-" + Digits(-n) else Digits(n)
  }

  // `{n:0w$}`: at least `w` digits, padded with zeros on the left.
  function Padded(n: nat, w: nat): string {
    var s := Digits(n);
    if |s| < w then seq(w - |s|, _ => '0') + s else s
  }

  ghost predicate AllDigits(s: string) {
    forall i :: 0 <= i < |s| ==> '0' <= s[i] <= '9'
  }

  ghost function ValueOf(s: string): int {
    if s == "" then 0 else 10 * ValueOf(s[..|s| - 1]) + (s[|s| - 1] as int - '0' as int)
  }

  ghost function Pow10(k: nat): nat {
    if k == 0 then 1 else 10 * Pow10(k - 1)
  }

  lemma {:induction false} DigitsSpec(n: nat)
    ensures AllDigits(Digits(n)) && Digits(n) != ""
    ensures ValueOf(Digits(n)) == n
  {
    if n < 10 {
      assert Digits(n)[..0] == "";
    } else {
      DigitsSpec(n / 10);
      assert Digits(n)[..|Digits(n)| - 1] == Digits(n / 10);
    }
  }

  lemma {:induction false} DigitsLength(n: nat, k: nat)
    requires 1 <= k && n < Pow10(k)
    ensures |Digits(n)| <= k
  {
    if n >= 10 {
      DigitsLength(n / 10, k - 1);
    }
  }

  lemma DecimalInjective(m: int, n: int)
    requires Decimal(m) == Decimal(n)
    ensures m == n
  {
    DigitsSpec(if m < 0 then -m else m);
    DigitsSpec(if n < 0 then -n else n);
    assert (m < 0) == (Decimal(m)[0] == '-') && (n < 0) == (Decimal(n)[0] == '-');
    if m < 0 {
      assert Decimal(m)[1..] == Digits(-m) && Decimal(n)[1..] == Digits(-n);
    }
  }

  // Regrouping and cutting of joined texts.
  lemma Regroup(a: string, b: string, c: string)
    ensures (a + b) + c == a + (b + c)
    ensures (a + b)[|a|..] == b && (a + b)[..|a|] == a
  {
  }

  ghost predicate ColonFree(s: string) {
    ':' !in s
  }

  lemma DecimalColonFree(n: int)
    ensures ColonFree(Decimal(n))
  {
    DigitsSpec(if n < 0 then -n else n);
  }

  predicate InI64(n: int) {
    -0x8000_0000_0000_0000 <= n < 0x8000_0000_0000_0000
  }

  lemma DecimalI64Length(n: int)
    requires InI64(n)
    ensures |Decimal(n)| <= 20
  {
    assert Pow10(10) == 10_000_000_000;
    assert Pow10(19) == 10_000_000_000_000_000_000;
    DigitsLength(if n < 0 then -n else n, 19);
  }

  // Fields up to the first colon can be read back.
  lemma SplitAtColon(a: string, x: string, b: string, y: string)
    requires ColonFree(a) && ColonFree(b)
    requires a + ":" + x == b + ":" + y
    ensures a == b && x == y
  {
    var s, t := a + ":" + x, b + ":" + y;
    assert s[|a|] == ':' && t[|b|] == ':';
    assert |a| == |b|;
    assert a == s[..|a|] && b == t[..|b|];
    assert x == s[|a| + 1..] && y == t[|b| + 1..];
  }

  lemma DigitsFromLast(u: int, v: int, c: int, d: int)
    requires 0 <= c < 10 && 0 <= d < 10
    ensures 10 * u + c < 10 * v + d <==> u < v || (u == v && c < d)
    ensures 10 * u + c == 10 * v + d <==> u == v && c == d
  {
  }

  lemma LessOfOne(c: char, d: char)
    ensures Less([c], [d]) <==> c < d
  {
  }

  lemma ValueOfAppend(s: string, c: char)
    ensures ValueOf(s + [c]) == 10 * ValueOf(s) + (c as int - '0' as int)
  {
    assert (s + [c])[..|s|] == s;
  }

  // One digit more on texts that compare like their values.
  lemma LastDigitCompares(s: string, t: string, c: char, d: char)
    requires |s| == |t| && '0' <= c <= '9' && '0' <= d <= '9'
    requires (Less(s, t) <==> ValueOf(s) < ValueOf(t)) && (s == t <==> ValueOf(s) == ValueOf(t))
    ensures Less(s + [c], t + [d]) <==> ValueOf(s + [c]) < ValueOf(t + [d])
    ensures ValueOf(s + [c]) == ValueOf(t + [d]) <==> s == t && c == d
  {
    ValueOfAppend(s, c);
    ValueOfAppend(t, d);
    LessOfFixedWidth(s, t, [c], [d]);
    LessOfOne(c, d);
    DigitsFromLast(ValueOf(s), ValueOf(t), c as int - '0' as int, d as int - '0' as int);
  }

  // Two numbers printed at the same width compare as strings the way they compare.
  lemma {:induction false} DigitStringsCompare(s: string, t: string)
    requires AllDigits(s) && AllDigits(t) && |s| == |t|
    ensures Less(s, t) <==> ValueOf(s) < ValueOf(t)
    ensures s == t <==> ValueOf(s) == ValueOf(t)
    ensures 0 <= ValueOf(s) < Pow10(|s|)
  {
    if s != "" {
      var n := |s| - 1;
      DigitStringsCompare(s[..n], t[..n]);
      LastDigitCompares(s[..n], t[..n], s[n], t[n]);
      assert s == s[..n] + [s[n]] && t == t[..n] + [t[n]];
    }
  }

  lemma {:induction false} PaddingKeepsValue(z: nat, s: string)
    ensures ValueOf(seq(z, _ => '0') + s) == ValueOf(s)
    decreases z + |s|
  {
    var p := seq(z, _ => '0') + s;
    if s != "" {
      assert p[..|p| - 1] == seq(z, _ => '0') + s[..|s| - 1];
      PaddingKeepsValue(z, s[..|s| - 1]);
    } else if z > 0 {
      assert p[..|p| - 1] == seq(z - 1, _ => '0') + s;
      PaddingKeepsValue(z - 1, s);
    } else {
      assert p == s;
    }
  }

  lemma PaddedSpec(n: nat, w: nat)
    requires 1 <= w && n < Pow10(w)
    ensures |Padded(n, w)| == w && AllDigits(Padded(n, w)) && ValueOf(Padded(n, w)) == n
  {
    DigitsSpec(n);
    DigitsLength(n, w);
    PaddingKeepsValue(w - |Digits(n)|, Digits(n));
    if |Digits(n)| == w {
      assert seq(0, _ => '0') + Digits(n) == Digits(n);
    }
  }
}

// Sorting texts: the order is total and distinct texts never tie.
module TextSorting {
  import opened Text
  import opened Sorting

  lemma TextOrder()
    ensures TotalPreorder(Leq)
    ensures forall s: seq<string> :: NoTies(s, Leq)
  {
    forall a, b
      ensures Leq(a, b) || Leq(b, a)
      ensures Leq(a, b) && Leq(b, a) ==> a == b
    {
      LessTrichotomy(a, b);
    }
    forall a, b, c | Leq(a, b) && Leq(b, c)
      ensures Leq(a, c)
    {
      if Less(a, b) && Less(b, c) {
        LessTransitive(a, b, c);
      }
    }
  }
}
