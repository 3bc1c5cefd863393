/**
 * The client-side normalisation in the gateway's web page (app/gateway/frontend/app.js):
 * `formatCurrency`, which the balance field applies on every keystroke, and the field
 * rules of `formToPayload`, which turns the submitted form into the payload object that
 * `JSON.stringify` then writes into the request body.
 * JavaScript numbers are modelled as exact rationals (see README).
 */
module Frontend {
  import opened Wrappers

  // ------------------------------------------------------------ digit strings

  predicate IsDigit(c: char) {
    '0' <= c <= '9'
  }

  predicate AllDigits(s: string) {
    forall i :: 0 <= i < |s| ==> IsDigit(s[i])
  }

  function DigitChar(d: nat): (c: char)
    requires d < 10
    ensures IsDigit(c)
  {
    ('0' as int + d) as char
  }

  function DigitVal(c: char): (d: nat)
    requires IsDigit(c)
    ensures d < 10
  {
    c as int - '0' as int
  }

  function Pow10(n: nat): (p: nat)
    ensures p >= 1
  {
    if n == 0 then 1 else 10 * Pow10(n - 1)
  }

  lemma {:induction false} Pow10Monotone(m: nat, n: nat)
    requires m <= n
    ensures Pow10(m) <= Pow10(n)
    decreases n
  {
    if m < n {
      Pow10Monotone(m, n - 1);
    }
  }

  /** `Number(s)` for a string of decimal digits (leading zeros allowed). */
  function DigitsValue(s: string): nat
    requires AllDigits(s)
    decreases |s|
  {
    if s == [] then 0 else 10 * DigitsValue(s[..|s| - 1]) + DigitVal(s[|s| - 1])
  }

  /** Reading a digit string in two pieces: the left piece counts in units of the right's width. */
  lemma {:induction false} DigitsValueAppend(a: string, b: string)
    requires AllDigits(a) && AllDigits(b)
    ensures AllDigits(a + b)
    ensures DigitsValue(a + b) == DigitsValue(a) * Pow10(|b|) + DigitsValue(b)
    decreases |b|
  {
    AllDigitsAppend(a, b);
    if b != [] {
      var b' := b[..|b| - 1];
      var d := DigitVal(b[|b| - 1]);
      assert DigitsValue(a + b) == 10 * DigitsValue(a + b') + d by {
        assert (a + b)[..|a + b| - 1] == a + b';
        assert (a + b)[|a + b| - 1] == b[|b| - 1];
      }
      DigitsValueAppend(a, b');
      ShiftLeft(DigitsValue(a), Pow10(|b'|), DigitsValue(b'), d);
    } else {
      assert a + b == a;
    }
  }

  lemma AllDigitsAppend(a: string, b: string)
    requires AllDigits(a) && AllDigits(b)
    ensures AllDigits(a + b)
  {
    forall i | 0 <= i < |a + b| ensures IsDigit((a + b)[i]) {
      if i >= |a| {
        assert (a + b)[i] == b[i - |a|];
      }
    }
  }

  /** One more digit on the right multiplies what stands to its left by ten. */
  lemma ShiftLeft(va: nat, p: nat, vb: nat, d: nat)
    ensures 10 * (va * p + vb) + d == va * (10 * p) + (10 * vb + d)
  {
    assert 10 * (va * p) == va * (10 * p);
  }

  /** The decimal representation of a natural number, without leading zeros. */
  function NatToDecimal(n: nat): (s: string)
    ensures AllDigits(s) && |s| >= 1
    ensures DigitsValue(s) == n
    ensures s[0] == '0' <==> n == 0
    ensures n < Pow10(|s|) && (n >= 10 ==> Pow10(|s| - 1) <= n)
    decreases n
  {
    if n < 10 then [DigitChar(n)]
    else
      var s := NatToDecimal(n / 10) + [DigitChar(n % 10)];
      assert s[..|s| - 1] == NatToDecimal(n / 10);
      s
  }

  /** Two digits, with a leading zero below ten. */
  function TwoDigits(m: nat): (s: string)
    requires m < 100
    ensures AllDigits(s) && |s| == 2
    ensures DigitsValue(s) == m
  {
    var s := [DigitChar(m / 10), DigitChar(m % 10)];
    assert s[..1] == [DigitChar(m / 10)] && s[..1][..0] == [];
    assert DigitsValue(s[..1]) == m / 10;
    s
  }

  // ------------------------------------------------------------ string operations

  /** The characters of `s` that `keep` accepts, in order (a global `replace` of the others by ''). */
  function Keep(s: string, keep: char -> bool): (r: string)
    ensures forall i :: 0 <= i < |r| ==> keep(r[i])
    decreases |s|
  {
    if s == [] then []
    else Keep(s[..|s| - 1], keep) + (if keep(s[|s| - 1]) then [s[|s| - 1]] else [])
  }

  lemma {:induction false} KeepAppend(a: string, b: string, keep: char -> bool)
    ensures Keep(a + b, keep) == Keep(a, keep) + Keep(b, keep)
    decreases |b|
  {
    if b != [] {
      var b' := b[..|b| - 1];
      assert (a + b)[..|a + b| - 1] == a + b';
      assert (a + b)[|a + b| - 1] == b[|b| - 1];
      KeepAppend(a, b', keep);
    } else {
      assert a + b == a;
    }
  }

  lemma {:induction false} KeepAll(s: string, keep: char -> bool)
    requires forall i :: 0 <= i < |s| ==> keep(s[i])
    ensures Keep(s, keep) == s
    decreases |s|
  {
    if s != [] {
      KeepAll(s[..|s| - 1], keep);
    }
  }

  /** Inserting a character the filter drops does not change what it keeps. */
  lemma {:induction false} InsertDropped(s: string, k: int, c: char, keep: char -> bool)
    requires 0 <= k <= |s| && !keep(c)
    ensures Keep(s[..k] + [c] + s[k..], keep) == Keep(s, keep)
  {
    var x, y := s[..k], s[k..];
    assert Keep(x + [c] + y, keep) == Keep(x + [c], keep) + Keep(y, keep) by {
      KeepAppend(x + [c], y, keep);
    }
    assert Keep(x + [c], keep) == Keep(x, keep) by {
      assert (x + [c])[..|x + [c]| - 1] == x;
    }
    assert Keep(s, keep) == Keep(x, keep) + Keep(y, keep) by {
      assert x + y == s;
      KeepAppend(x, y, keep);
    }
  }

  /** `s.replace(a, b)` with a one-character string pattern: only the first `a` is replaced. */
  function ReplaceFirst(s: string, a: char, b: char): (r: string)
    ensures |r| == |s|
    decreases |s|
  {
    if s == [] then []
    else if s[0] == a then [b] + s[1..]
    else [s[0]] + ReplaceFirst(s[1..], a, b)
  }

  lemma {:induction false} ReplaceFirstAt(x: string, y: string, a: char, b: char)
    requires a !in x
    ensures ReplaceFirst(x + [a] + y, a, b) == x + [b] + y
    decreases |x|
  {
    if x != [] {
      assert (x + [a] + y)[1..] == x[1..] + [a] + y;
      ReplaceFirstAt(x[1..], y, a, b);
    }
  }

  lemma {:induction false} ReplaceFirstAbsent(s: string, a: char, b: char)
    requires a !in s
    ensures ReplaceFirst(s, a, b) == s
    decreases |s|
  {
    if s != [] {
      ReplaceFirstAbsent(s[1..], a, b);
    }
  }

  /** `s.slice(0, k) + c + s.slice(k)`. */
  function InsertAt(s: string, k: int, c: char): (r: string)
    requires 0 <= k <= |s|
    ensures |r| == |s| + 1
  {
    s[..k] + [c] + s[k..]
  }

  // ------------------------------------------------------------ formatCurrency

  /** `x.toFixed(2)` for `x` = `cents / 100`, written without floating point. */
  function ToFixed2(cents: nat): string {
    NatToDecimal(cents / 100) + "." + TwoDigits(cents % 100)
  }

  /**
   * `s.replace(/(\d)(\d{3})(,\d{2})$/, '$1.$2$3')`: the pattern has a fixed width of
   * seven and is anchored at the end, so it can only match the last seven characters;
   * the replacement puts a dot after the first of them.
   */
  function DotBeforeLastThousand(s: string): string {
    if |s| >= 7 && IsDigit(s[|s| - 7]) && AllDigits(s[|s| - 6..|s| - 3])
       && s[|s| - 3] == ',' && IsDigit(s[|s| - 2]) && IsDigit(s[|s| - 1])
    then InsertAt(s, |s| - 6, '.')
    else s
  }

  /** `(\d)(\d{3}\.)` matches at position `p`. */
  predicate ThousandDotAt(s: string, p: nat) {
    p + 5 <= |s| && AllDigits(s[p..p + 4]) && s[p + 4] == '.'
  }

  /** The leftmost match of `(\d)(\d{3}\.)` at or after `p`. */
  function FirstThousandDot(s: string, p: nat): (r: Option<nat>)
    ensures r.Some? ==> p <= r.value && ThousandDotAt(s, r.value)
    ensures r.Some? ==> forall j :: p <= j < r.value ==> !ThousandDotAt(s, j)
    ensures r.None? ==> forall j :: p <= j ==> !ThousandDotAt(s, j)
    decreases |s| - p
  {
    if p + 5 > |s| then None
    else if ThousandDotAt(s, p) then Some(p)
    else FirstThousandDot(s, p + 1)
  }

  /** `s.replace(/(\d)(\d{3}\.)/, '$1.$2')`: a dot after the first digit of the leftmost match. */
  function DotBeforeNextThousand(s: string): string {
    match FirstThousandDot(s, 0)
    case None => s
    case Some(p) => InsertAt(s, p + 1, '.')
  }

  /** What `formatCurrency` builds once the digits have been read as the number of cents `n`. */
  function FormatCents(n: nat): string {
    "R$ " + DotBeforeNextThousand(DotBeforeLastThousand(ReplaceFirst(ToFixed2(n), '.', ',')))
  }

  /**
   * `formatCurrency(value)` as written: the digits of `value`, read as a number of
   * cents, in the Brazilian currency format; "" when `value` has no digit.
   */
  function FormatCurrency(value: string): string {
    if Digits(value) == [] then "" else FormatCents(Cents(value))
  }

  /** `value.replace(/\D/g, '')`. */
  function Digits(value: string): (num: string)
    ensures AllDigits(num)
  {
    Keep(value, IsDigit)
  }

  /** `Number(value.replace(/\D/g, ''))`: the digits of `value` read as one number. */
  function Cents(value: string): nat {
    DigitsValue(Digits(value))
  }

  /** Brazilian grouping of an integer part: a dot before every full group of three digits from the right. */
  function Grouped(i: string): string
    decreases |i|
  {
    if |i| <= 3 then i else Grouped(i[..|i| - 3]) + "." + i[|i| - 3..]
  }

  /** The evidently intended result for `n` cents: the whole integer part grouped in thousands. */
  function FormatCentsGrouped(n: nat): string {
    "R$ " + Grouped(NatToDecimal(n / 100)) + "," + TwoDigits(n % 100)
  }

  /** The evidently intended `formatCurrency`. */
  function FormatCurrencyGrouped(value: string): string {
    if Digits(value) == [] then "" else FormatCentsGrouped(Cents(value))
  }

  // ------------------------------------------------------------ what the two regular expressions do

  /**
   * The dots the two replacements put into an integer part `i`: one before the last
   * three digits when there are at least four, and one more before the three digits
   * ahead of those when there are at least seven in all; never a third.
   */
  function WrittenGrouping(i: string): string
    requires |i| >= 1
  {
    if |i| <= 3 then i
    else if |i| <= 6 then InsertAt(i, |i| - 3, '.')
    else
      var p := i[..|i| - 3];
      InsertAt(p, |p| - 3, '.') + "." + i[|i| - 3..]
  }

  lemma LastThousandShape(i: string, c: string)
    requires AllDigits(i) && |i| >= 1 && AllDigits(c) && |c| == 2
    ensures DotBeforeLastThousand(i + "," + c)
         == (if |i| >= 4 then InsertAt(i, |i| - 3, '.') + "," + c else i + "," + c)
  {
    var s := i + "," + c;
    if |i| >= 4 {
      assert s[|s| - 7] == i[|i| - 4];
      assert s[|s| - 6..|s| - 3] == i[|i| - 3..];
      assert s[|s| - 3] == ',' && s[|s| - 2] == c[0] && s[|s| - 1] == c[1];
      assert s[..|s| - 6] == i[..|i| - 3];
      assert s[|s| - 6..] == i[|i| - 3..] + "," + c;
    }
  }

  lemma NoThousandDotWithoutDot(s: string)
    requires '.' !in s
    ensures DotBeforeNextThousand(s) == s
  {
  }

  lemma NextThousandShape(p: string, l: string, c: string)
    requires AllDigits(p) && AllDigits(l) && |l| == 3 && AllDigits(c) && |c| == 2
    ensures DotBeforeNextThousand(p + "." + l + "," + c)
         == (if |p| >= 4 then InsertAt(p, |p| - 3, '.') + "." + l + "," + c else p + "." + l + "," + c)
  {
    var s := p + "." + l + "," + c;
    var r := FirstThousandDot(s, 0);
    forall j | 0 <= j && ThousandDotAt(s, j) ensures j + 4 == |p| {
    }
    if |p| >= 4 {
      assert s[|p| - 4..|p|] == p[|p| - 4..];
      assert ThousandDotAt(s, |p| - 4);
      assert r == Some(|p| - 4);
      assert s[..|p| - 3] == p[..|p| - 3];
      assert s[|p| - 3..] == p[|p| - 3..] + "." + l + "," + c;
    } else {
      assert r.None?;
    }
  }

  /** `toFixed(2)` followed by the dot-to-comma replacement. */
  lemma CommaDecimal(n: nat)
    ensures ReplaceFirst(ToFixed2(n), '.', ',') == NatToDecimal(n / 100) + "," + TwoDigits(n % 100)
  {
    var i, c := NatToDecimal(n / 100), TwoDigits(n % 100);
    assert '.' !in i;
    ReplaceFirstAt(i, c, '.', ',');
    assert ToFixed2(n) == i + ['.'] + c;
  }

  /** The two regular-expression replacements on "<integer part>,<cents>". */
  lemma RegexShape(i: string, c: string)
    requires AllDigits(i) && |i| >= 1 && AllDigits(c) && |c| == 2
    ensures DotBeforeNextThousand(DotBeforeLastThousand(i + "," + c)) == WrittenGrouping(i) + "," + c
  {
    LastThousandShape(i, c);
    if |i| <= 3 {
      assert '.' !in i + "," + c;
      NoThousandDotWithoutDot(i + "," + c);
    } else {
      var p, l := i[..|i| - 3], i[|i| - 3..];
      assert InsertAt(i, |i| - 3, '.') + "," + c == p + "." + l + "," + c;
      NextThousandShape(p, l, c);
      if |i| <= 6 {
        assert WrittenGrouping(i) == p + "." + l;
      } else {
        assert WrittenGrouping(i) == InsertAt(p, |p| - 3, '.') + "." + l;
      }
    }
  }

  /** `formatCurrency` puts at most two dots into the integer part, as described above. */
  lemma FormatCentsShape(n: nat)
    ensures FormatCents(n) == "R$ " + WrittenGrouping(NatToDecimal(n / 100)) + "," + TwoDigits(n % 100)
  {
    var i, c := NatToDecimal(n / 100), TwoDigits(n % 100);
    var x := ReplaceFirst(ToFixed2(n), '.', ',');
    CommaDecimal(n);
    assert x == i + "," + c;
    RegexShape(i, c);
    assert DotBeforeNextThousand(DotBeforeLastThousand(x)) == WrittenGrouping(i) + "," + c;
  }

  // ------------------------------------------------------------ properties of formatCurrency

  predicate IsDot(c: char) {
    c == '.'
  }

  /** A filter that keeps every digit and drops the thousands dot. */
  predicate KeepsDigitsDropsDots(keep: char -> bool) {
    (forall c :: IsDigit(c) ==> keep(c)) && !keep('.')
  }

  lemma {:induction false} KeepNone(s: string, keep: char -> bool)
    ensures Keep(s, keep) == [] <==> forall i :: 0 <= i < |s| ==> !keep(s[i])
    decreases |s|
  {
    if s != [] {
      KeepNone(s[..|s| - 1], keep);
      if Keep(s, keep) == [] {
        forall i | 0 <= i < |s| ensures !keep(s[i]) {
          if i < |s| - 1 {
            assert s[i] == s[..|s| - 1][i];
          }
        }
      }
    }
  }

  /** Reading the digits back out of the as-written grouping gives the integer part. */
  lemma {:induction false} WrittenGroupingKeeps(i: string, keep: char -> bool)
    requires AllDigits(i) && |i| >= 1 && KeepsDigitsDropsDots(keep)
    ensures Keep(WrittenGrouping(i), keep) == i
  {
    if |i| <= 3 {
      KeepAll(i, keep);
    } else if |i| <= 6 {
      assert Keep(InsertAt(i, |i| - 3, '.'), keep) == Keep(i, keep) by {
        InsertDropped(i, |i| - 3, '.', keep);
      }
      KeepAll(i, keep);
    } else {
      LongGroupingKeeps(i, keep);
    }
  }

  /** The case of seven digits or more, where both replacements put in a dot. */
  lemma {:induction false} LongGroupingKeeps(i: string, keep: char -> bool)
    requires AllDigits(i) && |i| > 6 && KeepsDigitsDropsDots(keep)
    ensures Keep(WrittenGrouping(i), keep) == i
  {
    var p, l := i[..|i| - 3], i[|i| - 3..];
    var q := InsertAt(p, |p| - 3, '.');
    assert Keep(q, keep) == p by {
      InsertDropped(p, |p| - 3, '.', keep);
      KeepAll(p, keep);
    }
    assert Keep(q + ".", keep) == p by {
      KeepAppend(q, ".", keep);
      KeepNone(".", keep);
    }
    assert Keep(q + "." + l, keep) == p + l by {
      KeepAppend(q + ".", l, keep);
      KeepAll(l, keep);
    }
    assert WrittenGrouping(i) == q + "." + l;
    assert p + l == i;
  }

  lemma {:induction false} GroupedKeeps(i: string, keep: char -> bool)
    requires AllDigits(i) && KeepsDigitsDropsDots(keep)
    ensures Keep(Grouped(i), keep) == i
    decreases |i|
  {
    if |i| <= 3 {
      KeepAll(i, keep);
    } else {
      var p, l := i[..|i| - 3], i[|i| - 3..];
      assert Keep(Grouped(p), keep) == p by {
        GroupedKeeps(p, keep);
      }
      assert Keep(Grouped(i), keep) == p + l by {
        assert Grouped(i) == Grouped(p) + "." + l;
        DotThenDigits(Grouped(p), p, l, keep);
      }
      assert p + l == i;
    }
  }

  lemma {:induction false} DotThenDigits(g: string, p: string, l: string, keep: char -> bool)
    requires Keep(g, keep) == p && AllDigits(l) && KeepsDigitsDropsDots(keep)
    ensures Keep(g + "." + l, keep) == p + l
  {
    InsertDropped(g, |g|, '.', keep);
    assert g[..|g|] + ['.'] + g[|g|..] == g + ".";
    KeepAll(l, keep);
    KeepAppend(g + ".", l, keep);
  }

  /** The text before the amount carries no digit, comma or dot. */
  lemma PrefixKeepsNothing(keep: char -> bool)
    requires forall c :: keep(c) ==> IsDigit(c) || c == ',' || c == '.'
    ensures Keep("R$ ", keep) == []
  {
    KeepNone("R$ ", keep);
  }

  /** Framing digits with the currency sign and the decimal comma adds no digit. */
  lemma FramedDigits(w: string, i: string, c: string)
    requires Keep(w, IsDigit) == i && AllDigits(c)
    ensures Keep("R$ " + w + "," + c, IsDigit) == i + c
  {
    PrefixKeepsNothing(IsDigit);
    KeepAll(c, IsDigit);
    KeepNone(",", IsDigit);
    KeepAppend("R$ " + w + ",", c, IsDigit);
    KeepAppend("R$ " + w, ",", IsDigit);
    KeepAppend("R$ ", w, IsDigit);
  }

  /** The integer part followed by the two cent digits spells `n`. */
  lemma CentsSplit(n: nat)
    ensures AllDigits(NatToDecimal(n / 100) + TwoDigits(n % 100))
    ensures DigitsValue(NatToDecimal(n / 100) + TwoDigits(n % 100)) == n
  {
    DigitsValueAppend(NatToDecimal(n / 100), TwoDigits(n % 100));
    assert Pow10(2) == 100;
  }

  /** The digits of a formatted amount of `n` cents spell the integer part and then the cents. */
  lemma FormattedDigits(n: nat)
    ensures Digits(FormatCents(n)) == NatToDecimal(n / 100) + TwoDigits(n % 100)
    ensures Digits(FormatCentsGrouped(n)) == NatToDecimal(n / 100) + TwoDigits(n % 100)
  {
    var i, c := NatToDecimal(n / 100), TwoDigits(n % 100);
    FormatCentsShape(n);
    WrittenGroupingKeeps(i, IsDigit);
    GroupedKeeps(i, IsDigit);
    FramedDigits(WrittenGrouping(i), i, c);
    FramedDigits(Grouped(i), i, c);
  }

  /** `formatCurrency` is "" exactly when its input has no digit. */
  lemma FormatCurrencyEmpty(value: string)
    ensures FormatCurrency(value) == "" <==> forall k :: 0 <= k < |value| ==> !IsDigit(value[k])
  {
    KeepNone(value, IsDigit);
  }

  /** The digits of a formatted amount read back as the same number of cents. */
  lemma FormattedCents(n: nat)
    ensures Digits(FormatCents(n)) != [] && Cents(FormatCents(n)) == n
    ensures Digits(FormatCentsGrouped(n)) != [] && Cents(FormatCentsGrouped(n)) == n
  {
    FormattedDigits(n);
    CentsSplit(n);
  }

  /**
   * Formatting a formatted amount changes nothing, so the balance field is stable
   * under the handler that reformats it on every input event.
   */
  lemma FormatCurrencyIdempotent(value: string)
    ensures FormatCurrency(FormatCurrency(value)) == FormatCurrency(value)
  {
    if Digits(value) != [] {
      FormattedCents(Cents(value));
    }
  }

  /** `formatCurrency` depends on its input only through the number its digits spell. */
  lemma ReadsCents(value: string, n: nat)
    requires Digits(value) != [] && Cents(value) == n
    ensures FormatCurrency(value) == FormatCents(n)
  {
  }

  /** A string of zeros reads as 0. */
  lemma {:induction false} ZerosValue(z: string)
    requires forall k :: 0 <= k < |z| ==> z[k] == '0'
    ensures AllDigits(z) && DigitsValue(z) == 0
    decreases |z|
  {
    if z != [] {
      ZerosValue(z[..|z| - 1]);
    }
  }

  /**
   * The display depends only on the digits typed: removing every other character
   * changes nothing, and neither do zeros typed in front of an amount.
   */
  lemma {:induction false} DisplayDependsOnDigitsOnly(value: string, zeros: string)
    requires forall k :: 0 <= k < |zeros| ==> zeros[k] == '0'
    ensures FormatCurrency(Digits(value)) == FormatCurrency(value)
    ensures Digits(value) != [] ==> FormatCurrency(zeros + value) == FormatCurrency(value)
  {
    var d := Digits(value);
    assert Digits(d) == d by {
      KeepAll(d, IsDigit);
    }
    if d != [] {
      ZerosValue(zeros);
      assert Digits(zeros + value) == zeros + d by {
        KeepAppend(zeros, value, IsDigit);
        KeepAll(zeros, IsDigit);
      }
      assert Cents(zeros + value) == Cents(value) by {
        DigitsValueAppend(zeros, d);
      }
    }
  }

  /**
   * Typing a digit at the end of the formatted field shifts the amount one place to
   * the left and puts the new digit in the last cent (so, by `ReadsCents`, the field
   * then shows `FormatCents(10 * n + d)`).
   */
  lemma {:induction false} TypingADigit(value: string, d: char)
    requires IsDigit(d) && Digits(value) != []
    ensures Digits(FormatCurrency(value) + [d]) != []
    ensures Cents(FormatCurrency(value) + [d]) == 10 * Cents(value) + DigitVal(d)
  {
    var n := Cents(value);
    var shown := FormatCurrency(value);
    assert shown == FormatCents(n) by {
      ReadsCents(value, n);
    }
    var typed := Digits(shown + [d]);
    assert typed == Digits(shown) + [d] by {
      KeepAppend(shown, [d], IsDigit);
      KeepAll([d], IsDigit);
    }
    FormattedCents(n);
    assert typed[..|typed| - 1] == Digits(shown);
  }

  /**
   * Deleting the last character of the formatted field drops the last cent digit: the
   * amount becomes a tenth of what it was, rounded down.
   */
  lemma {:induction false} DeletingADigit(value: string)
    requires Digits(value) != []
    ensures |FormatCurrency(value)| >= 1
    ensures var shown := FormatCurrency(value);
      Digits(shown[..|shown| - 1]) != [] && Cents(shown[..|shown| - 1]) == Cents(value) / 10
  {
    var n := Cents(value);
    var shown := FormatCurrency(value);
    assert shown == FormatCents(n) by {
      ReadsCents(value, n);
    }
    DeletingFromCents(shown, n);
  }

  lemma {:induction false} DeletingFromCents(shown: string, n: nat)
    requires shown == FormatCents(n)
    ensures |shown| >= 1
    ensures Digits(shown[..|shown| - 1]) != [] && Cents(shown[..|shown| - 1]) == n / 10
  {
    var i, c := NatToDecimal(n / 100), TwoDigits(n % 100);
    assert shown == "R$ " + WrittenGrouping(i) + "," + c by {
      FormatCentsShape(n);
    }
    var shorter := shown[..|shown| - 1];
    var digits := Digits(shorter);
    assert digits + [c[1]] == Digits(shown) by {
      assert shown == shorter + [c[1]];
      KeepAppend(shorter, [c[1]], IsDigit);
      KeepAll([c[1]], IsDigit);
    }
    assert Digits(shown) == i + c && DigitsValue(i + c) == n by {
      FormattedDigits(n);
      CentsSplit(n);
    }
    assert digits == (i + c)[..|i + c| - 1];
  }

  // ------------------------------------------------------------ grouping of long amounts

  /**
   * The shape of a correctly grouped integer part: one to three digits, then groups of
   * a dot and exactly three digits.
   */
  predicate ThousandsForm(g: string)
    decreases |g|
  {
    if |g| <= 3 then 1 <= |g| && AllDigits(g)
    else g[|g| - 4] == '.' && AllDigits(g[|g| - 3..]) && ThousandsForm(g[..|g| - 4])
  }

  /** The intended grouping has the thousands form. */
  lemma {:induction false} GroupedForm(i: string)
    requires AllDigits(i) && |i| >= 1
    ensures ThousandsForm(Grouped(i))
    decreases |i|
  {
    if |i| > 3 {
      var p, l := i[..|i| - 3], i[|i| - 3..];
      var g := Grouped(p) + "." + l;
      GroupedForm(p);
      assert g[..|g| - 4] == Grouped(p) && g[|g| - 3..] == l && g[|g| - 4] == '.';
    }
  }

  /**
   * A string in the thousands form is the intended grouping of its own digits: the
   * form and the digits together determine the text.
   */
  lemma {:induction false} FormRecoversGrouping(g: string)
    requires ThousandsForm(g)
    ensures Digits(g) != [] && Grouped(Digits(g)) == g
    decreases |g|
  {
    if |g| <= 3 {
      KeepAll(g, IsDigit);
    } else {
      var h, t := g[..|g| - 4], g[|g| - 3..];
      assert g == h + "." + t;
      FormRecoversGrouping(h);
      assert Digits(g) == Digits(h) + t by {
        DotThenDigits(h, Digits(h), t, IsDigit);
      }
      GroupedSplit(Digits(h), t);
    }
  }

  /** Three more digits on the right add one more group. */
  lemma GroupedSplit(p: string, l: string)
    requires |p| >= 1 && |l| == 3
    ensures Grouped(p + l) == Grouped(p) + "." + l
  {
    var i := p + l;
    assert i[..|i| - 3] == p && i[|i| - 3..] == l;
  }

  /** Up to nine digits the two replacements group the integer part as intended. */
  lemma WrittenMatchesGrouped(i: string)
    requires AllDigits(i) && 1 <= |i| <= 9
    ensures WrittenGrouping(i) == Grouped(i)
  {
    if |i| > 3 {
      var p, l := i[..|i| - 3], i[|i| - 3..];
      if |p| > 3 {
        assert p[..|p| - 3] == i[..|i| - 6];
        assert Grouped(p) == InsertAt(p, |p| - 3, '.');
      }
    }
  }

  /**
   * From ten digits on, the second replacement no longer reaches the front: the first
   * group keeps four or more digits.
   */
  lemma WrittenGroupingBreaksForm(i: string)
    requires AllDigits(i) && |i| >= 10
    ensures !ThousandsForm(WrittenGrouping(i))
  {
    var p := i[..|i| - 3];
    var q := InsertAt(p, |p| - 3, '.');
    var w := WrittenGrouping(i);
    assert w[..|w| - 4] == q;
    assert q[..|q| - 4] == p[..|p| - 3];
    var f := p[..|p| - 3];
    assert !ThousandsForm(f) by {
      assert |f| >= 4 && IsDigit(f[|f| - 4]);
    }
    assert !ThousandsForm(q);
  }

  /** For ten or more integer digits the field shows a different text than intended. */
  lemma LongAmountsMisgrouped(n: nat)
    requires n >= 100000000000
    ensures FormatCents(n) != FormatCentsGrouped(n)
  {
    var i, c := NatToDecimal(n / 100), TwoDigits(n % 100);
    assert |i| >= 10 by {
      if |i| <= 9 {
        Pow10Monotone(|i|, 9);
      }
    }
    assert FormatCents(n) == "R$ " + WrittenGrouping(i) + "," + c by {
      FormatCentsShape(n);
    }
    assert WrittenGrouping(i) != Grouped(i) by {
      WrittenGroupingBreaksForm(i);
      GroupedForm(i);
    }
    FramedDiffers(WrittenGrouping(i), Grouped(i), c);
  }

  lemma FramedDiffers(w: string, g: string, c: string)
    requires w != g
    ensures "R$ " + w + "," + c != "R$ " + g + "," + c
  {
    if |w| == |g| {
      var k :| 0 <= k < |w| && w[k] != g[k];
      assert ("R$ " + w + "," + c)[3 + k] == w[k];
      assert ("R$ " + g + "," + c)[3 + k] == g[k];
    }
  }

  /**
   * One billion reais, typed as its twelve digits: the integer part is shown with a
   * first group of four digits instead of "1.000.000.000".
   */
  lemma OneBillionShown()
    ensures WrittenGrouping(NatToDecimal(1000000000)) == "1000.000.000"
    ensures Grouped(NatToDecimal(1000000000)) == "1.000.000.000"
  {
    var i := NatToDecimal(1000000000);
    assert i == "1000000000" by {
      BillionDigits();
    }
    BillionGroupings();
  }

  lemma BillionGroupings()
    ensures WrittenGrouping("1000000000") == "1000.000.000"
    ensures Grouped("1000000000") == "1.000.000.000"
  {
    var i := "1000000000";
    assert i[..7] == "1000000" && i[7..] == "000";
    assert Grouped("1000000") == "1.000.000" by {
      assert "1000000"[..4] == "1000" && "1000000"[4..] == "000";
      assert "1000"[..1] == "1" && "1000"[1..] == "000";
    }
  }

  lemma BillionDigits()
    ensures NatToDecimal(1000000000) == "1000000000"
  {
    TenTimes(1, "1");
    TenTimes(10, "10");
    TenTimes(100, "100");
    TenTimes(1000, "1000");
    TenTimes(10000, "10000");
    TenTimes(100000, "100000");
    TenTimes(1000000, "1000000");
    TenTimes(10000000, "10000000");
    TenTimes(100000000, "100000000");
  }

  lemma {:induction false} TenTimes(n: nat, s: string)
    requires n >= 1 && NatToDecimal(n) == s
    ensures NatToDecimal(10 * n) == s + "0"
  {
    assert (10 * n) / 10 == n && (10 * n) % 10 == 0;
    assert DigitChar(0) == '0';
  }

  // ------------------------------------------------------------ formToPayload

  /** A JavaScript number, read exactly: `NaN` or a finite value. */
  datatype JsNumber = NaN | Finite(value: real)

  /** A value of the payload object `formToPayload` returns. */
  datatype JsValue = Text(text: string) | Number(number: JsNumber) | Boolean(flag: bool) | Null

  /** The reasons `formToPayload` throws. */
  datatype FormError =
    | IdadeInvalida     // the age is not an integer of at least 18
    | TelefoneAusente   // the form has no phone field: `.replace` is called on undefined
    | TelefoneInvalido  // the phone does not have exactly eleven digits

  /** The first position of `c` in `s`. */
  function IndexOf(s: string, c: char): (r: Option<nat>)
    ensures r.Some? ==> r.value < |s| && s[r.value] == c && c !in s[..r.value]
    ensures r.None? ==> c !in s
  {
    if s == [] then None
    else if s[0] == c then Some(0)
    else
      match IndexOf(s[1..], c)
      case None => None
      case Some(k) =>
        assert s[..k + 1] == [s[0]] + s[1..][..k];
        Some(k + 1)
  }

  /**
   * `Number(s)` for a string of digits, dots and commas: "" is 0; digits with at most
   * one dot, and at least one digit, are a decimal number; anything else is `NaN`.
   */
  function NumberOf(s: string): (r: JsNumber)
    ensures AllDigits(s) && s != [] ==> r == Finite(DigitsValue(s) as real)
    ensures ',' in s ==> r == NaN
  {
    if s == [] then Finite(0.0)
    else
      match IndexOf(s, '.')
      case None => if AllDigits(s) then Finite(DigitsValue(s) as real) else NaN
      case Some(k) =>
        var a, b := s[..k], s[k + 1..];
        assert forall j :: 0 <= j < |s| && j != k ==> s[j] in a + b;
        if AllDigits(a) && AllDigits(b) && (a != [] || b != [])
        then Finite(DigitsValue(a) as real + DigitsValue(b) as real / Pow10(|b|) as real)
        else NaN
  }

  predicate IsSaldoChar(c: char) {
    IsDigit(c) || c == ','
  }

  /**
   * The balance field's conversion: keep the digits and commas, turn the first comma
   * into a dot, and read the result as a number; nothing left is `null`.
   */
  function ParseSaldo(saldo: string): (r: Option<JsNumber>)
    ensures r.None? <==> Keep(saldo, IsSaldoChar) == []
  {
    var numerico := ReplaceFirst(Keep(saldo, IsSaldoChar), ',', '.');
    if numerico == [] then None else Some(NumberOf(numerico))
  }

  /** `Number.isInteger(x) && x >= 18`. */
  predicate IsAdultAge(idade: JsNumber) {
    idade.Finite? && idade.value.Floor as real == idade.value && idade.value >= 18.0
  }

  /** The form's text value of `campo`, or "" when the form has none. */
  function FieldOr(fields: map<string, string>, campo: string): string {
    if campo in fields then fields[campo] else ""
  }

  /**
   * `formToPayload`: the form's fields as text, with the age, phone, account-holder and
   * balance fields overwritten by their converted values. `idadeNum` is what `Number`
   * gives for the age field's text (0 for an empty or missing field); `correntista` is
   * whether the account-holder box is ticked.
   */
  method FormToPayload(fields: map<string, string>, idadeNum: JsNumber, correntista: bool)
    returns (r: Result<map<string, JsValue>, FormError>)
    ensures !IsAdultAge(idadeNum) ==> r == Err(IdadeInvalida)
    ensures IsAdultAge(idadeNum) && "telefone" !in fields ==> r == Err(TelefoneAusente)
    ensures IsAdultAge(idadeNum) && "telefone" in fields && |Digits(fields["telefone"])| != 11
            ==> r == Err(TelefoneInvalido)
    ensures r.Ok? <==> IsAdultAge(idadeNum) && "telefone" in fields && |Digits(fields["telefone"])| == 11
    ensures r.Ok? ==> var payload := r.value;
      && payload.Keys == fields.Keys + {"idade", "telefone", "correntista", "saldo_cc"}
      && (forall campo :: campo in fields && campo !in {"idade", "telefone", "correntista", "saldo_cc"}
            ==> payload[campo] == Text(fields[campo]))
      && payload["idade"] == Number(idadeNum)
      && payload["telefone"] == Number(Finite(DigitsValue(Digits(fields["telefone"])) as real))
      && payload["correntista"] == Boolean(correntista)
      && payload["saldo_cc"] == match ParseSaldo(FieldOr(fields, "saldo_cc"))
                                case None => Null
                                case Some(saldo) => Number(saldo)
  {
    var payload := map campo | campo in fields :: Text(fields[campo]);
    if !(idadeNum.Finite? && idadeNum.value.Floor as real == idadeNum.value) || idadeNum.value < 18.0 {
      return Err(IdadeInvalida);
    }
    payload := payload["idade" := Number(idadeNum)];
    if "telefone" !in fields {
      return Err(TelefoneAusente);
    }
    var telefone := Digits(fields["telefone"]);
    if |telefone| != 11 {
      return Err(TelefoneInvalido);
    }
    payload := payload["telefone" := Number(Finite(DigitsValue(telefone) as real))];
    payload := payload["correntista" := Boolean(correntista)];
    var saldoStr := if "saldo_cc" in fields && fields["saldo_cc"] != "" then fields["saldo_cc"] else "";
    var saldoNumerico := ReplaceFirst(Keep(saldoStr, IsSaldoChar), ',', '.');
    payload := payload["saldo_cc" := if saldoNumerico != [] then Number(NumberOf(saldoNumerico)) else Null];
    return Ok(payload);
  }

  /** How `JSON.stringify` writes a payload value: `NaN` becomes `null`, anything else is kept. */
  function Stringified(v: JsValue): (j: JsValue)
    ensures !(j.Number? && j.number.NaN?)
  {
    if v.Number? && v.number.NaN? then Null else v
  }

  // ------------------------------------------------------------ properties of formToPayload

  /** A digit string of length `k` spells a number below `10^k`. */
  lemma {:induction false} DigitsValueBound(s: string)
    requires AllDigits(s)
    ensures DigitsValue(s) < Pow10(|s|)
    decreases |s|
  {
    if s != [] {
      DigitsValueBound(s[..|s| - 1]);
    }
  }

  /**
   * An accepted phone has eleven digits, so its number is below 10^11, well inside
   * the integers a JavaScript number holds exactly.
   */
  lemma PhoneNumberExact(telefone: string)
    requires |Digits(telefone)| == 11
    ensures DigitsValue(Digits(telefone)) < 100000000000
  {
    DigitsValueBound(Digits(telefone));
  }

  /** The balance field keeps the digits and the decimal comma of a formatted amount. */
  lemma SaldoChars(w: string, i: string, c: string)
    requires Keep(w, IsSaldoChar) == i && AllDigits(c)
    ensures Keep("R$ " + w + "," + c, IsSaldoChar) == i + "," + c
  {
    PrefixKeepsNothing(IsSaldoChar);
    KeepAll(c, IsSaldoChar);
    KeepAll(",", IsSaldoChar);
    KeepAppend("R$ " + w + ",", c, IsSaldoChar);
    KeepAppend("R$ " + w, ",", IsSaldoChar);
    KeepAppend("R$ ", w, IsSaldoChar);
  }

  /** "<integer part>.<two digits>" reads as the integer part plus the cents over 100. */
  lemma {:induction false} DecimalReading(n: nat)
    ensures NumberOf(NatToDecimal(n / 100) + "." + TwoDigits(n % 100)) == Finite(n as real / 100.0)
  {
    DecimalParts(NatToDecimal(n / 100), TwoDigits(n % 100));
    CentsAsReal(n);
  }

  /** Digits, a point and two digits read as the integer part plus the two digits over 100. */
  lemma {:induction false} DecimalParts(i: string, c: string)
    requires AllDigits(i) && |i| >= 1 && AllDigits(c) && |c| == 2
    ensures NumberOf(i + "." + c) == Finite(DigitsValue(i) as real + DigitsValue(c) as real / 100.0)
  {
    NumberAtPoint(i + "." + c, i, c);
    assert Pow10(|c|) == 100;
  }

  /** `Number` of digits, a point and digits: the left part plus the right part scaled down. */
  lemma {:induction false} NumberAtPoint(s: string, a: string, b: string)
    requires s == a + "." + b && AllDigits(a) && AllDigits(b) && a != []
    ensures NumberOf(s) == Finite(DigitsValue(a) as real + DigitsValue(b) as real / Pow10(|b|) as real)
  {
    assert IndexOf(s, '.') == Some(|a|) by {
      assert s[|a|] == '.';
      assert forall k :: 0 <= k < |a| ==> s[k] == a[k] && s[k] != '.';
      assert forall m :: |a| < m <= |s| ==> s[..m][|a|] == '.';
    }
    assert s[..|a|] == a && s[|a| + 1..] == b;
  }

  lemma CentsAsReal(n: nat)
    ensures (n / 100) as real + (n % 100) as real / 100.0 == n as real / 100.0
  {
    var q, m := n / 100, n % 100;
    assert n == 100 * q + m;
    assert n as real == 100.0 * q as real + m as real;
  }

  /**
   * A field formatted for `n` cents gives the payload `n / 100`, with the as-written
   * formatting and with the intended one.
   */
  lemma {:induction false} SaldoReadsFormattedAmount(n: nat)
    ensures ParseSaldo(FormatCents(n)) == Some(Finite(n as real / 100.0))
    ensures ParseSaldo(FormatCentsGrouped(n)) == Some(Finite(n as real / 100.0))
  {
    var i, c := NatToDecimal(n / 100), TwoDigits(n % 100);
    assert KeepsDigitsDropsDots(IsSaldoChar);
    assert ReplaceFirst(i + "," + c, ',', '.') == i + "." + c by {
      assert ',' !in i;
      ReplaceFirstAt(i, c, ',', '.');
    }
    DecimalReading(n);
    assert Keep(FormatCents(n), IsSaldoChar) == i + "," + c by {
      FormatCentsShape(n);
      WrittenGroupingKeeps(i, IsSaldoChar);
      SaldoChars(WrittenGrouping(i), i, c);
    }
    assert Keep(FormatCentsGrouped(n), IsSaldoChar) == i + "," + c by {
      GroupedKeeps(i, IsSaldoChar);
      SaldoChars(Grouped(i), i, c);
    }
  }

  /**
   * What the balance field gives the payload for whatever was typed into it: `null` when nothing
   * with a digit was typed, otherwise the typed digits read as cents.
   */
  lemma {:induction false} SubmittedBalance(value: string)
    ensures ParseSaldo(FormatCurrency(value))
         == if Digits(value) == [] then None else Some(Finite(Cents(value) as real / 100.0))
    ensures Digits(value) != [] ==>
      Stringified(Number(ParseSaldo(FormatCurrency(value)).value)) == Number(Finite(Cents(value) as real / 100.0))
  {
    var shown := FormatCurrency(value);
    if Digits(value) == [] {
      assert shown == "";
      assert ParseSaldo(shown) == None by {
        assert Keep(shown, IsSaldoChar) == [];
      }
    } else {
      var n := Cents(value);
      assert shown == FormatCents(n) by {
        ReadsCents(value, n);
      }
      assert ParseSaldo(shown) == Some(Finite(n as real / 100.0)) by {
        SaldoReadsFormattedAmount(n);
      }
    }
  }

  /** Text without digits or commas gives `null`. */
  lemma ParseSaldoNothing()
    ensures ParseSaldo("") == None
    ensures ParseSaldo("abc") == None
  {
    KeepNone("abc", IsSaldoChar);
  }

  /** A decimal comma typed without formatting is read as the decimal point. */
  lemma ParseSaldoComma()
    ensures ParseSaldo("12,5") == Some(Finite(12.5))
  {
    assert Keep("12,5", IsSaldoChar) == "12,5" by {
      KeepAll("12,5", IsSaldoChar);
    }
    assert ReplaceFirst("12,5", ',', '.') == "12.5";
    TwelveAndAHalf();
  }

  lemma TwelveAndAHalf()
    ensures NumberOf("12.5") == Finite(12.5)
  {
    var s := "12.5";
    assert IndexOf(s, '.') == Some(2);
    assert s[..2] == "12" && s[3..] == "5";
    assert DigitsValue("12") == 12 by {
      assert "12"[..1] == "1";
    }
  }

  /**
   * Only the first comma becomes a dot; a second one makes the payload's number `NaN`,
   * which `JSON.stringify` writes as `null`.
   */
  lemma ParseSaldoSecondComma()
    ensures ParseSaldo("1,2,3") == Some(NaN)
    ensures Stringified(Number(ParseSaldo("1,2,3").value)) == Null
  {
    assert Keep("1,2,3", IsSaldoChar) == "1,2,3" by {
      KeepAll("1,2,3", IsSaldoChar);
    }
    var s := ReplaceFirst("1,2,3", ',', '.');
    assert s == "1.2,3";
    assert s[3] == ',';
  }
}
