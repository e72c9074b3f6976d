/** Numbers as text: what the generator takes for one, and what SMT-LIB does. */
module Numerals {
  import opened Lang
  import opened Names

  predicate IsDigit(c: char) {
    '0' <= c <= '9'
  }

  predicate IsHex(c: char) {
    IsDigit(c) || 'a' <= c <= 'f' || 'A' <= c <= 'F'
  }

  predicate AllDigits(s: string) {
    s != "" && forall i :: 0 <= i < |s| ==> IsDigit(s[i])
  }

  function Unsigned(s: string): string {
    if s != "" && (s[0] == '-' || s[0] == '+') then s[1..] else s
  }

  // What the generator takes for a number.

  /** The length of the longest start made of digits and at most one point. */
  function Scan(s: string, hex: bool, point: bool): (n: nat)
    ensures n <= |s|
  {
    if s == "" then 0
    else if (if hex then IsHex(s[0]) else IsDigit(s[0])) then 1 + Scan(s[1..], hex, point)
    else if s[0] == '.' && !point then 1 + Scan(s[1..], hex, true)
    else 0
  }

  predicate HasDigit(s: string) {
    exists i :: 0 <= i < |s| && IsHex(s[i])
  }

  predicate Exponent(s: string, marks: set<char>) {
    s != "" && s[0] in marks && AllDigits(Unsigned(s[1..]))
  }

  predicate DecimalFloat(s: string) {
    var n := Scan(s, false, false);
    HasDigit(s[..n]) && (s[n..] == "" || Exponent(s[n..], {'e', 'E'}))
  }

  /** A hexadecimal number must have an exponent. */
  predicate HexFloat(s: string) {
    && |s| >= 2 && s[0] == '0' && (s[1] == 'x' || s[1] == 'X')
    && var n := Scan(s[2..], true, false);
       HasDigit(s[2..2 + n]) && Exponent(s[2 + n..], {'p', 'P'})
  }

  function Lower(s: string): string {
    seq(|s|, i requires 0 <= i < |s| => if 'A' <= s[i] <= 'Z' then s[i] - 'A' + 'a' else s[i])
  }

  predicate Special(s: string) {
    Lower(Unsigned(s)) in {"inf", "infinity"} || Lower(s) == "nan"
  }

  /** `strconv.ParseFloat` succeeds. */
  predicate ParsesFloat(s: string) {
    Special(s) || DecimalFloat(Unsigned(s)) || HexFloat(Unsigned(s))
  }

  predicate IsNumeric(s: string) {
    ParsesFloat(s) || Atoi(s).Some?
  }

  /** Text the generator does not take for a version. */
  predicate Static(s: string) {
    IsNumeric(s) || s in {"true", "false"}
  }

  // What SMT-LIB does (section 3.1 of SMT-LIB 2.6).

  function DigitRun(s: string): (n: nat)
    ensures n <= |s| && forall i :: 0 <= i < n ==> IsDigit(s[i])
    ensures n < |s| ==> !IsDigit(s[n])
  {
    if s == "" || !IsDigit(s[0]) then 0 else 1 + DigitRun(s[1..])
  }

  /** A numeral, a point, digits; a numeral does not start with a zero unless it is one. */
  predicate SmtDecimal(s: string) {
    var n := DigitRun(s);
    n > 0 && (n == 1 || s[0] != '0') && n < |s| && s[n] == '.' && AllDigits(s[n + 1..])
  }

  /** A number as the solver reads it. Z3 takes a minus sign for part of a number. */
  predicate SolverReal(s: string) {
    SmtDecimal(if s != "" && s[0] == '-' then s[1..] else s)
  }

  // How they compare.

  lemma {:induction false} ScanDigits(s: string, point: bool)
    requires forall i :: 0 <= i < |s| ==> IsDigit(s[i])
    ensures Scan(s, false, point) == |s|
  {
    if s != "" {
      ScanDigits(s[1..], point);
    }
  }

  lemma {:induction false} ScanDecimal(s: string, n: nat)
    requires n < |s| && (forall i :: 0 <= i < n ==> IsDigit(s[i])) && s[n] == '.'
    requires forall i :: n < i < |s| ==> IsDigit(s[i])
    ensures Scan(s, false, false) == |s|
  {
    if n == 0 {
      ScanDigits(s[1..], true);
    } else {
      ScanDecimal(s[1..], n - 1);
    }
  }

  /** Every number the solver reads is taken for one. */
  lemma RealIsNumeric(s: string)
    requires SolverReal(s)
    ensures IsNumeric(s)
  {
    var u := if s[0] == '-' then s[1..] else s;
    DecimalIsFloat(u);
    assert IsDigit(u[0]) && Unsigned(s) == u;
  }

  lemma DecimalIsFloat(s: string)
    requires SmtDecimal(s)
    ensures DecimalFloat(s)
  {
    var n := DigitRun(s);
    forall i | n < i < |s| ensures IsDigit(s[i]) {
      assert s[n + 1..][i - n - 1] == s[i];
    }
    ScanDecimal(s, n);
    assert IsDigit(s[0]) && s[..|s|][0] == s[0];
  }

  lemma {:induction false} ScanHex(s: string)
    requires forall i :: 0 <= i < |s| ==> IsHex(s[i])
    ensures Scan(s, true, false) == |s|
  {
    if s != "" {
      ScanHex(s[1..]);
    }
  }

  /** Hexadecimal digits without an exponent are not, although LLVM writes doubles so. */
  lemma HexIsNotNumeric(h: string)
    requires forall i :: 0 <= i < |h| ==> IsHex(h[i])
    ensures !Static("0x" + h) && !SolverReal("0x" + h)
  {
    hide Special, DecimalFloat, HexFloat, Lower, SmtDecimal;
    var s := "0x" + h;
    assert s[0] == '0' && s[1] == 'x' && Unsigned(s) == s && "true"[0] == 't' && "false"[0] == 'f';
    HexNoDecimal(s, h);
    HexNoFloat(s, h);
    LowerFirst(s);
    DigitsStop(s, 1);
  }

  lemma LowerFirst(s: string)
    requires s != "" && s[0] == '0'
    ensures !Special(s)
  {
    assert Lower(s)[0] == '0';
  }

  lemma HexNoFloat(s: string, h: string)
    requires s == "0x" + h && forall i :: 0 <= i < |h| ==> IsHex(h[i])
    ensures !HexFloat(s)
  {
    assert s[2..] == h;
    ScanHex(h);
    assert s[2 + |h|..] == "";
  }

  lemma HexNoDecimal(s: string, h: string)
    requires s == "0x" + h
    ensures !DecimalFloat(s) && !SmtDecimal(s)
  {
    var rest := s[1..];
    assert rest != "" && rest[0] == 'x';
    assert Scan(rest, false, false) == 0 && DigitRun(rest) == 0;
    assert s[1] == 'x';
  }

  lemma {:induction false} DigitsStop(s: string, i: nat)
    requires i < |s| && !IsDigit(s[i])
    ensures Digits(s) == None
  {
    if i < |s| - 1 {
      DigitsStop(s[..|s| - 1], i);
    }
  }

  lemma {:induction false} ScanPlain(s: string, hex: bool, point: bool)
    ensures forall i :: 0 <= i < Scan(s, hex, point) ==> s[i] != '_'
  {
    if s != "" {
      ScanPlain(s[1..], hex, point);
      ScanPlain(s[1..], hex, true);
    }
  }

  /** A name is not: it has an underscore. */
  lemma NameIsNotStatic(s: string, k: nat)
    requires k < |s| && s[k] == '_'
    ensures !Static(s)
  {
    var u := Unsigned(s);
    assert exists i :: 0 <= i < |u| && u[i] == '_' by {
      assert u[k - (|s| - |u|)] == '_';
    }
    var i :| 0 <= i < |u| && u[i] == '_';
    NotFloat(u, i);
    assert Lower(u)[i] == '_' && Lower(s)[k] == '_';
    assert forall c :: c in "inf" || c in "infinity" || c in "nan" ==> c != '_';
    assert Lower(u) !in {"inf", "infinity"} && Lower(s) != "nan" by {
      assert '_' in Lower(u) && '_' in Lower(s);
    }
    if s[0] == '-' || s[0] == '+' {
      DigitsStop(s[1..], k - 1);
    } else {
      DigitsStop(s, k);
    }
  }

  lemma NotFloat(u: string, i: nat)
    requires i < |u| && u[i] == '_'
    ensures !DecimalFloat(u) && !HexFloat(u)
  {
    ScanPlain(u, false, false);
    NoExponent(u, Scan(u, false, false), i, {'e', 'E'});
    if |u| >= 2 && u[0] == '0' && (u[1] == 'x' || u[1] == 'X') {
      ScanPlain(u[2..], true, false);
      NoExponent(u, 2 + Scan(u[2..], true, false), i, {'p', 'P'});
    }
  }

  lemma NoExponent(u: string, n: nat, i: nat, marks: set<char>)
    requires n <= i < |u| && u[i] == '_' && '_' !in marks
    ensures u[n..] != "" && !Exponent(u[n..], marks)
  {
    var e := u[n..];
    assert e[i - n] == '_';
    if i > n {
      var rest := e[1..];
      assert rest[i - n - 1] == '_';
      var v := Unsigned(rest);
      assert v[i - n - 1 - (|rest| - |v|)] == '_';
    }
  }

  // Exactly which texts are numbers, character by character.

  predicate DigitOf(c: char, hex: bool) {
    if hex then IsHex(c) else IsDigit(c)
  }

  /** Digits with at most one point among them, and at least one digit. */
  predicate Mantissa(s: string, hex: bool) {
    && (forall i :: 0 <= i < |s| ==> DigitOf(s[i], hex) || s[i] == '.')
    && (forall i, j :: 0 <= i < j < |s| ==> s[i] != '.' || s[j] != '.')
    && exists i :: 0 <= i < |s| && DigitOf(s[i], hex)
  }

  /** A mark, perhaps a sign, and digits. */
  predicate Power(s: string, marks: set<char>) {
    s != "" && s[0] in marks && (AllDigits(s[1..]) || (|s| > 1 && s[1] in {'+', '-'} && AllDigits(s[2..])))
  }

  predicate DecimalText(s: string) {
    exists n :: 0 <= n <= |s| && Mantissa(s[..n], false) && (n == |s| || Power(s[n..], {'e', 'E'}))
  }

  predicate HexText(s: string) {
    && |s| >= 2 && s[0] == '0' && s[1] in {'x', 'X'}
    && exists n :: 2 <= n <= |s| && Mantissa(s[2..n], true) && Power(s[n..], {'p', 'P'})
  }

  /** A word in letters of either case. */
  predicate Word(s: string, lower: string, upper: string)
    requires |lower| == |upper|
  {
    |s| == |lower| && forall i :: 0 <= i < |s| ==> s[i] == lower[i] || s[i] == upper[i]
  }

  /** A decimal or hexadecimal number, or infinity. */
  predicate Unsignable(s: string) {
    DecimalText(s) || HexText(s) || Word(s, "inf", "INF") || Word(s, "infinity", "INFINITY")
  }

  /** One of these, perhaps after a sign; or not a number. */
  predicate NumberText(s: string) {
    || Word(s, "nan", "NAN")
    || Unsignable(s)
    || (s != "" && s[0] in {'+', '-'} && Unsignable(s[1..]))
  }

  /** What is taken for a number are exactly these texts. */
  lemma NumericExactly(s: string)
    ensures IsNumeric(s) <==> NumberText(s)
  {
    hide DecimalFloat, HexFloat, Special, DecimalText, HexText, Word;
    var u := Unsigned(s);
    DecimalExactly(u);
    HexExactly(u);
    SpecialExactly(s);
    if Atoi(s).Some? {
      WholeIsDecimal(s);
    }
    if Unsignable(s) {
      FirstSign(s);
    }
  }

  /** None of these texts starts with a sign. */
  lemma FirstSign(s: string)
    requires Unsignable(s)
    ensures s != "" && s[0] != '+' && s[0] != '-'
  {
    if DecimalText(s) {
      var n :| 0 <= n <= |s| && Mantissa(s[..n], false) && (n == |s| || Power(s[n..], {'e', 'E'}));
      assert s[..n] != "" && s[..n][0] == s[0];
    }
  }

  // Decimals.

  lemma {:induction false} ScanIs(s: string, hex: bool, point: bool)
    ensures var n := Scan(s, hex, point);
      && (forall i :: 0 <= i < n ==> DigitOf(s[i], hex) || (s[i] == '.' && !point))
      && (forall i, j :: 0 <= i < j < n ==> s[i] != '.' || s[j] != '.')
  {
    if s != "" {
      ScanIs(s[1..], hex, point);
      ScanIs(s[1..], hex, true);
    }
  }

  lemma {:induction false} ScanStops(s: string, hex: bool, point: bool, n: nat)
    requires n <= |s| && (n < |s| ==> !DigitOf(s[n], hex) && s[n] != '.')
    requires forall i :: 0 <= i < n ==> DigitOf(s[i], hex) || (s[i] == '.' && !point)
    requires forall i, j :: 0 <= i < j < n ==> s[i] != '.' || s[j] != '.'
    ensures Scan(s, hex, point) == n
  {
    if n > 0 {
      assert forall i :: 0 <= i < n - 1 ==> s[1..][i] == s[i + 1];
      ScanStops(s[1..], hex, point || s[0] == '.', n - 1);
    }
  }

  /** A prefix of digits and a point scans whole up to a mark. */
  lemma ScanMantissa(s: string, hex: bool, n: nat)
    requires n <= |s| && Mantissa(s[..n], hex) && (n < |s| ==> !DigitOf(s[n], hex) && s[n] != '.')
    ensures Scan(s, hex, false) == n && HasDigit(s[..n])
  {
    var m := s[..n];
    assert forall i :: 0 <= i < n ==> m[i] == s[i];
    ScanStops(s, hex, false, n);
  }

  lemma ScannedMantissa(s: string, hex: bool)
    requires HasDigit(s[..Scan(s, hex, false)])
    ensures Mantissa(s[..Scan(s, hex, false)], hex)
  {
    ScanIs(s, hex, false);
    var m := s[..Scan(s, hex, false)];
    assert forall i :: 0 <= i < |m| ==> m[i] == s[i];
    var i :| 0 <= i < |m| && IsHex(m[i]);
    assert DigitOf(m[i], hex);
  }

  lemma PowerExactly(s: string, marks: set<char>)
    ensures Exponent(s, marks) <==> Power(s, marks)
  {
    if |s| > 1 {
      var rest := s[1..];
      assert rest[0] == s[1] && rest[1..] == s[2..];
    }
  }

  lemma DecimalExactly(s: string)
    ensures DecimalFloat(s) <==> DecimalText(s)
  {
    hide Exponent, Mantissa, Power, HasDigit, Scan;
    var n := Scan(s, false, false);
    PowerExactly(s[n..], {'e', 'E'});
    if DecimalFloat(s) {
      ScannedMantissa(s, false);
    }
    if m :| 0 <= m <= |s| && Mantissa(s[..m], false) && (m == |s| || Power(s[m..], {'e', 'E'})) {
      MarkAt(s, m, {'e', 'E'});
      ScanMantissa(s, false, m);
    }
  }

  lemma MarkAt(s: string, n: nat, marks: set<char>)
    requires n <= |s| && (n == |s| || Power(s[n..], marks))
    ensures n < |s| ==> s[n] in marks
  {
  }

  lemma HexExactly(s: string)
    ensures HexFloat(s) <==> HexText(s)
  {
    hide Exponent, Mantissa, Power, HasDigit, Scan;
    if |s| >= 2 {
      var h := s[2..];
      var n := Scan(h, true, false);
      assert s[2..2 + n] == h[..n] && s[2 + n..] == h[n..];
      PowerExactly(h[n..], {'p', 'P'});
      if HexFloat(s) {
        ScannedMantissa(h, true);
      }
      if m :| 2 <= m <= |s| && Mantissa(s[2..m], true) && Power(s[m..], {'p', 'P'}) {
        assert s[2..m] == h[..m - 2] && s[m..] == h[m - 2..];
        MarkAt(h, m - 2, {'p', 'P'});
        ScanMantissa(h, true, m - 2);
      }
    }
  }

  // Words and integers.

  lemma WordExactly(s: string, lower: string, upper: string)
    requires |lower| == |upper| && forall i :: 0 <= i < |lower| ==> 'a' <= lower[i] <= 'z'
    requires forall i :: 0 <= i < |upper| ==> upper[i] == lower[i] - 'a' + 'A'
    ensures Lower(s) == lower <==> Word(s, lower, upper)
  {
    assert |Lower(s)| == |s|;
    if Word(s, lower, upper) {
      assert forall i :: 0 <= i < |s| ==> Lower(s)[i] == lower[i];
    }
  }

  lemma SpecialExactly(s: string)
    ensures Special(s) <==>
      || Word(s, "nan", "NAN")
      || Word(Unsigned(s), "inf", "INF") || Word(Unsigned(s), "infinity", "INFINITY")
  {
    hide Lower, Word;
    WordExactly(s, "nan", "NAN");
    WordExactly(Unsigned(s), "inf", "INF");
    WordExactly(Unsigned(s), "infinity", "INFINITY");
  }

  /** What `Atoi` reads is a number anyway. */
  lemma WholeIsDecimal(s: string)
    requires Atoi(s).Some?
    ensures DecimalFloat(Unsigned(s))
  {
    var u := Unsigned(s);
    assert Digits(u).Some?;
    DigitsAre(u);
    ScanDigits(u, false);
    assert u[..|u|][0] == u[0] && IsHex(u[0]);
  }

  lemma {:induction false} DigitsAre(s: string)
    requires Digits(s).Some?
    ensures AllDigits(s)
  {
    if |s| > 1 {
      DigitsAre(s[..|s| - 1]);
      assert forall i :: 0 <= i < |s| - 1 ==> s[i] == s[..|s| - 1][i];
    }
  }

  /** Digits around one point, without a zero to fill up in front. */
  predicate PointAt(s: string, p: int) {
    && 0 < p < |s| - 1 && s[p] == '.' && (p == 1 || s[0] != '0')
    && forall i :: 0 <= i < |s| && i != p ==> IsDigit(s[i])
  }

  /** The solver reads exactly such texts, perhaps after a minus sign. */
  lemma SolverExactly(s: string)
    ensures SolverReal(s) <==>
      (exists p :: PointAt(s, p)) || (s != "" && s[0] == '-' && exists p :: PointAt(s[1..], p))
  {
    hide SmtDecimal;
    SmtExactly(s);
    if s != "" {
      SmtExactly(s[1..]);
    }
    if p :| PointAt(s, p) {
      assert IsDigit(s[0]);
    }
  }

  lemma SmtExactly(s: string)
    ensures SmtDecimal(s) <==> exists p :: PointAt(s, p)
  {
    var n := DigitRun(s);
    if SmtDecimal(s) {
      var after := s[n + 1..];
      assert forall i :: n + 1 <= i < |s| ==> s[i] == after[i - n - 1];
      assert PointAt(s, n);
    }
    if p :| PointAt(s, p) {
      RunTo(s, p);
      var after := s[p + 1..];
      assert forall i :: 0 <= i < |after| ==> after[i] == s[i + p + 1];
    }
  }

  lemma {:induction false} RunTo(s: string, n: nat)
    requires n < |s| && (forall i :: 0 <= i < n ==> IsDigit(s[i])) && !IsDigit(s[n])
    ensures DigitRun(s) == n
  {
    if n > 0 {
      RunTo(s[1..], n - 1);
    }
  }

  /** A double of some size is printed with an exponent, as 1.0e+06: the generator takes it
      for a number, and the solver does not read it. */
  lemma ExponentIsNumeric(sign: string, mantissa: string, mark: char, power: string)
    requires sign in {"", "+", "-"} && Mantissa(mantissa, false) && mark in {'e', 'E'}
    requires Power([mark] + power, {'e', 'E'})
    ensures IsNumeric(sign + mantissa + [mark] + power) && !SolverReal(sign + mantissa + [mark] + power)
  {
    hide IsNumeric, SolverReal, Power, Mantissa;
    var s := sign + mantissa + [mark] + power;
    var k, n := |sign|, |mantissa|;
    var u := s[k..];
    assert u == mantissa + [mark] + power;
    assert u[..n] == mantissa && u[n..] == [mark] + power;
    assert DecimalText(u);
    assert if k == 0 then s == u else s[0] == sign[0] && s[1..] == u;
    NumericExactly(s);
    NotASolverReal(s, k + n);
  }

  /** Every character the solver reads is a digit, a point or a minus sign. */
  lemma NotASolverReal(s: string, i: nat)
    requires i < |s| && s[i] in {'e', 'E'}
    ensures !SolverReal(s)
  {
    SolverExactly(s);
    assert forall p :: PointAt(s, p) ==> i == p || IsDigit(s[i]);
    if i > 0 {
      assert s[1..][i - 1] == s[i];
      assert forall p :: PointAt(s[1..], p) ==> i - 1 == p || IsDigit(s[1..][i - 1]);
    }
  }
}
