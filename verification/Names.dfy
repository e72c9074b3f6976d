/** SSA names as text: a base, an underscore, a version. */
module Names {
  import opened Lang
  import opened Encoding

  function Digit(d: nat): char
    requires d < 10
  {
    "0123456789"[d]
  }

  function Natural(n: nat): string {
    if n < 10 then [Digit(n)] else Natural(n / 10) + [Digit(n % 10)]
  }

  /** Decimal notation, as `fmt.Sprint` writes it. */
  function Decimal(n: int): string {
    if n < 0 then "-" + Natural(-n) else Natural(n)
  }

  function DigitValue(c: char): Option<nat> {
    if '0' <= c <= '9' then Some((c as int) - ('0' as int)) else None
  }

  function Digits(s: string): Option<nat> {
    if s == "" then None
    else
      var last := DigitValue(s[|s| - 1]);
      if last.None? then None
      else if |s| == 1 then last
      else
        var init := Digits(s[..|s| - 1]);
        if init.None? then None else Some(init.value * 10 + last.value)
  }

  /** `strconv.Atoi`, on numbers of any size. */
  function Atoi(s: string): Option<int> {
    if s != "" && (s[0] == '-' || s[0] == '+') then
      match Digits(s[1..])
      case None => None
      case Some(n) => var i: int := n; Some(if s[0] == '-' then -i else i)
    else
      match Digits(s)
      case None => None
      case Some(n) => Some(n)
  }

  /** `strings.Split` at underscores. */
  function Split(s: string): (parts: seq<string>)
    ensures parts != []
  {
    if s == "" then [""]
    else
      var parts := Split(s[1..]);
      if s[0] == '_' then [""] + parts else [[s[0]] + parts[0]] + parts[1..]
  }

  /** `strings.Join` with underscores. */
  function Join(parts: seq<string>): string {
    if parts == [] then ""
    else if |parts| == 1 then parts[0]
    else parts[0] + "_" + Join(parts[1..])
  }

  /** The name `AdvanceSSA` makes. */
  function Name(v: Ver): string {
    v.base + "_" + Decimal(v.num)
  }

  /** Panics on names without a version. */
  function GetVarBase(id: string): Option<Ver> {
    var v := Split(id);
    var num := Atoi(v[|v| - 1]);
    if num.None? then None else Some(Ver(Join(v[..|v| - 1]), num.value))
  }

  function SplitIdent(ident: string): (string, string) {
    var s := Split(ident);
    (s[|s| - 1], Join(s[..|s| - 1]))
  }

  lemma {:induction false} JoinSplit(s: string)
    ensures Join(Split(s)) == s
  {
    if s != "" {
      JoinSplit(s[1..]);
      var parts := Split(s[1..]);
      if s[0] == '_' {
        assert ([""] + parts)[1..] == parts;
      } else {
        var longer := [[s[0]] + parts[0]] + parts[1..];
        assert longer[1..] == parts[1..];
        assert Join(longer) == [s[0]] + Join(parts) by {
          if |parts| > 1 {
            assert [s[0]] + parts[0] + "_" + Join(parts[1..]) == [s[0]] + (parts[0] + "_" + Join(parts[1..]));
          }
        }
      }
    }
  }

  lemma {:induction false} SplitWhole(d: string)
    requires '_' !in d
    ensures Split(d) == [d]
  {
    if d != "" {
      SplitWhole(d[1..]);
      assert d[0] in d && d == [d[0]] + d[1..];
      assert [d[1..]][1..] == [];
    }
  }

  lemma {:induction false} SplitAppend(a: string, d: string)
    requires '_' !in d
    ensures Split(a + "_" + d) == Split(a) + [d]
  {
    var s := a + "_" + d;
    if a == "" {
      assert s[1..] == d;
      SplitWhole(d);
    } else {
      assert s[1..] == a[1..] + "_" + d;
      SplitAppend(a[1..], d);
    }
  }

  lemma {:induction false} NaturalRead(n: nat)
    ensures Natural(n) != "" && Digits(Natural(n)) == Some(n)
    ensures forall c :: c in Natural(n) ==> '0' <= c <= '9'
  {
    if n >= 10 {
      NaturalRead(n / 10);
      var s := Natural(n);
      assert s[..|s| - 1] == Natural(n / 10) && s[|s| - 1] == Digit(n % 10);
    }
  }

  lemma DecimalRead(n: int)
    ensures Atoi(Decimal(n)) == Some(n) && '_' !in Decimal(n)
  {
    NaturalRead(if n < 0 then -n else n);
    if n < 0 {
      assert Decimal(n)[1..] == Natural(-n);
    } else {
      assert Decimal(n)[0] in Natural(n);
    }
  }

  /** Both readers recover base and version, whatever underscores the base contains. */
  lemma RoundTrip(v: Ver)
    ensures GetVarBase(Name(v)) == Some(v)
    ensures SplitIdent(Name(v)) == (Decimal(v.num), v.base)
  {
    DecimalRead(v.num);
    SplitAppend(v.base, Decimal(v.num));
    JoinSplit(v.base);
    var parts := Split(Name(v));
    assert parts[..|parts| - 1] == Split(v.base);
  }

  /** Different versions have different names. */
  lemma NoCollision(v: Ver, w: Ver)
    requires Name(v) == Name(w)
    ensures v == w
  {
    RoundTrip(v);
    RoundTrip(w);
  }

  /** In particular for the names `AdvanceSSA` hands out one after the other, until the
      counter wraps around. */
  lemma AdvancedIsNew(ssa: Counters, x: string, v: Ver)
    requires x in ssa && ssa[x] < MAX_VERSION && v.base in ssa && v.num <= ssa[v.base]
    ensures Name(Ver(x, Advanced(ssa, x))) != Name(v)
  {
    if Name(Ver(x, Advanced(ssa, x))) == Name(v) {
      NoCollision(Ver(x, Advanced(ssa, x)), v);
    }
  }

  /** The first name a variable gets, and the version after the greatest int16. */
  lemma FirstAndWrapped(ssa: Counters, x: string)
    ensures x !in ssa ==> Name(Ver(x, Advanced(ssa, x))) == x + "_0"
    ensures x in ssa && ssa[x] == 32767 ==> Ver(x, Advanced(ssa, x)) == Ver(x, -32768)
  {
    assert Decimal(0) == "0" by { assert Natural(0) == [Digit(0)]; }
    assert x + "_" + "0" == x + "_0";
  }
}
