/** How instructions become terms, and when that fails: operands are converted when their
    instruction is parsed, the left operand of a store is looked up by its text, guards are
    printed without resolving temporaries, and a fork reads versions off the text of rules. */
module Emission {
  import opened Lang
  import opened Encoding
  import opened Forks
  import opened Names
  import opened Numerals

  // Converting operands.

  /** The term for an expression. Operations become instructions, nested ones first, and an
      instruction's own operands are converted when it is parsed. While `start` is set, the
      next variable converted is read where `starts` says, and the flag is cleared. */
  function Convert(ssa: Counters, starts: Counters, e: Expr<string>, start: bool): Expr<Ver> {
    match e
    case Lit(r) => Lit(r)
    case Ref(x) => Ref(Ver(x, if start then Count(starts, x) else Count(ssa, x)))
    case Bin(op, l, r) =>
      var afterL := if l.Bin? then FlagAfter(l, start) else start;
      var afterR := if r.Bin? then FlagAfter(r, afterL) else afterL;
      Bin(op,
          Convert(ssa, starts, l, if l.Bin? then start else afterR),
          Convert(ssa, starts, r, if r.Bin? then afterL else if l.Bin? then afterR else FlagAfter(l, afterR)))
  }

  /** The flag survives only expressions without variables. */
  function FlagAfter(e: Expr<string>, start: bool): bool {
    start && Refs(e) == {}
  }

  lemma {:induction false} ConvertNewest(ssa: Counters, starts: Counters, e: Expr<string>)
    ensures Convert(ssa, starts, e, false) == At(ssa, e)
  {
    match e
    case Lit(_) =>
    case Ref(_) =>
    case Bin(_, l, r) => ConvertNewest(ssa, starts, l); ConvertNewest(ssa, starts, r);
  }

  /** Where all frames start at the newest version, the flag makes no difference. */
  lemma {:induction false} ConvertLevel(ssa: Counters, starts: Counters, e: Expr<string>, start: bool)
    requires forall x :: x in Refs(e) ==> Count(starts, x) == Count(ssa, x)
    ensures Convert(ssa, starts, e, start) == At(ssa, e)
  {
    match e
    case Lit(_) =>
    case Ref(_) =>
    case Bin(_, l, r) =>
      forall s ensures Convert(ssa, starts, l, s) == At(ssa, l) && Convert(ssa, starts, r, s) == At(ssa, r) {
        ConvertLevel(ssa, starts, l, s);
        ConvertLevel(ssa, starts, r, s);
      }
  }

  /** A term mentions the variables of its expression, each at its newest version or at the
      version its frame starts with. */
  lemma {:induction false} ConvertRefs(ssa: Counters, starts: Counters, e: Expr<string>, start: bool)
    ensures var refs := Refs(Convert(ssa, starts, e, start));
      && (forall v :: v in refs ==>
        v.base in Refs(e) && (v.num == Count(ssa, v.base) || v.num == Count(starts, v.base)))
      && (forall x :: x in Refs(e) ==> Ver(x, Count(ssa, x)) in refs || Ver(x, Count(starts, x)) in refs)
  {
    match e
    case Lit(_) =>
    case Ref(_) =>
    case Bin(_, l, r) =>
      var afterL := if l.Bin? then FlagAfter(l, start) else start;
      var afterR := if r.Bin? then FlagAfter(r, afterL) else afterL;
      ConvertRefs(ssa, starts, l, if l.Bin? then start else afterR);
      ConvertRefs(ssa, starts, r, if r.Bin? then afterL else if l.Bin? then afterR else FlagAfter(l, afterR));
  }

  // Stores.

  function Sign(op: Arith): string {
    match op
    case Plus => "+"
    case Minus => "-"
    case Times => "*"
    case Divide => "/"
  }

  /** A term as the rules print it; `show` prints numbers. */
  function Text(e: Expr<Ver>, show: real -> string): string {
    match e
    case Lit(r) => show(r)
    case Ref(v) => Name(v)
    case Bin(op, l, r) => Text(l, show) + " " + Sign(op) + " " + Text(r, show)
  }

  /** A character no integer is written with. */
  predicate Foreign(c: char) {
    !('0' <= c <= '9') && c != '-' && c != '+'
  }

  predicate HasForeign(s: string) {
    exists i :: 0 <= i < |s| && Foreign(s[i])
  }

  /** Numbers are printed as doubles: with a point, with an exponent or in hexadecimal, so
      never as an integer, and without underscores. */
  ghost predicate Shows(show: real -> string) {
    forall r :: '_' !in show(r) && HasForeign(show(r))
  }

  function LastPart(s: string): string {
    var parts := Split(s);
    parts[|parts| - 1]
  }

  lemma {:induction false} DigitsOnly(s: string, i: nat)
    requires i < |s| && DigitValue(s[i]).None?
    ensures Digits(s) == None
  {
    if i < |s| - 1 {
      DigitsOnly(s[..|s| - 1], i);
    }
  }

  lemma ForeignIsNoNumber(s: string)
    requires HasForeign(s)
    ensures Atoi(s) == None
  {
    var i :| 0 <= i < |s| && Foreign(s[i]);
    if s[0] == '-' || s[0] == '+' {
      DigitsOnly(s[1..], i - 1);
    } else {
      DigitsOnly(s, i);
    }
  }

  lemma {:induction false} LastPartAppend(a: string, b: string)
    ensures LastPart(a + b) == if '_' in b then LastPart(b) else LastPart(a) + b
  {
    hide LastPart;
    if a == "" {
      assert a + b == b;
      LastPartWhole("");
      if '_' !in b {
        LastPartWhole(b);
      }
    } else {
      LastPartAppend(a[1..], b);
      assert (a + b)[1..] == a[1..] + b;
      LastPartCons(a);
      LastPartCons(a + b);
      if '_' !in b && '_' !in a[1..] {
        LastPartWhole(a[1..]);
      }
    }
  }

  lemma LastPartWhole(s: string)
    requires '_' !in s
    ensures LastPart(s) == s
  {
    SplitWhole(s);
  }

  /** The first character only matters to the last part if no underscore comes later. */
  lemma LastPartCons(s: string)
    requires s != ""
    ensures LastPart(s) == if '_' in s[1..] then LastPart(s[1..]) else if s[0] == '_' then s[1..] else s
  {
    if '_' !in s[1..] {
      SplitWhole(s[1..]);
      assert s == [s[0]] + s[1..];
    } else {
      SplitTwo(s[1..]);
    }
  }

  lemma {:induction false} SplitTwo(s: string)
    requires '_' in s
    ensures |Split(s)| >= 2
  {
    if s[0] != '_' {
      SplitTwo(s[1..]);
    }
  }

  lemma {:induction false} ForeignText(e: Expr<Ver>, show: real -> string)
    requires Shows(show)
    ensures '_' in Text(e, show) || (HasForeign(Text(e, show)) && !EndsInRef(e))
  {
    match e
    case Lit(r) =>
    case Ref(v) => assert Name(v)[|v.base|] == '_';
    case Bin(op, l, r) =>
      ForeignText(r, show);
      var a := Text(l, show) + " " + Sign(op) + " ";
      assert Text(e, show) == a + Text(r, show);
      if '_' in Text(r, show) {
      } else {
        var i :| 0 <= i < |Text(r, show)| && Foreign(Text(r, show)[i]);
        assert Text(e, show)[|a| + i] == Text(r, show)[i];
      }
  }

  /** The text of a term can be read as a version exactly when it ends in one. */
  lemma {:induction false} TextReads(e: Expr<Ver>, show: real -> string)
    requires Shows(show)
    ensures GetVarBase(Text(e, show)).Some? <==> EndsInRef(e)
  {
    match e
    case Lit(r) =>
      SplitWhole(show(r));
      ForeignIsNoNumber(show(r));
    case Ref(v) => RoundTrip(v);
    case Bin(op, l, r) =>
      var a := Text(l, show) + " " + Sign(op) + " ";
      assert Text(e, show) == a + Text(r, show);
      LastPartAppend(a, Text(r, show));
      TextReads(r, show);
      ForeignText(r, show);
      if '_' !in Text(r, show) {
        var i :| 0 <= i < |Text(r, show)| && Foreign(Text(r, show)[i]);
        var last := LastPart(a) + Text(r, show);
        assert last[|LastPart(a)| + i] == Text(r, show)[i];
        ForeignIsNoNumber(last);
      }
  }

  lemma {:induction false} EndsAlike(e: Expr<string>, ssa: Counters, starts: Counters, start: bool)
    ensures EndsInRef(Convert(ssa, starts, e, start)) <==> EndsInRef(e)
    ensures Convert(ssa, starts, e, start).Bin? <==> e.Bin?
  {
    match e
    case Lit(_) =>
    case Ref(_) =>
    case Bin(_, l, r) =>
      forall s ensures EndsInRef(Convert(ssa, starts, r, s)) <==> EndsInRef(r) {
        EndsAlike(r, ssa, starts, s);
      }
  }

  /** The right-hand side of a store, unless looking up its left operand panics
      (`isASolvable`). Only arithmetic is looked up. */
  function StoreOutcome(t: Expr<Ver>, show: real -> string): Option<Expr<Ver>> {
    if t.Bin? && GetVarBase(Text(t.left, show)).None? then None else Some(t)
  }

  lemma StoreSucceeds(t: Expr<Ver>, show: real -> string)
    requires Shows(show)
    ensures StoreOutcome(t, show) == if Storable(t) then Some(t) else None
  {
    if t.Bin? {
      TextReads(t.left, show);
    }
  }

  // Guards.

  /** Emitting fails in two ways: the generator panics, or it prints what the solver cannot
      read, the name of a temporary or a number in another notation. */
  datatype Outcome<+T> = Panics | Unreadable | Emitted(value: T)

  /** The worse of two outcomes decides. */
  function Both<T, U, V>(a: Outcome<T>, b: Outcome<U>, join: (T, U) -> V): Outcome<V> {
    if a.Panics? || b.Panics? then Panics
    else if a.Unreadable? || b.Unreadable? then Unreadable
    else Emitted(join(a.value, b.value))
  }

  /** The solver reads every literal of the term. */
  predicate Readable<V>(e: Expr<V>, show: real -> string) {
    match e
    case Lit(r) => SolverReal(show(r))
    case Ref(_) => true
    case Bin(_, l, r) => Readable(l, show) && Readable(r, show)
  }

  /** Only variables and literals the solver reads are compared. */
  predicate Printable(c: Cond<string>, show: real -> string) {
    match c
    case Cmp(_, l, r) => !l.Bin? && !r.Bin? && Readable(l, show) && Readable(r, show)
    case And(c0, c1) => Printable(c0, show) && Printable(c1, show)
    case Or(c0, c1) => Printable(c0, show) && Printable(c1, show)
    case Not(c0) => Printable(c0, show)
  }

  /** The guard of a conditional can be emitted. It is printed only if an arm emits rules. */
  predicate Guardable(c: Cond<string>, t: Prog, f: Prog, show: real -> string) {
    Connected(c) && (Printable(c, show) || (Silent(t) && Silent(f)))
  }

  /** An operand of a comparison: variables are resolved when the comparison is parsed, the
      result of an operation stays a temporary. */
  function Operand(ssa: Counters, e: Expr<string>, show: real -> string): Outcome<Expr<Ver>> {
    if e.Bin? || !Readable(e, show) then Unreadable else Emitted(At(ssa, e))
  }

  /** The instructions a guard compiles to. */
  datatype Instruction = Compare | Conjunction | Disjunction | Exclusive

  function Compiled(c: Cond<string>): Instruction {
    match c
    case Cmp(_, _, _) => Compare
    case And(_, _) => Conjunction
    case Or(_, _) => Disjunction
    case Not(_) => Exclusive
  }

  /** Taken for a chain of state changes (`isStateChangeChain`). */
  predicate StateChangeChain(x: Instruction, y: Instruction) {
    (x == Conjunction || x == Disjunction) && (y == Conjunction || y == Disjunction)
  }

  /** Looks at what was loaded into an operand (`peek`); nothing loaded is a panic. */
  function Peek(loaded: Option<Instruction>): Outcome<Instruction> {
    if loaded == None then Panics else Emitted(loaded.value)
  }

  /** A connective. In a guard no operand of a chain has been loaded. */
  function Connective<T>(c0: Cond<string>, c1: Cond<string>, joined: Outcome<T>): Outcome<T> {
    if StateChangeChain(Compiled(c0), Compiled(c1)) then Both(Peek(None), joined, (_, t) => t) else joined
  }

  function Guard(ssa: Counters, c: Cond<string>, show: real -> string): Outcome<Cond<Ver>> {
    match c
    case Cmp(rel, l, r) => Both(Operand(ssa, l, show), Operand(ssa, r, show), (l', r') => Cmp(rel, l', r'))
    case And(c0, c1) => Connective(c0, c1, Both(Guard(ssa, c0, show), Guard(ssa, c1, show), (a, b) => And(a, b)))
    case Or(c0, c1) => Connective(c0, c1, Both(Guard(ssa, c0, show), Guard(ssa, c1, show), (a, b) => Or(a, b)))
    case Not(c0) => Both(Guard(ssa, c0, show), Emitted(()), (a, _) => Not(a))
  }

  lemma {:induction false} GuardSucceeds(ssa: Counters, c: Cond<string>, show: real -> string)
    ensures Guard(ssa, c, show).Panics? <==> !Connected(c)
    ensures Guard(ssa, c, show).Emitted? <==> Connected(c) && Printable(c, show)
    ensures Connected(c) && Printable(c, show) ==> Guard(ssa, c, show) == Emitted(CondAt(ssa, c))
  {
    match c
    case Cmp(_, _, _) =>
    case And(c0, c1) => GuardSucceeds(ssa, c0, show); GuardSucceeds(ssa, c1, show);
    case Or(c0, c1) => GuardSucceeds(ssa, c0, show); GuardSucceeds(ssa, c1, show);
    case Not(c0) => GuardSucceeds(ssa, c0, show);
  }

  // Forks.

  /** What `allStateChangesInRule` collects from one operand: its text, unless that is taken
      for a static value. */
  function Changes(text: string): seq<string> {
    if Static(text) then [] else [text]
  }

  function TermChanges(t: Expr<Ver>, show: real -> string): seq<string> {
    match t
    case Lit(r) => Changes(show(r))
    case Ref(v) => Changes(Name(v))
    case Bin(_, l, r) => TermChanges(l, show) + TermChanges(r, show)
  }

  function EqnChanges(eqs: seq<Eqn>): seq<string> {
    if eqs == [] then [] else Changes(Name(eqs[0].phi)) + Changes(Name(eqs[0].val)) + EqnChanges(eqs[1..])
  }

  function RuleChanges(r: Rule, show: real -> string): seq<string> {
    match r
    case Define(v, e) => Changes(Name(v)) + TermChanges(e, show)
    case Ite(_, t, f) => EqnChanges(t) + EqnChanges(f)
    case Phi(_, _) => []
  }

  function RulesChanges(ru: seq<Rule>, show: real -> string): seq<string> {
    if ru == [] then [] else RuleChanges(ru[0], show) + RulesChanges(ru[1..], show)
  }

  /** The versions a fork reads off those texts; a text that is no version is a panic. */
  function ReadChanges(texts: seq<string>): Option<seq<Ver>> {
    if texts == [] then Some([])
    else
      var first, rest := GetVarBase(texts[0]), ReadChanges(texts[1..]);
      if first.None? || rest.None? then None else Some([first.value] + rest.value)
  }

  /** Every literal of the term is taken for a static value. */
  predicate TermStatic<V>(e: Expr<V>, show: real -> string) {
    match e
    case Lit(r) => Static(show(r))
    case Ref(_) => true
    case Bin(_, l, r) => TermStatic(l, show) && TermStatic(r, show)
  }

  predicate RuleStatic(r: Rule, show: real -> string) {
    r.Define? ==> TermStatic(r.e, show)
  }

  predicate RulesStatic(ru: seq<Rule>, show: real -> string) {
    forall i :: 0 <= i < |ru| ==> RuleStatic(ru[i], show)
  }

  /** Every literal in a store of the program is taken for a static value. */
  predicate StoresStatic(p: Prog, show: real -> string) {
    match p
    case Done => true
    case Assign(_, e, next) => TermStatic(e, show) && StoresStatic(next, show)
    case If(_, t, _, f, next) => StoresStatic(t, show) && StoresStatic(f, show) && StoresStatic(next, show)
  }

  lemma {:induction false} ReadConcat(a: seq<string>, b: seq<string>)
    ensures ReadChanges(a + b) ==
      if ReadChanges(a).Some? && ReadChanges(b).Some? then Some(ReadChanges(a).value + ReadChanges(b).value) else None
  {
    hide GetVarBase;
    if a == [] {
      assert a + b == b;
      assert ReadChanges(b).Some? ==> [] + ReadChanges(b).value == ReadChanges(b).value;
    } else {
      ReadConcat(a[1..], b);
      assert (a + b)[0] == a[0] && (a + b)[1..] == a[1..] + b;
      if ReadChanges(a).Some? && ReadChanges(b).Some? {
        var first, rest := [GetVarBase(a[0]).value], ReadChanges(a[1..]).value;
        assert first + (rest + ReadChanges(b).value) == (first + rest) + ReadChanges(b).value;
      }
    }
  }

  lemma NameRead(v: Ver)
    ensures ReadChanges(Changes(Name(v))) == Some([v])
  {
    hide GetVarBase, Static, Decimal;
    RoundTrip(v);
    assert Name(v)[|v.base|] == '_';
    NameIsNotStatic(Name(v), |v.base|);
    ReadOne(Name(v), v);
  }

  lemma ReadOne(text: string, v: Ver)
    requires GetVarBase(text) == Some(v)
    ensures ReadChanges([text]) == Some([v])
  {
    hide GetVarBase;
    assert [text][1..] == [] && [v] + [] == [v];
  }

  /** A literal not taken for a static value is taken for a version, and is none. */
  lemma LiteralRead(r: real, show: real -> string)
    requires Shows(show)
    ensures ReadChanges(Changes(show(r))) == if Static(show(r)) then Some([]) else None
  {
    var lit: Expr<Ver> := Lit(r);
    TextReads(lit, show);
    assert Text(lit, show) == show(r);
  }

  lemma {:induction false} TermRead(t: Expr<Ver>, show: real -> string)
    requires Shows(show)
    ensures ReadChanges(TermChanges(t, show)) == if TermStatic(t, show) then Some(ExprVers(t)) else None
  {
    hide Changes, GetVarBase, Name, Static, Shows;
    match t
    case Lit(r) => LiteralRead(r, show);
    case Ref(v) => NameRead(v);
    case Bin(_, l, r) =>
      TermRead(l, show);
      TermRead(r, show);
      ReadConcat(TermChanges(l, show), TermChanges(r, show));
  }

  lemma {:induction false} EqnsRead(eqs: seq<Eqn>)
    ensures ReadChanges(EqnChanges(eqs)) == Some(EqnVers(eqs))
  {
    hide Changes, GetVarBase, Name;
    if eqs != [] {
      var Eqn(phi, val) := eqs[0];
      NameRead(phi);
      NameRead(val);
      ReadConcat(Changes(Name(phi)), Changes(Name(val)));
      EqnsRead(eqs[1..]);
      ReadConcat(Changes(Name(phi)) + Changes(Name(val)), EqnChanges(eqs[1..]));
      assert [phi] + [val] == [phi, val];
    }
  }

  lemma RuleRead(r: Rule, show: real -> string)
    requires Shows(show)
    ensures ReadChanges(RuleChanges(r, show)) == if RuleStatic(r, show) then Some(RuleVers(r)) else None
  {
    hide Changes, GetVarBase, Name, TermChanges, EqnChanges, TermStatic, Shows;
    match r
    case Define(v, e) =>
      NameRead(v);
      TermRead(e, show);
      ReadConcat(Changes(Name(v)), TermChanges(e, show));
    case Ite(_, t, f) =>
      EqnsRead(t);
      EqnsRead(f);
      ReadConcat(EqnChanges(t), EqnChanges(f));
    case Phi(_, _) =>
  }

  /** The texts collected from rules read as the versions the rules mention, unless a literal
      is not taken for a static value. */
  lemma {:induction false} ChangesRead(ru: seq<Rule>, show: real -> string)
    requires Shows(show)
    ensures ReadChanges(RulesChanges(ru, show)) == if RulesStatic(ru, show) then Some(RulesVers(ru)) else None
  {
    hide RuleChanges, RuleVers, RuleStatic, GetVarBase, Shows;
    if ru != [] {
      RuleRead(ru[0], show);
      ChangesRead(ru[1..], show);
      ReadConcat(RuleChanges(ru[0], show), RulesChanges(ru[1..], show));
      assert RulesStatic(ru, show) <==> RuleStatic(ru[0], show) && RulesStatic(ru[1..], show) by {
        StaticStep(ru, show);
      }
    }
  }

  lemma StaticStep(ru: seq<Rule>, show: real -> string)
    requires ru != []
    ensures RulesStatic(ru, show) <==> RuleStatic(ru[0], show) && RulesStatic(ru[1..], show)
  {
    assert forall i :: 0 < i < |ru| ==> ru[i] == ru[1..][i - 1];
  }

  lemma StaticConcat(a: seq<Rule>, b: seq<Rule>, show: real -> string)
    ensures RulesStatic(a + b, show) <==> RulesStatic(a, show) && RulesStatic(b, show)
  {
    if RulesStatic(a + b, show) {
      forall i | 0 <= i < |a| ensures RuleStatic(a[i], show) { assert (a + b)[i] == a[i]; }
      forall i | 0 <= i < |b| ensures RuleStatic(b[i], show) { assert (a + b)[|a| + i] == b[i]; }
    }
  }

  lemma {:induction false} ConvertStatic(ssa: Counters, starts: Counters, e: Expr<string>, start: bool,
                                         show: real -> string)
    ensures TermStatic(Convert(ssa, starts, e, start), show) <==> TermStatic(e, show)
    ensures Readable(Convert(ssa, starts, e, start), show) <==> Readable(e, show)
  {
    match e
    case Lit(_) =>
    case Ref(_) =>
    case Bin(_, l, r) =>
      var afterL := if l.Bin? then FlagAfter(l, start) else start;
      var afterR := if r.Bin? then FlagAfter(r, afterL) else afterL;
      ConvertStatic(ssa, starts, l, if l.Bin? then start else afterR, show);
      ConvertStatic(ssa, starts, r,
        if r.Bin? then afterL else if l.Bin? then afterR else FlagAfter(l, afterR), show);
  }

  lemma RhsStatic(ssa: Counters, x: string, e: Expr<string>, show: real -> string)
    ensures TermStatic(Rhs(ssa, x, e), show) <==> TermStatic(e, show)
    ensures Readable(Rhs(ssa, x, e), show) <==> Readable(e, show)
  {
    ConvertNewest(ssa, ssa, e);
    ConvertStatic(ssa, ssa, e, false, show);
  }

  /** The fork of a conditional reads every change of an arm's rules. Equations name versions
      only, so it is the stores that decide. */
  predicate ForkReads(p: Prog, ssa: Counters, show: real -> string) {
    match p
    case Done => true
    case Assign(x, e, next) =>
      && ReadChanges(RuleChanges(Define(Ver(x, Advanced(ssa, x)), Rhs(ssa, x, e)), show)).Some?
      && ForkReads(next, Bump(ssa, x), show)
    case If(_, t, _, f, next) =>
      && ForkReads(t, ssa, show) && ForkReads(f, Next(t, ssa), show)
      && ForkReads(next, NextIf(t, f, ssa), show)
  }

  /** The fork reads an arm exactly when every literal stored there is taken for a static
      value. */
  lemma {:induction false} ForkReadsStatic(p: Prog, ssa: Counters, show: real -> string)
    requires Shows(show)
    ensures ForkReads(p, ssa, show) <==> StoresStatic(p, show)
  {
    hide RuleChanges, Rhs, TermStatic, Shows;
    match p
    case Done =>
    case Assign(x, e, next) =>
      RuleRead(Define(Ver(x, Advanced(ssa, x)), Rhs(ssa, x, e)), show);
      RhsStatic(ssa, x, e, show);
      ForkReadsStatic(next, Bump(ssa, x), show);
    case If(_, t, _, f, next) =>
      ForkReadsStatic(t, ssa, show);
      ForkReadsStatic(f, Next(t, ssa), show);
      ForkReadsStatic(next, NextIf(t, f, ssa), show);
  }

  /** Whatever rules encode the arm. */
  lemma {:induction false} CodeStatic(p: Prog, ssa: Counters, code: Code, show: real -> string)
    requires Encodes(p, ssa, code)
    ensures RulesStatic(Flatten(code), show) <==> StoresStatic(p, show)
  {
    hide TermStatic, Rhs, IsArm, NextIf, Next, RulesStatic, Ends, CondAt;
    match p
    case Done => assert RulesStatic([], show) by { NoneStatic(show); }
    case Assign(x, e, next) =>
      CodeStatic(next, Bump(ssa, x), code.next, show);
      RhsStatic(ssa, x, e, show);
      StaticStep(Flatten(code), show);
    case If(_, t, _, f, next) =>
      CodeStatic(t, ssa, code.t, show);
      CodeStatic(f, Next(t, ssa), code.f, show);
      CodeStatic(next, NextIf(t, f, ssa), code.next, show);
      var j := if code.join.Some? then [code.join.value] else [];
      JoinStatic(code.join, show);
      StaticConcat(Flatten(code.t), Flatten(code.f), show);
      StaticConcat(Flatten(code.t) + Flatten(code.f), j, show);
      StaticConcat(Flatten(code.t) + Flatten(code.f) + j, Flatten(code.next), show);
  }

  lemma NoneStatic(show: real -> string)
    ensures RulesStatic([], show)
  {
  }

  lemma JoinStatic(join: Option<Rule>, show: real -> string)
    requires join.Some? ==> join.value.Ite?
    ensures RulesStatic(if join.Some? then [join.value] else [], show)
  {
  }

  // Programs.

  /** Every store and guard can be emitted. */
  predicate Emittable(p: Prog, show: real -> string) {
    match p
    case Done => true
    case Assign(_, e, next) => Storable(e) && Readable(e, show) && Emittable(next, show)
    case If(c, t, _, f, next) =>
      Guardable(c, t, f, show) && Emittable(t, show) && Emittable(f, show) && Emittable(next, show)
  }

  /** A store looks a literal up by name, connectives are joined, or an arm stores a literal
      not taken for a static value. */
  predicate Panicking(p: Prog, show: real -> string) {
    match p
    case Done => false
    case Assign(_, e, next) => !Storable(e) || Panicking(next, show)
    case If(c, t, _, f, next) =>
      || !Connected(c) || !StoresStatic(t, show) || !StoresStatic(f, show)
      || Panicking(t, show) || Panicking(f, show) || Panicking(next, show)
  }

  /** A conditional whose arms emit no rules prints no guard either. */
  function Printed<T>(guard: Outcome<T>, silent: bool): Outcome<()> {
    if guard.Panics? then Panics else if guard.Unreadable? && !silent then Unreadable else Emitted(())
  }

  function Storing(t: Expr<Ver>, show: real -> string): Outcome<()> {
    if StoreOutcome(t, show) == None then Panics else if !Readable(t, show) then Unreadable else Emitted(())
  }

  /** A conditional whose arms emit no rules has no fork. */
  function Forking(t: Prog, f: Prog, ssa: Counters, show: real -> string): Outcome<()> {
    if !(Silent(t) && Silent(f)) && !(ForkReads(t, ssa, show) && ForkReads(f, Next(t, ssa), show)) then Panics
    else Emitted(())
  }

  /** The outcome of emitting a program, statement by statement. */
  function Emitting(p: Prog, ssa: Counters, show: real -> string): Outcome<()> {
    match p
    case Done => Emitted(())
    case Assign(x, e, next) => Both(Storing(Rhs(ssa, x, e), show), Emitting(next, Bump(ssa, x), show), (_, _) => ())
    case If(c, t, _, f, next) =>
      var arms := Both(Emitting(t, ssa, show), Emitting(f, Next(t, ssa), show), (_, _) => ());
      var join := Both(Printed(Guard(ssa, c, show), Silent(t) && Silent(f)), Forking(t, f, ssa, show), (_, _) => ());
      Both(Both(arms, join, (_, _) => ()), Emitting(next, NextIf(t, f, ssa), show), (_, _) => ())
  }

  /** Emission panics exactly on the shapes and literals that are looked up as versions and
      are none, whatever the counters. */
  lemma {:induction false} EmissionPanics(p: Prog, ssa: Counters, show: real -> string)
    requires Shows(show)
    ensures Emitting(p, ssa, show) == Panics <==> Panicking(p, show)
  {
    hide Guard, Shows, ForkReads, StoresStatic, Connected, Storable, StoreOutcome, Readable, Printable, Rhs, Next,
         NextIf, Silent, Bump;
    match p
    case Done =>
    case Assign(x, e, next) =>
      StoreSucceeds(Rhs(ssa, x, e), show);
      RhsStorable(e, ssa, x);
      EmissionPanics(next, Bump(ssa, x), show);
    case If(c, t, _, f, next) =>
      GuardSucceeds(ssa, c, show);
      ForkReadsStatic(t, ssa, show);
      ForkReadsStatic(f, Next(t, ssa), show);
      SilentStatic(t, show);
      SilentStatic(f, show);
      EmissionPanics(t, ssa, show);
      EmissionPanics(f, Next(t, ssa), show);
      EmissionPanics(next, NextIf(t, f, ssa), show);
  }

  lemma {:induction false} SilentStatic(p: Prog, show: real -> string)
    ensures Silent(p) ==> StoresStatic(p, show)
  {
    match p
    case Done =>
    case Assign(_, _, _) =>
    case If(_, t, _, f, next) => SilentStatic(t, show); SilentStatic(f, show); SilentStatic(next, show);
  }

  /** A program can be emitted exactly when its stores and guards have the shapes that can
      and the solver reads its literals, whatever the counters. */
  lemma {:induction false} EmissionSucceeds(p: Prog, ssa: Counters, show: real -> string)
    requires Shows(show)
    ensures Emitting(p, ssa, show) == Emitted(()) <==> Emittable(p, show)
  {
    hide Guard, Shows, ForkReads, StoresStatic, Connected, Storable, StoreOutcome, Readable, Printable, Rhs, Next,
         NextIf, Silent, Bump;
    match p
    case Done =>
    case Assign(x, e, next) =>
      StoreSucceeds(Rhs(ssa, x, e), show);
      RhsStorable(e, ssa, x);
      RhsStatic(ssa, x, e, show);
      EmissionSucceeds(next, Bump(ssa, x), show);
    case If(c, t, _, f, next) =>
      GuardSucceeds(ssa, c, show);
      ForkReadsStatic(t, ssa, show);
      ForkReadsStatic(f, Next(t, ssa), show);
      if Emittable(t, show) && Emittable(f, show) {
        EmittableStatic(t, show);
        EmittableStatic(f, show);
      }
      EmissionSucceeds(t, ssa, show);
      EmissionSucceeds(f, Next(t, ssa), show);
      EmissionSucceeds(next, NextIf(t, f, ssa), show);
  }

  lemma {:induction false} ReadableStatic<V>(e: Expr<V>, show: real -> string)
    requires Readable(e, show)
    ensures TermStatic(e, show)
  {
    match e
    case Lit(r) => RealIsNumeric(show(r));
    case Ref(_) =>
    case Bin(_, l, r) => ReadableStatic(l, show); ReadableStatic(r, show);
  }

  lemma {:induction false} EmittableStatic(p: Prog, show: real -> string)
    requires Emittable(p, show)
    ensures StoresStatic(p, show)
  {
    match p
    case Done =>
    case Assign(_, e, next) => ReadableStatic(e, show); EmittableStatic(next, show);
    case If(_, t, _, f, next) => EmittableStatic(t, show); EmittableStatic(f, show); EmittableStatic(next, show);
  }

  /** `ru` is what the generator may print for `p`: emitting succeeds, with these rules. */
  ghost predicate Produces(p: Prog, ssa: Counters, show: real -> string, ru: seq<Rule>) {
    Shows(show) && Emitting(p, ssa, show) == Emitted(()) && Emits(p, ssa, ru)
  }

  lemma RhsStorable(e: Expr<string>, ssa: Counters, x: string)
    ensures Storable(Rhs(ssa, x, e)) <==> Storable(e)
  {
    ConvertStorable(e, ssa, ssa, false);
    ConvertNewest(ssa, ssa, e);
  }

  lemma ConvertStorable(e: Expr<string>, ssa: Counters, starts: Counters, start: bool)
    ensures Storable(Convert(ssa, starts, e, start)) <==> Storable(e)
  {
    if e.Bin? {
      forall s ensures EndsInRef(Convert(ssa, starts, e.left, s)) <==> EndsInRef(e.left) {
        EndsAlike(e.left, ssa, starts, s);
      }
    }
  }

  lemma NumberIsNoName<V>(e: Expr<V>)
    requires e.Lit?
    ensures !EndsInRef(e)
  {
  }

  lemma DoneIsFine(show: real -> string)
    ensures StoresStatic(Done, show) && !Panicking(Done, show)
  {
  }

  /** The shapes that fail, each at its simplest: `10 - x` panics, a guard `x + 1 > 3`
      leaves a temporary, and two conjunctions under a disjunction panic. */
  lemma Failures(x: string, ssa: Counters, show: real -> string)
    requires Shows(show)
    ensures Emitting(Assign(x, Bin(Minus, Lit(10.0), Ref(x)), Done), ssa, show) == Panics
    ensures var sum := Cmp(Gt, Bin(Plus, Ref(x), Lit(1.0)), Lit(3.0));
      Emitting(If(sum, Assign(x, Bin(Plus, Ref(x), Ref(x)), Done), false, Done, Done), ssa, show) == Unreadable
    ensures var both := And(Cmp(Gt, Ref(x), Lit(1.0)), Cmp(Lt, Ref(x), Lit(2.0)));
      Emitting(If(Or(both, both), Done, false, Done, Done), ssa, show) == Panics
  {
    hide Shows, Static, SolverReal, Emitting;
    var e: Expr<string> := Bin(Minus, Lit(10.0), Ref(x));
    NumberIsNoName(e.left);
    EmissionPanics(Assign(x, e, Done), ssa, show);
    var both := And(Cmp(Gt, Ref(x), Lit(1.0)), Cmp(Lt, Ref(x), Lit(2.0)));
    assert !Connected(Or(both, both));
    EmissionPanics(If(Or(both, both), Done, false, Done, Done), ssa, show);
    var sum, store := Cmp(Gt, Bin(Plus, Ref(x), Lit(1.0)), Lit(3.0)), Assign(x, Bin(Plus, Ref(x), Ref(x)), Done);
    DoneIsFine(show);
    assert !Printable(sum, show) && !Silent(store) && TermStatic(store.e.left, show) && TermStatic(store.e.right, show);
    assert StoresStatic(store, show) && !Panicking(store, show);
    var p := If(sum, store, false, Done, Done);
    assert !Panicking(p, show) && !Emittable(p, show);
    NeitherIsUnreadable(p, ssa, show);
  }

  /** And the numbers that fail: one printed in hexadecimal cannot be read by the solver, and
      in an arm the generator panics. */
  lemma HexFails(x: string, r: real, h: string, ssa: Counters, show: real -> string)
    requires Shows(show) && show(r) == "0x" + h && forall i :: 0 <= i < |h| ==> IsHex(h[i])
    ensures Emitting(Assign(x, Bin(Plus, Ref(x), Lit(r)), Done), ssa, show) == Unreadable
    ensures forall c ::
      Emitting(If(c, Assign(x, Bin(Plus, Ref(x), Lit(r)), Done), false, Done, Done), ssa, show) == Panics
  {
    hide Guard, Shows, Static, SolverReal, Connected;
    HexIsNotNumeric(h);
    var e: Expr<string> := Bin(Plus, Ref(x), Lit(r));
    var store := Assign(x, e, Done);
    assert !Readable(e.right, show) && !TermStatic(e.right, show);
    EmissionPanics(store, ssa, show);
    EmissionSucceeds(store, ssa, show);
    forall c ensures Emitting(If(c, store, false, Done, Done), ssa, show) == Panics {
      EmissionPanics(If(c, store, false, Done, Done), ssa, show);
    }
  }

  /** A number printed with an exponent, as 1000000.0 is, never makes the generator panic,
      but the solver cannot read it. */
  lemma ExponentFails(x: string, r: real, c: Cond<string>, ssa: Counters, show: real -> string, sign: string,
                      mantissa: string, mark: char, power: string)
    requires Shows(show) && Connected(c) && show(r) == sign + mantissa + [mark] + power
    requires sign in {"", "+", "-"} && Mantissa(mantissa, false) && mark in {'e', 'E'}
    requires Power([mark] + power, {'e', 'E'})
    ensures var store := Assign(x, Bin(Plus, Ref(x), Lit(r)), Done);
      && Emitting(store, ssa, show) == Unreadable
      && Emitting(If(c, store, false, Done, Done), ssa, show) == Unreadable
  {
    hide Emitting, Shows, Connected, Mantissa, Power, IsNumeric, SolverReal;
    ExponentIsNumeric(sign, mantissa, mark, power);
    NumericFails(x, r, c, ssa, show);
  }

  lemma NumericFails(x: string, r: real, c: Cond<string>, ssa: Counters, show: real -> string)
    requires Shows(show) && IsNumeric(show(r)) && !SolverReal(show(r)) && Connected(c)
    ensures var store := Assign(x, Bin(Plus, Ref(x), Lit(r)), Done);
      && Emitting(store, ssa, show) == Unreadable
      && Emitting(If(c, store, false, Done, Done), ssa, show) == Unreadable
  {
    hide Guard, Shows, IsNumeric, SolverReal, Connected;
    var e: Expr<string> := Bin(Plus, Ref(x), Lit(r));
    var store := Assign(x, e, Done);
    var p := If(c, store, false, Done, Done);
    DoneIsFine(show);
    assert !Readable(e.right, show) && TermStatic(e.left, show) && TermStatic(e.right, show) && EndsInRef(e.left);
    assert StoresStatic(store, show) && !Panicking(store, show) && !Panicking(p, show);
    assert !Emittable(store, show) && !Emittable(p, show);
    NeitherIsUnreadable(store, ssa, show);
    NeitherIsUnreadable(p, ssa, show);
  }

  lemma NeitherIsUnreadable(p: Prog, ssa: Counters, show: real -> string)
    requires Shows(show) && !Panicking(p, show) && !Emittable(p, show)
    ensures Emitting(p, ssa, show) == Unreadable
  {
    hide Emitting, Panicking, Emittable, Shows;
    EmissionPanics(p, ssa, show);
    EmissionSucceeds(p, ssa, show);
    assert Emitting(p, ssa, show).Emitted? ==> Emitting(p, ssa, show).value == ();
  }
}
