/** expr_print and the expr rule of the grammar, on tokens: printing with the
    parentheses that expr_compare_type asks for is undone by the parser that the
    declared precedences give. */
module KconfigPrint {
  import opened Basics
  import opened KconfigExpr

  datatype Token = Word(s: Symbol) | Eq | Neq | Open | Close | NotSign | AndSign | OrSign

  /** The node types that can surround a printed operand. */
  datatype Around = Nothing | InNot | InAnd | InOr

  /** expr_compare_type(prevtoken, type) > 0 for the types that occur. */
  predicate NeedsParens(around: Around, e: Expr) {
    match around
    case InNot => e.And? || e.Or?
    case InAnd => e.Or?
    case _ => false
  }

  function Print(e: Expr, around: Around): seq<Token> {
    if NeedsParens(around, e) then [Open] + PrintBare(e) + [Close] else PrintBare(e)
  }

  function PrintBare(e: Expr): seq<Token> {
    match e
    case Sym(s) => [Word(s)]
    case Not(x) => [NotSign] + (if NeedsParens(InNot, x) then [Open] + PrintBare(x) + [Close] else PrintBare(x))
    case Equal(a, b) => [Word(a), Eq, Word(b)]
    case Unequal(a, b) => [Word(a), Neq, Word(b)]
    case Or(l, r) => PrintBare(l) + [OrSign] + PrintBare(r)
    case And(l, r) =>
      (if NeedsParens(InAnd, l) then [Open] + PrintBare(l) + [Close] else PrintBare(l)) + [AndSign] +
      (if NeedsParens(InAnd, r) then [Open] + PrintBare(r) + [Close] else PrintBare(r))
  }

  // ---------------------------------------------------------------- the parser

  /** An entry of the parser's stack. */
  datatype Item = Operand(e: Expr) | SAnd | SOr | SNot | SOpen

  /** The next token, as far as reductions are concerned. */
  datatype Look = LookAnd | LookOr | LookEnd

  predicate EndsInOperand(s: seq<Item>) {
    |s| > 0 && s[|s| - 1].Operand?
  }

  /** Reductions before the lookahead is shifted: T_NOT binds tightest, then
      T_AND, then T_OR, and the binary operators are left-associative. */
  function Reduce(s: seq<Item>, look: Look): (r: seq<Item>)
    requires EndsInOperand(s)
    ensures EndsInOperand(r) && |r| <= |s|
    decreases |s|
  {
    var n, x := |s|, s[|s| - 1].e;
    if n >= 2 && s[n - 2].SNot? then Reduce(s[..n - 2] + [Operand(Not(x))], look)
    else if n >= 3 && s[n - 2].SAnd? && s[n - 3].Operand? then Reduce(s[..n - 3] + [Operand(And(s[n - 3].e, x))], look)
    else if n >= 3 && s[n - 2].SOr? && s[n - 3].Operand? && look != LookAnd then
      Reduce(s[..n - 3] + [Operand(Or(s[n - 3].e, x))], look)
    else s
  }

  /** Shift and reduce until the input ends; None is a syntax error. */
  function Parse(s: seq<Item>, ts: seq<Token>): Option<Expr>
    decreases |ts|
  {
    if EndsInOperand(s) then
      if ts == [] then
        var r := Reduce(s, LookEnd);
        if |r| == 1 then Some(r[0].e) else None
      else if ts[0].AndSign? then Parse(Reduce(s, LookAnd) + [SAnd], ts[1..])
      else if ts[0].OrSign? then Parse(Reduce(s, LookOr) + [SOr], ts[1..])
      else if ts[0].Close? then
        var r := Reduce(s, LookEnd);
        if |r| >= 2 && r[|r| - 2].SOpen? then Parse(r[..|r| - 2] + [r[|r| - 1]], ts[1..]) else None
      else None
    else if ts == [] then None
    else match ts[0]
      case NotSign => Parse(s + [SNot], ts[1..])
      case Open => Parse(s + [SOpen], ts[1..])
      case Word(a) =>
        if |ts| >= 2 && (ts[1].Eq? || ts[1].Neq?) then
          if |ts| >= 3 && ts[2].Word? then
            Parse(s + [Operand(if ts[1].Eq? then Equal(a, ts[2].s) else Unequal(a, ts[2].s))], ts[3..])
          else None
        else Parse(s + [Operand(Sym(a))], ts[1..])
      case _ => None
  }

  // ---------------------------------------------------------------- re-association

  /** The expression with every chain of one operator associated to the left. */
  function LeftAssoc(e: Expr): Expr
    decreases e, 1
  {
    match e
    case Not(x) => Not(LeftAssoc(x))
    case And(_, _) => AppendAnd(None, e)
    case Or(_, _) => AppendOr(None, e)
    case _ => e
  }

  /** acc && e, with the operands of e taken one at a time. */
  function AppendAnd(acc: Option<Expr>, e: Expr): Expr
    decreases e, if e.And? then 0 else 2
  {
    if e.And? then AppendAnd(Some(AppendAnd(acc, e.l)), e.r)
    else if acc.None? then LeftAssoc(e) else And(acc.value, LeftAssoc(e))
  }

  function AppendOr(acc: Option<Expr>, e: Expr): Expr
    decreases e, if e.Or? then 0 else 2
  {
    if e.Or? then AppendOr(Some(AppendOr(acc, e.l)), e.r)
    else if acc.None? then LeftAssoc(e) else Or(acc.value, LeftAssoc(e))
  }

  lemma {:induction false} LeftAssocValue(e: Expr, env: Env)
    ensures Value(LeftAssoc(e), env) == Value(e, env)
    decreases e, 1
  {
    match e
    case Not(x) => LeftAssocValue(x, env);
    case And(_, _) => AppendAndValue(None, e, env);
    case Or(_, _) => AppendOrValue(None, e, env);
    case _ =>
  }

  lemma {:induction false} AppendAndValue(acc: Option<Expr>, e: Expr, env: Env)
    ensures Value(AppendAnd(acc, e), env)
         == if acc.None? then Value(e, env) else Min(Value(acc.value, env), Value(e, env))
    decreases e, if e.And? then 0 else 2
  {
    if e.And? {
      AppendAndValue(acc, e.l, env);
      AppendAndValue(Some(AppendAnd(acc, e.l)), e.r, env);
    } else {
      LeftAssocValue(e, env);
    }
  }

  lemma {:induction false} AppendOrValue(acc: Option<Expr>, e: Expr, env: Env)
    ensures Value(AppendOr(acc, e), env)
         == if acc.None? then Value(e, env) else Max(Value(acc.value, env), Value(e, env))
    decreases e, if e.Or? then 0 else 2
  {
    if e.Or? {
      AppendOrValue(acc, e.l, env);
      AppendOrValue(Some(AppendOr(acc, e.l)), e.r, env);
    } else {
      LeftAssocValue(e, env);
    }
  }

  // ---------------------------------------------------------------- round trip

  /** The stack after all tokens of e have been shifted onto s. */
  function Feed(s: seq<Item>, e: Expr): (r: seq<Item>)
    ensures EndsInOperand(r)
    decreases e, 0
  {
    match e
    case Not(x) => FeedOperand(s + [SNot], x, InNot)
    case And(l, r) => FeedOperand(Reduce(FeedOperand(s, l, InAnd), LookAnd) + [SAnd], r, InAnd)
    case Or(l, r) => Feed(Reduce(Feed(s, l), LookOr) + [SOr], r)
    case _ => s + [Operand(e)]
  }

  /** The same for an operand that may stand in parentheses. */
  function FeedOperand(s: seq<Item>, e: Expr, around: Around): (r: seq<Item>)
    ensures EndsInOperand(r)
    decreases e, 1
  {
    if NeedsParens(around, e) then s + [Operand(LeftAssoc(e))] else Feed(s, e)
  }

  /** What may follow a printed operand. */
  predicate Follows(rest: seq<Token>) {
    rest == [] || rest[0].AndSign? || rest[0].OrSign? || rest[0].Close?
  }

  // One step of the parser or of a reduction, as equations.

  lemma ReduceNotStep(s: seq<Item>, x: Expr, look: Look)
    ensures Reduce(s + [SNot, Operand(x)], look) == Reduce(s + [Operand(Not(x))], look)
  {
    var t := s + [SNot, Operand(x)];
    assert t[..|t| - 2] == s;
  }

  lemma ReduceAndStep(s: seq<Item>, x: Expr, y: Expr, look: Look)
    ensures Reduce(s + [Operand(x), SAnd, Operand(y)], look) == Reduce(s + [Operand(And(x, y))], look)
  {
    var t := s + [Operand(x), SAnd, Operand(y)];
    assert t[..|t| - 3] == s;
  }

  lemma ReduceOrStep(s: seq<Item>, x: Expr, y: Expr, look: Look)
    requires look != LookAnd
    ensures Reduce(s + [Operand(x), SOr, Operand(y)], look) == Reduce(s + [Operand(Or(x, y))], look)
  {
    var t := s + [Operand(x), SOr, Operand(y)];
    assert t[..|t| - 3] == s;
  }

  lemma ReduceStop(s: seq<Item>, x: Expr, look: Look)
    requires s == [] || s[|s| - 1].SOpen? || (s[|s| - 1].SOr? && look == LookAnd)
    ensures Reduce(s + [Operand(x)], look) == s + [Operand(x)]
  {
  }

  lemma ParseBinary(s: seq<Item>, rest: seq<Token>)
    requires EndsInOperand(s)
    ensures Parse(s, [AndSign] + rest) == Parse(Reduce(s, LookAnd) + [SAnd], rest)
    ensures Parse(s, [OrSign] + rest) == Parse(Reduce(s, LookOr) + [SOr], rest)
  {
    assert ([AndSign] + rest)[1..] == rest && ([OrSign] + rest)[1..] == rest;
  }

  lemma ParseClose(s: seq<Item>, t: seq<Item>, x: Expr, rest: seq<Token>)
    requires EndsInOperand(s) && Reduce(s, LookEnd) == t + [SOpen, Operand(x)]
    ensures Parse(s, [Close] + rest) == Parse(t + [Operand(x)], rest)
  {
    assert ([Close] + rest)[1..] == rest;
    var r := t + [SOpen, Operand(x)];
    assert r[..|r| - 2] == t;
  }

  lemma ParsePrefix(s: seq<Item>, rest: seq<Token>)
    requires !EndsInOperand(s)
    ensures Parse(s, [NotSign] + rest) == Parse(s + [SNot], rest)
    ensures Parse(s, [Open] + rest) == Parse(s + [SOpen], rest)
  {
    assert ([NotSign] + rest)[1..] == rest && ([Open] + rest)[1..] == rest;
  }

  lemma ParseWord(s: seq<Item>, a: Symbol, b: Symbol, rest: seq<Token>)
    requires !EndsInOperand(s) && Follows(rest)
    ensures Parse(s, [Word(a)] + rest) == Parse(s + [Operand(Sym(a))], rest)
    ensures Parse(s, [Word(a), Eq, Word(b)] + rest) == Parse(s + [Operand(Equal(a, b))], rest)
    ensures Parse(s, [Word(a), Neq, Word(b)] + rest) == Parse(s + [Operand(Unequal(a, b))], rest)
  {
    assert ([Word(a)] + rest)[1..] == rest;
    assert ([Word(a), Eq, Word(b)] + rest)[3..] == rest && ([Word(a), Neq, Word(b)] + rest)[3..] == rest;
  }

  /** A parenthesised or primary operand, or negations of one, reduces to one
      stack entry before anything else happens. */
  lemma {:induction false} ReduceAtom(s: seq<Item>, e: Expr, around: Around, look: Look)
    requires NeedsParens(around, e) || !IsGroup(e)
    ensures Reduce(FeedOperand(s, e, around), look) == Reduce(s + [Operand(LeftAssoc(e))], look)
    decreases e
  {
    if !NeedsParens(around, e) && e.Not? {
      ReduceAtom(s + [SNot], e.e, InNot, look);
      assert s + [SNot] + [Operand(LeftAssoc(e.e))] == s + [SNot, Operand(LeftAssoc(e.e))];
      ReduceNotStep(s, LeftAssoc(e.e), look);
    }
  }

  /** Nothing below binds as tightly as &&. */
  predicate AndBase(s: seq<Item>) {
    s == [] || s[|s| - 1].SOpen? || s[|s| - 1].SOr?
  }

  function Pending(s: seq<Item>, acc: Option<Expr>, op: Item): seq<Item> {
    if acc.None? then s else s + [Operand(acc.value), op]
  }

  lemma {:induction false} ReduceAnd(s: seq<Item>, acc: Option<Expr>, e: Expr, look: Look)
    requires AndBase(s)
    ensures Reduce(FeedOperand(Pending(s, acc, SAnd), e, InAnd), look) == Reduce(s + [Operand(AppendAnd(acc, e))], look)
    decreases e
  {
    if e.And? {
      ReduceAnd(s, acc, e.l, LookAnd);
      var left := AppendAnd(acc, e.l);
      ReduceStop(s, left, LookAnd);
      assert s + [Operand(left)] + [SAnd] == Pending(s, Some(left), SAnd);
      ReduceAnd(s, Some(left), e.r, look);
    } else {
      ReduceAtom(Pending(s, acc, SAnd), e, InAnd, look);
      if acc.Some? {
        assert Pending(s, acc, SAnd) + [Operand(LeftAssoc(e))] == s + [Operand(acc.value), SAnd, Operand(LeftAssoc(e))];
        ReduceAndStep(s, acc.value, LeftAssoc(e), look);
      }
    }
  }

  /** Nothing below binds as tightly as ||. */
  predicate OrBase(s: seq<Item>) {
    s == [] || s[|s| - 1].SOpen?
  }

  lemma {:induction false} ReduceOr(s: seq<Item>, acc: Option<Expr>, e: Expr, look: Look)
    requires OrBase(s) && look != LookAnd
    ensures Reduce(Feed(Pending(s, acc, SOr), e), look) == s + [Operand(AppendOr(acc, e))]
    decreases e
  {
    if e.Or? {
      ReduceOr(s, acc, e.l, LookOr);
      var left := AppendOr(acc, e.l);
      assert s + [Operand(left)] + [SOr] == Pending(s, Some(left), SOr);
      ReduceOr(s, Some(left), e.r, look);
    } else {
      var p := Pending(s, acc, SOr);
      assert Feed(p, e) == FeedOperand(p, e, InAnd) && p == Pending(p, None, SAnd);
      ReduceAnd(p, None, e, look);
      assert AppendAnd(None, e) == LeftAssoc(e);
      if acc.Some? {
        assert p + [Operand(LeftAssoc(e))] == s + [Operand(acc.value), SOr, Operand(LeftAssoc(e))];
        ReduceOrStep(s, acc.value, LeftAssoc(e), look);
      }
      ReduceStop(s, AppendOr(acc, e), look);
    }
  }

  lemma {:induction false} ParseFeed(s: seq<Item>, e: Expr, rest: seq<Token>)
    requires !EndsInOperand(s) && Follows(rest)
    ensures Parse(s, PrintBare(e) + rest) == Parse(Feed(s, e), rest)
    decreases e, 0, 1
  {
    match e
    case Sym(a) => ParseWord(s, a, a, rest);
    case Equal(a, b) => ParseWord(s, a, b, rest);
    case Unequal(a, b) => ParseWord(s, a, b, rest);
    case Not(x) =>
      assert PrintBare(e) + rest == [NotSign] + (Print(x, InNot) + rest);
      ParsePrefix(s, Print(x, InNot) + rest);
      ParseOperand(s + [SNot], x, InNot, rest);
    case And(l, r) => ParseGroup(s, e, rest);
    case Or(l, r) => ParseGroup(s, e, rest);
  }

  lemma {:induction false} ParseGroup(s: seq<Item>, e: Expr, rest: seq<Token>)
    requires !EndsInOperand(s) && Follows(rest) && IsGroup(e)
    ensures Parse(s, PrintBare(e) + rest) == Parse(Feed(s, e), rest)
    decreases e, 0, 0
  {
    var around, sign, item, look := if e.And? then InAnd else InOr, if e.And? then AndSign else OrSign,
                                    if e.And? then SAnd else SOr, if e.And? then LookAnd else LookOr;
    var right := Print(e.r, around) + rest;
    assert PrintBare(e) + rest == Print(e.l, around) + ([sign] + right);
    ParseOperand(s, e.l, around, [sign] + right);
    var fed := FeedOperand(s, e.l, around);
    ParseBinary(fed, right);
    ParseOperand(Reduce(fed, look) + [item], e.r, around, rest);
  }

  lemma {:induction false} ParseOperand(s: seq<Item>, e: Expr, around: Around, rest: seq<Token>)
    requires !EndsInOperand(s) && Follows(rest)
    ensures Parse(s, Print(e, around) + rest) == Parse(FeedOperand(s, e, around), rest)
    decreases e, 1
  {
    if NeedsParens(around, e) {
      var inside := [Close] + rest;
      ParseOpening(s, e, around, rest);
      ParseFeed(s + [SOpen], e, inside);
      CloseFed(s, e, rest);
    } else {
      ParseFeed(s, e, rest);
    }
  }

  lemma ParseOpening(s: seq<Item>, e: Expr, around: Around, rest: seq<Token>)
    requires !EndsInOperand(s) && NeedsParens(around, e)
    ensures Parse(s, Print(e, around) + rest) == Parse(s + [SOpen], PrintBare(e) + ([Close] + rest))
  {
    assert Print(e, around) + rest == [Open] + (PrintBare(e) + ([Close] + rest));
    ParsePrefix(s, PrintBare(e) + ([Close] + rest));
  }

  /** The closing parenthesis behind an expression that the parser has read. */
  lemma CloseFed(s: seq<Item>, e: Expr, rest: seq<Token>)
    requires !EndsInOperand(s)
    ensures Parse(Feed(s + [SOpen], e), [Close] + rest) == Parse(s + [Operand(LeftAssoc(e))], rest)
  {
    var s1 := s + [SOpen];
    assert s1 == Pending(s1, None, SOr);
    ReduceOr(s1, None, e, LookEnd);
    LeftAssocIsAppendOr(e);
    assert s1 + [Operand(LeftAssoc(e))] == s + [SOpen, Operand(LeftAssoc(e))];
    ParseClose(Feed(s1, e), s, LeftAssoc(e), rest);
  }

  lemma LeftAssocIsAppendOr(e: Expr)
    ensures AppendOr(None, e) == LeftAssoc(e)
  {
  }

  /** Parsing what expr_print prints gives the expression back, re-associated to
      the left, with the same value in every environment. */
  lemma PrintThenParse(e: Expr)
    ensures Parse([], Print(e, Nothing)) == Some(LeftAssoc(e))
    ensures forall env :: Value(LeftAssoc(e), env) == Value(e, env)
  {
    assert Print(e, Nothing) == PrintBare(e) + [];
    ParseFeed([], e, []);
    assert Pending([], None, SOr) == [];
    ReduceOr([], None, e, LookEnd);
    assert AppendOr(None, e) == LeftAssoc(e);
    forall env ensures Value(LeftAssoc(e), env) == Value(e, env) {
      LeftAssocValue(e, env);
    }
  }

  /** Every chain is already associated to the left. */
  predicate IsLeftAssoc(e: Expr) {
    match e
    case Not(x) => IsLeftAssoc(x)
    case And(l, r) => !r.And? && IsLeftAssoc(l) && IsLeftAssoc(r)
    case Or(l, r) => !r.Or? && IsLeftAssoc(l) && IsLeftAssoc(r)
    case _ => true
  }

  /** The round trip is the identity exactly on those expressions, so a second
      one changes nothing. */
  lemma {:induction false} LeftAssocFixed(e: Expr)
    ensures IsLeftAssoc(LeftAssoc(e))
    ensures LeftAssoc(e) == e <==> IsLeftAssoc(e)
  {
    LeftAssocNormal(e);
    if IsLeftAssoc(e) {
      LeftAssocIdentity(e);
    }
  }

  lemma {:induction false} LeftAssocNormal(e: Expr)
    ensures IsLeftAssoc(LeftAssoc(e))
    ensures LeftAssoc(e).And? <==> e.And?
    ensures LeftAssoc(e).Or? <==> e.Or?
    decreases e, 1
  {
    match e
    case Not(x) => LeftAssocNormal(x);
    case And(_, _) => AppendAndNormal(None, e);
    case Or(_, _) => AppendOrNormal(None, e);
    case _ =>
  }

  lemma {:induction false} AppendAndNormal(acc: Option<Expr>, e: Expr)
    requires acc.Some? ==> IsLeftAssoc(acc.value)
    ensures IsLeftAssoc(AppendAnd(acc, e))
    ensures acc.Some? || e.And? ==> AppendAnd(acc, e).And?
    decreases e, if e.And? then 0 else 2
  {
    if e.And? {
      AppendAndNormal(acc, e.l);
      AppendAndNormal(Some(AppendAnd(acc, e.l)), e.r);
    } else {
      LeftAssocNormal(e);
    }
  }

  lemma {:induction false} AppendOrNormal(acc: Option<Expr>, e: Expr)
    requires acc.Some? ==> IsLeftAssoc(acc.value)
    ensures IsLeftAssoc(AppendOr(acc, e))
    ensures acc.Some? || e.Or? ==> AppendOr(acc, e).Or?
    decreases e, if e.Or? then 0 else 2
  {
    if e.Or? {
      AppendOrNormal(acc, e.l);
      AppendOrNormal(Some(AppendOr(acc, e.l)), e.r);
    } else {
      LeftAssocNormal(e);
    }
  }

  lemma {:induction false} LeftAssocIdentity(e: Expr)
    requires IsLeftAssoc(e)
    ensures LeftAssoc(e) == e
  {
    match e
    case Not(x) => LeftAssocIdentity(x);
    case And(l, r) =>
      LeftAssocIdentity(l);
      LeftAssocIdentity(r);
      assert AppendAnd(None, l) == LeftAssoc(l);
      assert AppendAnd(None, e) == AppendAnd(Some(AppendAnd(None, l)), r);
    case Or(l, r) =>
      LeftAssocIdentity(l);
      LeftAssocIdentity(r);
      assert AppendOr(None, l) == LeftAssoc(l);
      assert AppendOr(None, e) == AppendOr(Some(AppendOr(None, l)), r);
    case _ =>
  }

  /** Some operand binds less tightly than what it is in: an OR under AND, or a group under NOT. */
  predicate Mixed(e: Expr) {
    match e
    case Not(x) => IsGroup(x) || Mixed(x)
    case And(l, r) => l.Or? || r.Or? || Mixed(l) || Mixed(r)
    case Or(l, r) => Mixed(l) || Mixed(r)
    case _ => false
  }

  /** Parentheses are printed where they are needed only. */
  lemma {:induction false} ParensNeeded(e: Expr)
    ensures Open in PrintBare(e) <==> Mixed(e)
  {
    match e
    case Not(x) => ParensNeeded(x);
    case And(l, r) => ParensNeeded(l); ParensNeeded(r);
    case Or(l, r) => ParensNeeded(l); ParensNeeded(r);
    case _ =>
  }
}
