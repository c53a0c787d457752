/**
 * The trees precedence climbing builds, on streams of single-identifier
 * operands separated by operator tokens (the lexer hands operators out as
 * Unknown tokens carrying the character).
 */
module ParseShapes {
  import opened Wrappers
  import opened Grammar
  import opened Ast
  import opened Parsing

  function Var(name: string): Token {
    TextToken(name, Identifier)
  }

  function Op(op: string): Token {
    TextToken(op, Unknown)
  }

  /** op1 name1 op2 name2 ... */
  function Chain(ops: seq<string>, names: seq<string>): seq<Token>
    requires |ops| == |names|
  {
    if ops == [] then [] else [Op(ops[0]), Var(names[0])] + Chain(ops[1..], names[1..])
  }

  /** ((lhs op1 name1) op2 name2) ... */
  function FoldLeft(lhs: Expr, ops: seq<string>, names: seq<string>): Expr
    requires |ops| == |names|
    decreases |ops|
  {
    if ops == [] then lhs else FoldLeft(Binary(ops[0], lhs, Variable(names[0])), ops[1..], names[1..])
  }

  /** The stream after an expression ends it: no operator, and no '(' that would make a call. */
  predicate Ends(tail: seq<Token>) {
    GetPrecedence(Peek(tail).text) == -1 && Peek(tail).text != "("
  }

  /** An identifier followed by a token other than '(' is a Variable. */
  lemma VariableOperand(name: string, rest: seq<Token>)
    requires Peek(rest).text != "("
    ensures PrimarySpec([Var(name)] + rest) == Parsed(Some(Variable(name)), rest, [])
  {
    assert Advance([Var(name)] + rest) == rest;
  }

  /**
   * A chain of operators of one precedence, at or above prec, folds to the
   * left: x + y - z is (x + y) - z.
   */
  lemma {:induction false} SamePrecedenceAssociatesLeft(prec: int, lhs: Expr, ops: seq<string>, names: seq<string>, tail: seq<Token>)
    requires |ops| == |names| && prec >= 0 && OpsInTable(lhs)
    requires forall i :: 0 <= i < |ops| ==> prec <= GetPrecedence(ops[i]) == GetPrecedence(ops[0])
    requires Ends(tail)
    ensures RHSSpec(prec, lhs, Chain(ops, names) + tail) == Parsed(Some(FoldLeft(lhs, ops, names)), tail, [])
    decreases |ops|
  {
    if ops == [] {
      assert Chain(ops, names) + tail == tail;
    } else {
      var rest := Chain(ops[1..], names[1..]) + tail;
      assert Chain(ops, names) + tail == [Op(ops[0])] + ([Var(names[0])] + rest);
      var next := Peek(rest);
      assert next.text != "(" && GetPrecedence(next.text) <= GetPrecedence(ops[0]) by {
        if ops[1..] != [] {
          assert rest[0] == Op(ops[1]);
        } else {
          assert rest == tail;
        }
      }
      VariableOperandStops(prec, GetPrecedence(ops[0]), names[0], rest);
      ClimbFolds(prec, lhs, ops[0], [Var(names[0])] + rest, Variable(names[0]), rest);
      var lhs' := Binary(ops[0], lhs, Variable(names[0]));
      forall i | 0 <= i < |ops[1..]|
        ensures prec <= GetPrecedence(ops[1..][i]) == GetPrecedence(ops[1..][0])
      {
        assert ops[1..][i] == ops[i + 1];
      }
      SamePrecedenceAssociatesLeft(prec, lhs', ops[1..], names[1..], tail);
    }
  }

  /** An expression that starts with an identifier not followed by '(' climbs from that Variable. */
  lemma ExpressionFromVariable(name: string, rest: seq<Token>)
    requires Peek(rest).text != "("
    ensures ExpressionSpec([Var(name)] + rest) == RHSSpec(0, Variable(name), rest)
  {
    VariableOperand(name, rest);
  }

  /** A lone identifier before the end of an expression is a Variable. */
  lemma LoneVariable(name: string, tail: seq<Token>)
    requires Ends(tail)
    ensures ExpressionSpec([Var(name)] + tail) == Parsed(Some(Variable(name)), tail, [])
  {
    ExpressionFromVariable(name, tail);
  }

  lemma FiveTokens(t1: Token, t2: Token, t3: Token, t4: Token, t5: Token, tail: seq<Token>)
    ensures [t1, t2, t3, t4, t5] + tail == [t1] + ([t2] + ([t3] + ([t4] + ([t5] + tail))))
  {
  }

  lemma SevenTokens(t1: Token, t2: Token, t3: Token, t4: Token, t5: Token, t6: Token, t7: Token, tail: seq<Token>)
    ensures [t1, t2, t3, t4, t5, t6, t7] + tail == [t1] + ([t2] + ([t3] + ([t4] + ([t5] + ([t6] + ([t7] + tail))))))
  {
  }

  /** A Variable operand: the operator after it does not bind tighter than tokPrec. */
  lemma VariableOperandStops(prec: int, tokPrec: int, name: string, rest: seq<Token>)
    requires prec >= 0 && Peek(rest).text != "(" && GetPrecedence(Peek(rest).text) <= tokPrec
    ensures OperandSpec(prec, tokPrec, [Var(name)] + rest) == Parsed(Some(Variable(name)), rest, [])
  {
    VariableOperand(name, rest);
  }

  /** A Variable operand followed by a tighter operator starts a climb from prec + 1. */
  lemma VariableOperandClimbs(prec: int, tokPrec: int, name: string, rest: seq<Token>)
    requires prec >= 0 && Peek(rest).text != "(" && tokPrec < GetPrecedence(Peek(rest).text)
    ensures OperandSpec(prec, tokPrec, [Var(name)] + rest) == RHSSpec(prec + 1, Variable(name), rest)
  {
    VariableOperand(name, rest);
  }

  /** The climb stops before a lookahead of precedence below prec and returns lhs. */
  lemma ClimbStops(prec: int, lhs: Expr, ts: seq<Token>)
    requires prec >= 0 && OpsInTable(lhs) && GetPrecedence(Peek(ts).text) < prec
    ensures RHSSpec(prec, lhs, ts) == Parsed(Some(lhs), ts, [])
  {
  }

  /** The climb consumes an operator of precedence at least prec and folds its operand into lhs. */
  lemma ClimbFolds(prec: int, lhs: Expr, op: string, rest: seq<Token>, rhs: Expr, after: seq<Token>)
    requires prec >= 0 && OpsInTable(lhs) && prec <= GetPrecedence(op)
    requires OperandSpec(prec, GetPrecedence(op), rest) == Parsed(Some(rhs), after, [])
    ensures RHSSpec(prec, lhs, [Op(op)] + rest) == RHSSpec(prec, Binary(op, lhs, rhs), after)
  {
    assert Advance([Op(op)] + rest) == rest;
    assert OpsInTable(rhs) by {
      assert OperandSpec(prec, GetPrecedence(op), rest).result.Some?;
    }
  }

  /**
   * A tighter operator on the right is absorbed into the right operand:
   * x a y b z with a binding looser than b is x a (y b z), as 1 + 2 * 3
   * is 1 + (2 * 3).
   */
  lemma TighterRightAbsorbed(x: string, a: string, y: string, b: string, z: string, tail: seq<Token>)
    requires 0 < GetPrecedence(a) < GetPrecedence(b)
    requires Ends(tail)
    ensures ExpressionSpec([Var(x), Op(a), Var(y), Op(b), Var(z)] + tail)
         == Parsed(Some(Binary(a, Variable(x), Binary(b, Variable(y), Variable(z)))), tail, [])
  {
    var r2 := [Op(b)] + ([Var(z)] + tail);
    var r1 := [Op(a)] + ([Var(y)] + r2);
    FiveTokens(Var(x), Op(a), Var(y), Op(b), Var(z), tail);
    ExpressionFromVariable(x, r1);
    var yz := Binary(b, Variable(y), Variable(z));
    VariableOperandStops(1, GetPrecedence(b), z, tail);
    ClimbFolds(1, Variable(y), b, [Var(z)] + tail, Variable(z), tail);
    ClimbStops(1, yz, tail);
    VariableOperandClimbs(0, GetPrecedence(a), y, r2);
    ClimbFolds(0, Variable(x), a, [Var(y)] + r2, yz, tail);
    ClimbStops(0, Binary(a, Variable(x), yz), tail);
  }

  /** The climb from 1 over y b z c w, with c no tighter than b: (y b z) c w. */
  lemma ClimbFromOne(y: string, b: string, z: string, c: string, w: string, tail: seq<Token>)
    requires 0 < GetPrecedence(c) <= GetPrecedence(b)
    requires Ends(tail)
    ensures RHSSpec(1, Variable(y), [Op(b)] + ([Var(z)] + ([Op(c)] + ([Var(w)] + tail))))
         == Parsed(Some(Binary(c, Binary(b, Variable(y), Variable(z)), Variable(w))), tail, [])
  {
    var r3 := [Op(c)] + ([Var(w)] + tail);
    var yz := Binary(b, Variable(y), Variable(z));
    VariableOperandStops(1, GetPrecedence(c), w, tail);
    ClimbFolds(1, yz, c, [Var(w)] + tail, Variable(w), tail);
    ClimbStops(1, Binary(c, yz, Variable(w)), tail);
    VariableOperandStops(1, GetPrecedence(b), z, r3);
    ClimbFolds(1, Variable(y), b, [Var(z)] + r3, Variable(z), r3);
  }

  /**
   * The climb into an absorbed operand restarts from prec + 1 (here 1),
   * not from the precedence of the operator before it, so the operators
   * that follow fold into the right operand whatever their precedence
   * (QuirkAbsorbsChain has it for any chain). With one more operator:
   * x a y b z c w with a looser than b and c no tighter than b is
   * x a ((y b z) c w).
   */
  lemma PrecPlusOneQuirk(x: string, a: string, y: string, b: string, z: string, c: string, w: string, tail: seq<Token>)
    requires 0 < GetPrecedence(a) < GetPrecedence(b)
    requires 0 < GetPrecedence(c) <= GetPrecedence(b)
    requires Ends(tail)
    ensures ExpressionSpec([Var(x), Op(a), Var(y), Op(b), Var(z), Op(c), Var(w)] + tail)
         == Parsed(Some(Binary(a, Variable(x), Binary(c, Binary(b, Variable(y), Variable(z)), Variable(w)))), tail, [])
  {
    var r2 := [Op(b)] + ([Var(z)] + ([Op(c)] + ([Var(w)] + tail)));
    var r1 := [Op(a)] + ([Var(y)] + r2);
    SevenTokens(Var(x), Op(a), Var(y), Op(b), Var(z), Op(c), Var(w), tail);
    ExpressionFromVariable(x, r1);
    var yzw := Binary(c, Binary(b, Variable(y), Variable(z)), Variable(w));
    AbsorbedOperand(GetPrecedence(a), y, b, z, c, w, tail);
    ClimbFolds(0, Variable(x), a, [Var(y)] + r2, yzw, tail);
    ClimbStops(0, Binary(a, Variable(x), yzw), tail);
  }

  /** The right operand of an operator looser than b, over y b z c w: (y b z) c w. */
  lemma AbsorbedOperand(tokPrec: int, y: string, b: string, z: string, c: string, w: string, tail: seq<Token>)
    requires tokPrec < GetPrecedence(b)
    requires 0 < GetPrecedence(c) <= GetPrecedence(b)
    requires Ends(tail)
    ensures OperandSpec(0, tokPrec, [Var(y)] + ([Op(b)] + ([Var(z)] + ([Op(c)] + ([Var(w)] + tail)))))
         == Parsed(Some(Binary(c, Binary(b, Variable(y), Variable(z)), Variable(w))), tail, [])
  {
    ClimbFromOne(y, b, z, c, w, tail);
    VariableOperandClimbs(0, tokPrec, y, [Op(b)] + ([Var(z)] + ([Op(c)] + ([Var(w)] + tail))));
  }

  /** The quirk on a - b * c - d: a - ((b * c) - d), not (a - (b * c)) - d. */
  lemma MinusTimesMinus()
    ensures ExpressionSpec([Var("a"), Op("-"), Var("b"), Op("*"), Var("c"), Op("-"), Var("d")])
         == Parsed(Some(Binary("-", Variable("a"), Binary("-", Binary("*", Variable("b"), Variable("c")), Variable("d")))), [], [])
  {
    PrecPlusOneQuirk("a", "-", "b", "*", "c", "-", "d", []);
    assert [Var("a"), Op("-"), Var("b"), Op("*"), Var("c"), Op("-"), Var("d")] + []
        == [Var("a"), Op("-"), Var("b"), Op("*"), Var("c"), Op("-"), Var("d")];
  }

  /**
   * A tighter operator on the left folds first: x a y b z with a binding
   * tighter than b is (x a y) b z, as x * y + z is (x * y) + z.
   */
  lemma TighterLeftFoldsLeft(x: string, a: string, y: string, b: string, z: string, tail: seq<Token>)
    requires GetPrecedence(a) > GetPrecedence(b) > 0
    requires Ends(tail)
    ensures ExpressionSpec([Var(x), Op(a), Var(y), Op(b), Var(z)] + tail)
         == Parsed(Some(Binary(b, Binary(a, Variable(x), Variable(y)), Variable(z))), tail, [])
  {
    var r2 := [Op(b)] + ([Var(z)] + tail);
    var r1 := [Op(a)] + ([Var(y)] + r2);
    FiveTokens(Var(x), Op(a), Var(y), Op(b), Var(z), tail);
    ExpressionFromVariable(x, r1);
    VariableOperandStops(0, GetPrecedence(a), y, r2);
    ClimbFolds(0, Variable(x), a, [Var(y)] + r2, Variable(y), r2);
    var xy := Binary(a, Variable(x), Variable(y));
    VariableOperandStops(0, GetPrecedence(b), z, tail);
    ClimbFolds(0, xy, b, [Var(z)] + tail, Variable(z), tail);
    ClimbStops(0, Binary(b, xy, Variable(z)), tail);
  }

  /**
   * ts is a run of table operators, each followed by an identifier or a
   * number, and then tail.
   */
  predicate ChainOf(ts: seq<Token>, tail: seq<Token>)
    decreases |ts|
  {
    || ts == tail
    || (&& |ts| >= 2
        && ts[0].text in Precedences
        && (ts[1].kind == Identifier || ts[1].kind == TokenType.Number)
        && ChainOf(ts[2..], tail))
  }

  /** Every table operator binds at least as tightly as `<`, at 10. */
  lemma TableOperatorAtLeastTen(op: string)
    requires op in Precedences
    ensures GetPrecedence(op) >= 10
  {
    assert op == "<" || op == "+" || op == "-" || op == "*";
  }

  /** A chain starts with a table operator or is the tail, and never with '('. */
  lemma ChainHead(ts: seq<Token>, tail: seq<Token>)
    requires ChainOf(ts, tail) && Ends(tail)
    ensures Peek(ts).text != "("
    ensures ts != tail ==> |ts| >= 2 && GetPrecedence(ts[0].text) >= 10
  {
    if ts != tail {
      TableOperatorAtLeastTen(ts[0].text);
    }
  }

  /**
   * A climb over a chain succeeds silently and stops at a chain boundary
   * whose lookahead binds looser than prec: nested climbs never stop
   * inside an operand.
   */
  lemma {:induction false} ClimbOverChain(prec: int, lhs: Expr, ts: seq<Token>, tail: seq<Token>)
    requires prec >= 0 && OpsInTable(lhs) && ChainOf(ts, tail) && Ends(tail)
    ensures var r := RHSSpec(prec, lhs, ts);
      && r.result.Some? && r.log == [] && ChainOf(r.rest, tail)
      && GetPrecedence(Peek(r.rest).text) < prec
    decreases |ts|, 0
  {
    var binop := Peek(ts).text;
    var tokPrec := GetPrecedence(binop);
    if tokPrec >= prec {
      ChainHead(ts, tail);
      assert Advance(ts) == ts[1..] && ts[1..][1..] == ts[2..];
      OperandOverChain(prec, tokPrec, ts[1..], tail);
      var o := OperandSpec(prec, tokPrec, ts[1..]);
      ClimbOverChain(prec, Binary(binop, lhs, o.result.value), o.rest, tail);
    }
  }

  /** The operand after an operator of a chain succeeds silently and stops at a chain boundary. */
  lemma {:induction false} OperandOverChain(prec: int, tokPrec: int, ts: seq<Token>, tail: seq<Token>)
    requires prec >= 0 && |ts| >= 1 && (ts[0].kind == Identifier || ts[0].kind == TokenType.Number)
    requires ChainOf(ts[1..], tail) && Ends(tail)
    ensures var r := OperandSpec(prec, tokPrec, ts);
      r.result.Some? && r.log == [] && ChainOf(r.rest, tail)
    decreases |ts|, 1
  {
    var rest := ts[1..];
    assert Advance(ts) == rest;
    ChainHead(rest, tail);
    var p := PrimarySpec(ts);
    if ts[0].kind == Identifier {
      assert p == IdentifierSpec(ts) == Parsed(Some(Variable(ts[0].text)), rest, []);
    } else {
      assert p == NumberSpec(ts) == Parsed(Some(Expr.Number(ts[0].value)), rest, []);
    }
    if tokPrec < GetPrecedence(Peek(rest).text) {
      ClimbOverChain(prec + 1, p.result.value, rest, tail);
    }
  }

  lemma {:induction false} ChainIsChainOf(ops: seq<string>, names: seq<string>, tail: seq<Token>)
    requires |ops| == |names| && forall i | 0 <= i < |ops| :: ops[i] in Precedences
    ensures ChainOf(Chain(ops, names) + tail, tail)
    decreases |ops|
  {
    if ops != [] {
      var ts := Chain(ops, names) + tail;
      assert ts[2..] == Chain(ops[1..], names[1..]) + tail;
      assert forall i | 0 <= i < |ops[1..]| :: ops[1..][i] in Precedences by {
        forall i | 0 <= i < |ops[1..]| ensures ops[1..][i] in Precedences {
          assert ops[1..][i] == ops[i + 1];
        }
      }
      ChainIsChainOf(ops[1..], names[1..], tail);
    }
  }

  /**
   * A climb from any precedence up to that of `<` (the nested climb from
   * prec + 1 == 1 among them) takes in every later operator of a chain,
   * whatever its precedence, and stops only where the chain ends.
   */
  lemma ClimbConsumesChain(prec: int, lhs: Expr, ops: seq<string>, names: seq<string>, tail: seq<Token>)
    requires 0 <= prec <= 10 && OpsInTable(lhs) && |ops| == |names|
    requires forall i | 0 <= i < |ops| :: ops[i] in Precedences
    requires Ends(tail)
    ensures var r := RHSSpec(prec, lhs, Chain(ops, names) + tail);
      r.result.Some? && r.rest == tail && r.log == []
  {
    var ts := Chain(ops, names) + tail;
    ChainIsChainOf(ops, names, tail);
    ClimbOverChain(prec, lhs, ts, tail);
    ChainHead(RHSSpec(prec, lhs, ts).rest, tail);
  }

  /** x followed by any chain of table operators and identifiers parses whole, as one expression. */
  lemma ChainExpressionConsumed(x: string, ops: seq<string>, names: seq<string>, tail: seq<Token>)
    requires |ops| == |names| && forall i | 0 <= i < |ops| :: ops[i] in Precedences
    requires Ends(tail)
    ensures var r := ExpressionSpec([Var(x)] + (Chain(ops, names) + tail));
      r.result.Some? && r.rest == tail && r.log == []
  {
    ChainIsChainOf(ops, names, tail);
    ChainHead(Chain(ops, names) + tail, tail);
    ExpressionFromVariable(x, Chain(ops, names) + tail);
    ClimbConsumesChain(0, Variable(x), ops, names, tail);
  }

  /**
   * The quirk in general: once x a y meets an operator binding tighter
   * than a, the whole rest of the chain, whatever the precedences of its
   * later operators, becomes a's right operand.
   */
  lemma QuirkAbsorbsChain(x: string, a: string, y: string, ops: seq<string>, names: seq<string>, tail: seq<Token>)
    requires |ops| == |names| && forall i | 0 <= i < |ops| :: ops[i] in Precedences
    requires ops != [] && 0 < GetPrecedence(a) < GetPrecedence(ops[0])
    requires Ends(tail)
    ensures var r := ExpressionSpec([Var(x)] + ([Op(a)] + ([Var(y)] + (Chain(ops, names) + tail))));
      && r.result.Some? && r.rest == tail && r.log == []
      && r.result.value.Binary? && r.result.value.op == a && r.result.value.lhs == Variable(x)
  {
    var c := Chain(ops, names) + tail;
    ChainIsChainOf(ops, names, tail);
    ChainHead(c, tail);
    ExpressionFromVariable(x, [Op(a)] + ([Var(y)] + c));
    VariableOperandClimbs(0, GetPrecedence(a), y, c);
    ClimbConsumesChain(1, Variable(y), ops, names, tail);
    var rhs := RHSSpec(1, Variable(y), c).result.value;
    ClimbFolds(0, Variable(x), a, [Var(y)] + c, rhs, tail);
    ClimbStops(0, Binary(a, Variable(x), rhs), tail);
  }

  /** The lexer hands ',' out as an Unknown token. */
  const Comma := Op(",")

  /** n1 , n2 , ... , nk */
  function ArgList(names: seq<string>): seq<Token>
    requires names != []
  {
    if |names| == 1 then [Var(names[0])] else [Var(names[0]), Comma] + ArgList(names[1..])
  }

  function Variables(names: seq<string>): (vs: seq<Expr>)
    ensures |vs| == |names|
    ensures forall i :: 0 <= i < |names| ==> vs[i] == Variable(names[i])
  {
    if names == [] then [] else [Variable(names[0])] + Variables(names[1..])
  }

  /** An argument followed by ')' closes the list. */
  lemma ArgsLastArgument(acc: seq<Expr>, arg: Expr, rest: seq<Token>)
    requires forall a | a in acc :: OpsInTable(a)
    requires Peek(rest).text == ")"
    requires arg.Variable? && ExpressionSpec([Var(arg.name)] + rest) == Parsed(Some(arg), rest, [])
    ensures ArgsSpec([Var(arg.name)] + rest, acc) == Parsed(Some(acc + [arg]), rest, [])
  {
  }

  /** An argument followed by ',' is added and the loop goes on after the comma. */
  lemma ArgsNextArgument(acc: seq<Expr>, arg: Expr, more: seq<Token>, ts: seq<Token>)
    requires forall a | a in acc :: OpsInTable(a)
    requires arg.Variable? && ts == [Var(arg.name)] + ([Comma] + more)
    requires ExpressionSpec(ts) == Parsed(Some(arg), [Comma] + more, [])
    ensures ArgsSpec(ts, acc) == ArgsSpec(more, acc + [arg])
  {
    assert Advance([Comma] + more) == more;
  }

  /** Arguments are collected in source order, after those already read. */
  lemma {:induction false} ArgumentsInSourceOrder(names: seq<string>, acc: seq<Expr>, tail: seq<Token>)
    requires names != [] && Peek(tail).text == ")"
    requires forall a | a in acc :: OpsInTable(a)
    ensures ArgsSpec(ArgList(names) + tail, acc) == Parsed(Some(acc + Variables(names)), tail, [])
    decreases |names|
  {
    var v := Variable(names[0]);
    if |names| == 1 {
      assert ArgList(names) + tail == [Var(names[0])] + tail;
      LoneVariable(names[0], tail);
      ArgsLastArgument(acc, v, tail);
      assert Variables(names) == [v];
    } else {
      var more := ArgList(names[1..]) + tail;
      ArgListUnfold(names, tail);
      LoneVariable(names[0], [Comma] + more);
      ArgsNextArgument(acc, v, more, [Var(names[0])] + ([Comma] + more));
      AccumulatedInTable(acc, v);
      ArgumentsInSourceOrder(names[1..], acc + [v], tail);
      VariablesAppend(acc, names);
    }
  }

  lemma ArgListUnfold(names: seq<string>, tail: seq<Token>)
    requires |names| > 1
    ensures ArgList(names) + tail == [Var(names[0])] + ([Comma] + (ArgList(names[1..]) + tail))
  {
  }

  lemma AccumulatedInTable(acc: seq<Expr>, v: Expr)
    requires forall a | a in acc :: OpsInTable(a)
    requires v.Variable?
    ensures forall a | a in acc + [v] :: OpsInTable(a)
  {
  }

  lemma VariablesAppend(acc: seq<Expr>, names: seq<string>)
    requires names != []
    ensures (acc + [Variable(names[0])]) + Variables(names[1..]) == acc + Variables(names)
  {
  }

  /** f(x1, ..., xk) is a Call of f on the Variables x1 ... xk, in order. */
  lemma CallArguments(f: string, names: seq<string>, tail: seq<Token>)
    requires names != [] && names[0] != ")"
    ensures PrimarySpec([Var(f), Op("(")] + ArgList(names) + [Op(")")] + tail)
         == Parsed(Some(Call(f, Variables(names))), tail, [])
  {
    var ts := [Var(f), Op("(")] + ArgList(names) + [Op(")")] + tail;
    var ts2 := ArgList(names) + ([Op(")")] + tail);
    assert Advance(Advance(ts)) == ts2;
    assert Peek(ts2).text != ")" by {
      assert ts2[0] == Var(names[0]);
    }
    ArgumentsInSourceOrder(names, [], [Op(")")] + tail);
    assert [] + Variables(names) == Variables(names);
    assert Advance([Op(")")] + tail) == tail;
  }

  /** f() is a Call of f with no arguments. */
  lemma EmptyCall(f: string, tail: seq<Token>)
    ensures PrimarySpec([Var(f), Op("("), Op(")")] + tail) == Parsed(Some(Call(f, [])), tail, [])
  {
    var ts := [Var(f), Op("("), Op(")")] + tail;
    assert Advance(ts) == [Op("("), Op(")")] + tail;
    assert Advance(Advance(ts)) == [Op(")")] + tail;
    assert Advance(Advance(Advance(ts))) == tail;
  }

  /** A parameter list's tokens: identifiers and commas, in any order. */
  predicate ParameterTokens(ts: seq<Token>) {
    forall i :: 0 <= i < |ts| ==> ts[i].kind == Identifier || ts[i].text == ","
  }

  /** The texts of the identifier tokens, in order. */
  function Identifiers(ts: seq<Token>): (names: seq<string>)
    ensures |names| <= |ts|
  {
    if ts == [] then []
    else if ts[0].kind == Identifier then [ts[0].text] + Identifiers(ts[1..])
    else Identifiers(ts[1..])
  }

  /**
   * Parameters are the identifiers in source order; commas are neither
   * required nor limited to one between names.
   */
  lemma {:induction false} ParametersInSourceOrder(ts: seq<Token>, acc: seq<string>, tail: seq<Token>)
    requires ParameterTokens(ts)
    requires Peek(tail).kind != Identifier && Peek(tail).text == ")"
    ensures ParamsSpec(ts + tail, acc) == Parsed(Some(acc + Identifiers(ts)), tail, [])
    decreases |ts|
  {
    if ts == [] {
      assert ts + tail == tail;
      AppendEmpty(acc);
    } else {
      assert Advance(ts + tail) == ts[1..] + tail;
      assert ParameterTokens(ts[1..]) by {
        forall i | 0 <= i < |ts[1..]|
          ensures ts[1..][i].kind == Identifier || ts[1..][i].text == ","
        {
          assert ts[1..][i] == ts[i + 1];
        }
      }
      assert (ts + tail)[0] == ts[0];
      if ts[0].kind == Identifier {
        ParametersInSourceOrder(ts[1..], acc + [ts[0].text], tail);
        assert acc + [ts[0].text] + Identifiers(ts[1..]) == acc + Identifiers(ts);
      } else {
        ParametersInSourceOrder(ts[1..], acc, tail);
      }
    }
  }

  /** name ( followed by a parameter list that does not start with ')'. */
  lemma PrototypeOpens(name: string, ts2: seq<Token>)
    requires Peek(ts2).text != ")"
    ensures var ps := ParamsSpec(ts2, []);
      PrototypeSpec([Var(name)] + ([Op("(")] + ts2))
      == if ps.result.None? then Parsed(None, ps.rest, ps.log) else Parsed(Some(Prototype(name, ps.result.value)), Advance(ps.rest), [])
  {
    assert Advance([Var(name)] + ([Op("(")] + ts2)) == [Op("(")] + ts2;
    assert Advance([Op("(")] + ts2) == ts2;
  }

  /** name ( parameters ) is a Prototype with the parameter names in source order. */
  lemma PrototypeParameters(name: string, ps: seq<Token>, tail: seq<Token>)
    requires ParameterTokens(ps) && (ps == [] || ps[0].text != ")")
    ensures PrototypeSpec([Var(name)] + ([Op("(")] + (ps + ([Op(")")] + tail))))
         == Parsed(Some(Prototype(name, Identifiers(ps))), tail, [])
  {
    var close := [Op(")")] + tail;
    assert Advance(close) == tail;
    if ps == [] {
      assert ps + close == close;
      assert Advance([Var(name)] + ([Op("(")] + close)) == [Op("(")] + close;
      assert Advance([Op("(")] + close) == close;
    } else {
      assert Peek(ps + close) == ps[0];
      PrototypeOpens(name, ps + close);
      ParametersInSourceOrder(ps, [], close);
      assert [] + Identifiers(ps) == Identifiers(ps);
    }
  }

  /** A prototype that does not start with an identifier fails at once, consuming nothing. */
  lemma PrototypeNeedsName(ts: seq<Token>)
    requires Peek(ts).kind != Identifier
    ensures PrototypeSpec(ts) == Parsed(None, ts, [ErrorLine("Expected name in function definition")])
  {
  }

  /** A name not followed by '(' fails after consuming the name. */
  lemma PrototypeNeedsParenthesis(name: string, ts: seq<Token>)
    requires Peek(ts).text != "("
    ensures PrototypeSpec([Var(name)] + ts) == Parsed(None, ts, [ErrorLine("Expected '(' in function definition")])
  {
    assert Advance([Var(name)] + ts) == ts;
  }

  /** A separator other than ',' or ')' after an argument fails the call where it stands. */
  lemma BadSeparator(acc: seq<Expr>, name: string, sep: Token, tail: seq<Token>)
    requires forall a | a in acc :: OpsInTable(a)
    requires Ends([sep] + tail) && sep.text != ")" && sep.text != ","
    ensures ArgsSpec([Var(name), sep] + tail, acc)
         == Parsed(None, [sep] + tail, [ErrorLine("Unexpected token '" + sep.text + "'. Expected ',' or ')'")])
  {
    assert [Var(name), sep] + tail == [Var(name)] + ([sep] + tail);
    LoneVariable(name, [sep] + tail);
  }

  /** ( x ) is just x: the parentheses leave no node behind. */
  lemma ParenthesisedVariable(name: string, tail: seq<Token>)
    ensures PrimarySpec([Op("("), Var(name), Op(")")] + tail) == Parsed(Some(Variable(name)), tail, [])
  {
    var close := [Op(")")] + tail;
    assert [Op("("), Var(name), Op(")")] + tail == [Op("(")] + ([Var(name)] + close);
    assert Advance([Op("(")] + ([Var(name)] + close)) == [Var(name)] + close;
    LoneVariable(name, close);
    assert Advance(close) == tail;
  }

  /** ( x without its ')' fails with "Expected ')'" at the token after x. */
  lemma UnclosedParenthesis(name: string, t: Token, tail: seq<Token>)
    requires Ends([t] + tail) && t.text != ")"
    ensures PrimarySpec([Op("("), Var(name), t] + tail) == Parsed(None, [t] + tail, [ErrorLine("Expected ')'")])
  {
    var rest := [t] + tail;
    assert [Op("("), Var(name), t] + tail == [Op("(")] + ([Var(name)] + rest);
    assert Advance([Op("(")] + ([Var(name)] + rest)) == [Var(name)] + rest;
    LoneVariable(name, rest);
  }

  /** A definition succeeds exactly when its prototype and its body both parse, and then holds both. */
  lemma DefinitionNeedsBoth(ts: seq<Token>)
    requires Peek(ts).kind == Definition
    ensures var p := PrototypeSpec(Advance(ts)); var d := DefinitionSpec(ts);
      && (d.result.Some? <==> p.result.Some? && ExpressionSpec(p.rest).result.Some?)
      && (d.result.Some? ==> d.result.value == Function(p.result.value, ExpressionSpec(p.rest).result.value))
  {
  }
}
