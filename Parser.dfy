/**
 * The parser: recursive descent with one token of lookahead and
 * precedence climbing for binary operators.
 *
 * The first half states what every parsing routine does as a function
 * of the token stream that is still to be read (the lookahead followed
 * by everything the lexer will yet hand out): which node it returns
 * (None for the source's null), how much of the stream it consumes, and
 * which lines it writes to the console. The class Parser below holds the
 * mutable state (the lexer, the lookahead and the console) and each of
 * its methods is proved to do exactly what the matching function says.
 */
module Parsing {
  import opened Wrappers
  import opened Grammar
  import opened Ast
  import opened Lexing

  /** The lookahead of a remaining stream: EOL once the lexer is exhausted. */
  function Peek(ts: seq<Token>): Token {
    if ts == [] then KindToken(EOL) else ts[0]
  }

  /** The remaining stream after one NextToken. */
  function Advance(ts: seq<Token>): seq<Token> {
    if ts == [] then [] else ts[1..]
  }

  lemma AppendEmpty<T>(a: seq<T>)
    ensures a + [] == a
  {
  }

  lemma AppendAssoc<T>(a: seq<T>, b: seq<T>, c: seq<T>)
    ensures a + (b + c) == (a + b) + c
  {
  }

  /** The outcome of one parsing routine: its node (None for null), the stream left, the lines it printed. */
  datatype Parsed<T> = Parsed(result: Option<T>, rest: seq<Token>, log: seq<string>)

  const ErrorPrefix := "Error:\t"

  /** The line LogError prints. */
  function ErrorLine(message: string): string {
    ErrorPrefix + message
  }

  /** A routine never grows the stream, and a success consumes at least one token. */
  predicate Consumes<T>(p: Parsed<T>, ts: seq<Token>) {
    |p.rest| <= |ts| && (p.result.Some? ==> |p.rest| < |ts|)
  }

  /** A routine prints at most one line, and nothing when it succeeds. */
  predicate Quiet<T>(p: Parsed<T>) {
    |p.log| <= 1 && (p.result.Some? ==> p.log == [])
  }

  /** Every operator in the tree is one of the precedence table's. */
  predicate OpsInTable(e: Expr) {
    match e
    case Number(_) => true
    case Variable(_) => true
    case Binary(op, lhs, rhs) => op in Precedences && OpsInTable(lhs) && OpsInTable(rhs)
    case Call(_, args) => forall a | a in args :: OpsInTable(a)
  }

  /** expression := primary binoprhs, climbing from precedence 0. */
  function ExpressionSpec(ts: seq<Token>): (r: Parsed<Expr>)
    ensures Consumes(r, ts) && Quiet(r)
    ensures r.result.Some? ==> OpsInTable(r.result.value)
    decreases |ts|, 3
  {
    var p := PrimarySpec(ts);
    if p.result.None? then p
    else RHSSpec(0, p.result.value, p.rest)
  }

  /** primary := identifierexpr | numberexpr | parenexpr, dispatched on the lookahead. */
  function PrimarySpec(ts: seq<Token>): (r: Parsed<Expr>)
    ensures Consumes(r, ts) && Quiet(r)
    ensures r.result.Some? ==> OpsInTable(r.result.value)
    decreases |ts|, 2
  {
    var t := Peek(ts);
    match t.kind
    case Identifier => IdentifierSpec(ts)
    case Number => NumberSpec(ts)
    case _ =>
      if t.text == "(" then ParenSpec(ts)
      else Parsed(None, ts, [ErrorLine("Unexpected token '" + t.text + "'")])
  }

  /** A number literal becomes a Number node holding the token's value. */
  function NumberSpec(ts: seq<Token>): (r: Parsed<Expr>)
    requires Peek(ts).kind == TokenType.Number
    ensures Consumes(r, ts) && Quiet(r)
    ensures r.result == Some(Expr.Number(ts[0].value)) && |r.rest| == |ts| - 1
  {
    Parsed(Some(Expr.Number(Peek(ts).value)), Advance(ts), [])
  }

  /** parenexpr := '(' expression ')'; the parentheses leave no node behind. */
  function ParenSpec(ts: seq<Token>): (r: Parsed<Expr>)
    requires Peek(ts).text == "("
    ensures Consumes(r, ts) && Quiet(r)
    ensures r.result.Some? ==> OpsInTable(r.result.value)
    decreases |ts|, 1
  {
    var e := ExpressionSpec(Advance(ts));
    if e.result.None? then e
    else if Peek(e.rest).text != ")" then Parsed(None, e.rest, [ErrorLine("Expected ')'")])
    else Parsed(e.result, Advance(e.rest), [])
  }

  /**
   * identifierexpr := identifier | identifier '(' arguments? ')': a
   * Variable unless the identifier is followed by '(', a Call otherwise.
   */
  function IdentifierSpec(ts: seq<Token>): (r: Parsed<Expr>)
    requires Peek(ts).kind == Identifier
    ensures Consumes(r, ts) && Quiet(r)
    ensures r.result.Some? ==> OpsInTable(r.result.value)
    decreases |ts|, 1
  {
    var name := Peek(ts).text;
    var ts1 := Advance(ts);
    if Peek(ts1).text != "(" then Parsed(Some(Variable(name)), ts1, [])
    else
      var ts2 := Advance(ts1);
      if Peek(ts2).text == ")" then Parsed(Some(Call(name, [])), Advance(ts2), [])
      else
        var a := ArgsSpec(ts2, []);
        if a.result.None? then Parsed(None, a.rest, a.log)
        else Parsed(Some(Call(name, a.result.value)), Advance(a.rest), [])
  }

  /**
   * The argument loop of a call: expressions separated by ',' up to ')',
   * which is left for the caller. acc holds the arguments already parsed.
   */
  function ArgsSpec(ts: seq<Token>, acc: seq<Expr>): (r: Parsed<seq<Expr>>)
    requires forall a | a in acc :: OpsInTable(a)
    ensures Consumes(r, ts) && Quiet(r)
    ensures r.result.Some? ==> Peek(r.rest).text == ")"
    ensures r.result.Some? ==> |r.result.value| > |acc| && r.result.value[..|acc|] == acc
    ensures r.result.Some? ==> forall a | a in r.result.value :: OpsInTable(a)
    decreases |ts|, 4
  {
    var e := ExpressionSpec(ts);
    if e.result.None? then Parsed(None, e.rest, e.log)
    else
      var args := acc + [e.result.value];
      var sep := Peek(e.rest);
      if sep.text == ")" then Parsed(Some(args), e.rest, [])
      else if sep.text != "," then
        Parsed(None, e.rest, [ErrorLine("Unexpected token '" + sep.text + "'. Expected ',' or ')'")])
      else ArgsSpec(Advance(e.rest), args)
  }

  /**
   * binoprhs: precedence climbing. Stops, returning lhs, at the first
   * lookahead whose precedence is below prec (every non-operator has -1);
   * otherwise consumes the operator, reads its right operand and folds
   * it into lhs.
   */
  function RHSSpec(prec: int, lhs: Expr, ts: seq<Token>): (r: Parsed<Expr>)
    requires prec >= 0 && OpsInTable(lhs)
    ensures |r.rest| <= |ts| && Quiet(r)
    ensures r.result.Some? ==> OpsInTable(r.result.value)
    decreases |ts|, 0
  {
    var binop := Peek(ts).text;
    var tokPrec := GetPrecedence(binop);
    if tokPrec < prec then Parsed(Some(lhs), ts, [])
    else
      var o := OperandSpec(prec, tokPrec, Advance(ts));
      if o.result.None? then o
      else RHSSpec(prec, Binary(binop, lhs, o.result.value), o.rest)
  }

  /**
   * The right operand of an operator of precedence tokPrec: a primary,
   * extended by a climb from prec + 1 when the operator after it binds
   * tighter than tokPrec.
   */
  function OperandSpec(prec: int, tokPrec: int, ts: seq<Token>): (r: Parsed<Expr>)
    requires prec >= 0
    ensures Consumes(r, ts) && Quiet(r)
    ensures r.result.Some? ==> OpsInTable(r.result.value)
    decreases |ts|, 3
  {
    var p := PrimarySpec(ts);
    if p.result.None? then p
    else if tokPrec < GetPrecedence(Peek(p.rest).text) then RHSSpec(prec + 1, p.result.value, p.rest)
    else p
  }

  /**
   * prototype := identifier '(' parameters ')'. The parameter loop accepts
   * identifiers and commas in any order until ')'.
   */
  function PrototypeSpec(ts: seq<Token>): (r: Parsed<Prototype>)
    ensures |r.rest| <= |ts| && Quiet(r)
    ensures r.result.Some? ==> |r.rest| < |ts|
  {
    var t := Peek(ts);
    if t.kind != Identifier then Parsed(None, ts, [ErrorLine("Expected name in function definition")])
    else
      var ts1 := Advance(ts);
      if Peek(ts1).text != "(" then Parsed(None, ts1, [ErrorLine("Expected '(' in function definition")])
      else
        var ts2 := Advance(ts1);
        if Peek(ts2).text == ")" then Parsed(Some(Prototype(t.text, [])), Advance(ts2), [])
        else
          var ps := ParamsSpec(ts2, []);
          if ps.result.None? then Parsed(None, ps.rest, ps.log)
          else Parsed(Some(Prototype(t.text, ps.result.value)), Advance(ps.rest), [])
  }

  /** The parameter loop of a prototype; acc holds the names already read. */
  function ParamsSpec(ts: seq<Token>, acc: seq<string>): (r: Parsed<seq<string>>)
    ensures |r.rest| <= |ts| && Quiet(r)
    ensures r.result.Some? ==> Peek(r.rest).text == ")"
    decreases |ts|
  {
    var t := Peek(ts);
    if t.kind == Identifier then ParamsSpec(Advance(ts), acc + [t.text])
    else if t.text == ")" then Parsed(Some(acc), ts, [])
    else if t.text != "," then Parsed(None, ts, [ErrorLine("Unexpected token '" + t.text + "' in argument list")])
    else ParamsSpec(Advance(ts), acc)
  }

  /** definition := 'def' prototype expression; both parts must parse. */
  function DefinitionSpec(ts: seq<Token>): (r: Parsed<Function>)
    requires Peek(ts).kind == Definition
    ensures Consumes(r, ts) && Quiet(r)
    ensures r.result.Some? ==> OpsInTable(r.result.value.body)
  {
    var p := PrototypeSpec(Advance(ts));
    if p.result.None? then Parsed(None, p.rest, p.log)
    else
      var b := ExpressionSpec(p.rest);
      if b.result.Some? then Parsed(Some(Function(p.result.value, b.result.value)), b.rest, [])
      else Parsed(None, b.rest, b.log)
  }

  /** The prototype given to a bare top-level expression. */
  const AnonymousPrototype := Prototype("__proto", [])

  /**
   * toplevelexpr := expression, wrapped in a Function named "__proto"
   * with no parameters.
   */
  function TopLevelSpec(ts: seq<Token>): (r: Parsed<Function>)
    ensures Consumes(r, ts) && Quiet(r)
    ensures r.result.Some? ==> r.result.value.proto == AnonymousPrototype && OpsInTable(r.result.value.body)
  {
    var e := ExpressionSpec(ts);
    if e.result.None? then Parsed(None, e.rest, e.log)
    else Parsed(Some(Function(AnonymousPrototype, e.result.value)), e.rest, e.log)
  }

  /** What one call of Parse adds to the console and to the functions produced. */
  datatype Session = Session(functions: seq<Function>, log: seq<string>)

  const DefinitionParsed := "Parsed a function definition"
  const ExpressionParsed := "Parsed anonymous expression"

  function UnknownTokenLine(text: string): string {
    "Unknown or unexpected token '" + text + "'"
  }

  /** What one pass of the top-level loop prints and produces, and the stream it leaves. */
  datatype Item = Item(functions: seq<Function>, log: seq<string>, rest: seq<Token>)

  /**
   * One pass of the top-level loop, on a lookahead other than EOL: ';' is
   * skipped, an Unknown token is reported and skipped, 'def' starts a
   * definition and anything else a top-level expression; after a failed
   * definition or expression one more token is discarded.
   */
  function ItemSpec(ts: seq<Token>): (r: Item)
    requires Peek(ts).kind != EOL
    ensures |r.rest| < |ts|
    ensures |r.functions| <= |r.log| <= 1
  {
    var t := Peek(ts);
    if t.kind == Semicolon then Item([], [], Advance(ts))
    else if t.kind == Definition then DefinitionItem(ts)
    else if t.kind == Unknown then Item([], [UnknownTokenLine(t.text)], Advance(ts))
    else ExpressionItem(ts)
  }

  /**
   * What the loop does after a definition or a top-level expression: a
   * success is reported by `line`; after a failure, whose error is already
   * printed, one more token is discarded.
   */
  function Outcome(p: Parsed<Function>, line: string): (r: Item)
    requires Quiet(p)
    ensures |r.functions| <= |r.log| <= 1
    ensures |r.rest| <= |p.rest| && (p.result.None? && p.rest != [] ==> |r.rest| < |p.rest|)
  {
    if p.result.Some? then Item([p.result.value], [line], p.rest)
    else Item([], p.log, Advance(p.rest))
  }

  /** The 'def' case: a definition, reported as parsed or followed by one discarded token. */
  function DefinitionItem(ts: seq<Token>): (r: Item)
    requires Peek(ts).kind == Definition
    ensures |r.rest| < |ts|
    ensures |r.functions| <= |r.log| <= 1
  {
    Outcome(DefinitionSpec(ts), DefinitionParsed)
  }

  /** The default case: a top-level expression, reported as parsed or followed by one discarded token. */
  function ExpressionItem(ts: seq<Token>): (r: Item)
    requires ts != []
    ensures |r.rest| < |ts|
    ensures |r.functions| <= |r.log| <= 1
  {
    Outcome(TopLevelSpec(ts), ExpressionParsed)
  }

  /** The top-level loop: passes until the lookahead is EOL. Each pass prints at most one line. */
  function ParseSpec(ts: seq<Token>): (out: Session)
    ensures |out.functions| <= |out.log| <= |ts|
    decreases |ts|
  {
    if Peek(ts).kind == EOL then Session([], [])
    else
      var i := ItemSpec(ts);
      var more := ParseSpec(i.rest);
      Session(i.functions + more.functions, i.log + more.log)
  }

  class Parser {
    const lexer: Lexer
    var current: Token
    var log: seq<string>
    ghost var functions: seq<Function>

    /** The lexer is in a valid state on a line that does not end in white space. */
    ghost predicate Valid()
      reads lexer
    {
      lexer.Valid() && NoTrailingWhitespace(lexer.cls, lexer.input)
    }

    /**
     * The stream still to be read: the lookahead, then every token the
     * lexer will yet hand out. Empty once the lexer sits on its sentinel
     * and the lookahead is the EOL it returned there.
     */
    ghost function Rest(): (r: seq<Token>)
      reads this`current, lexer
      requires Valid()
      ensures current == Peek(r)
    {
      var pos := lexer.index - 1;
      if CharAt(lexer.input, pos) == '\r' && current == KindToken(EOL) then []
      else [current] + Stream(lexer.cls, lexer.input, pos)
    }

    /** The initial values of the static fields; the lookahead is set by the first Parse. */
    constructor (cls: CharClass)
      ensures fresh(lexer) && lexer.cls == cls && lexer.input == ""
      ensures log == [] && functions == []
    {
      lexer := new Lexer(cls);
      current := KindToken(EOL);
      log := [];
      functions := [];
    }

    /** Consumes the lookahead: the next token from the lexer becomes the lookahead. */
    method NextToken()
      requires Valid()
      modifies this`current, lexer
      ensures Valid() && lexer.input == old(lexer.input)
      ensures Rest() == Advance(old(Rest())) && current == Peek(Rest())
    {
      if lexer.curChar != '\r' {
        NoTrailingWhitespaceHalts(lexer.cls, lexer.input, lexer.index - 1);
      }
      current := lexer.GetToken();
    }

    /** Prints an error line and returns null. */
    method LogError(message: string) returns (r: Option<Expr>)
      modifies this`log
      ensures r == None && log == old(log) + [ErrorLine(message)]
    {
      log := log + [ErrorLine(message)];
      r := None;
    }

    /** LogError for routines that return a prototype. */
    method ErrorPrototype(message: string) returns (r: Option<Prototype>)
      modifies this`log
      ensures r == None && log == old(log) + [ErrorLine(message)]
    {
      var _ := LogError(message);
      r := None;
    }

    /** A primary, then the climb from precedence 0; as ExpressionSpec says. */
    method ParseExpression() returns (r: Option<Expr>)
      requires Valid()
      modifies this`current, this`log, lexer
      decreases |Rest()|, 3
      ensures Valid() && lexer.input == old(lexer.input)
      ensures var s := ExpressionSpec(old(Rest()));
        r == s.result && Rest() == s.rest && log == old(log) + s.log
    {
      ghost var ts := Rest();
      ghost var p := PrimarySpec(ts);
      var lhs := ParsePrimary();
      assert lhs == p.result && Rest() == p.rest && log == old(log) + p.log;
      if lhs.None? {
        assert ExpressionSpec(ts) == p;
        return None;
      }
      assert log == old(log);
      ghost var b := RHSSpec(0, lhs.value, p.rest);
      r := ParseRHSBinaryOperator(0, lhs.value);
      assert ExpressionSpec(ts) == b;
    }

    /** Dispatches on the lookahead; as PrimarySpec says. */
    method ParsePrimary() returns (r: Option<Expr>)
      requires Valid()
      modifies this`current, this`log, lexer
      decreases |Rest()|, 2
      ensures Valid() && lexer.input == old(lexer.input)
      ensures var s := PrimarySpec(old(Rest()));
        r == s.result && Rest() == s.rest && log == old(log) + s.log
    {
      ghost var ts := Rest();
      match current.kind
      case Identifier =>
        assert PrimarySpec(ts) == IdentifierSpec(ts);
        r := ParseIdentifier();
      case Number =>
        assert PrimarySpec(ts) == NumberSpec(ts);
        r := ParseNumber();
        AppendEmpty(log);
      case _ =>
        if current.text == "(" {
          assert PrimarySpec(ts) == ParenSpec(ts);
          r := ParseParenExpression();
        } else {
          r := LogError("Unexpected token '" + current.text + "'");
        }
    }

    /** A Number node for the lookahead's value, which is consumed. */
    method ParseNumber() returns (r: Option<Expr>)
      requires Valid() && current.kind == TokenType.Number
      modifies this`current, lexer
      ensures Valid() && lexer.input == old(lexer.input)
      ensures var s := NumberSpec(old(Rest()));
        r == s.result && Rest() == s.rest
    {
      r := Some(Expr.Number(current.value));
      NextToken();
    }

    /** A parenthesised expression; as ParenSpec says. */
    method ParseParenExpression() returns (r: Option<Expr>)
      requires Valid() && current.text == "("
      modifies this`current, this`log, lexer
      decreases |Rest()|, 1
      ensures Valid() && lexer.input == old(lexer.input)
      ensures var s := ParenSpec(old(Rest()));
        r == s.result && Rest() == s.rest && log == old(log) + s.log
    {
      ghost var ts := Rest();
      NextToken();
      ghost var s := ExpressionSpec(Advance(ts));
      var e := ParseExpression();
      assert e == s.result && Rest() == s.rest;
      if e.None? {
        return None;
      }
      if current.text != ")" {
        r := LogError("Expected ')'");
        return;
      }
      NextToken();
      r := e;
    }

    /** A Variable or a Call; as IdentifierSpec says. */
    method ParseIdentifier() returns (r: Option<Expr>)
      requires Valid() && current.kind == Identifier
      modifies this`current, this`log, lexer
      decreases |Rest()|, 1
      ensures Valid() && lexer.input == old(lexer.input)
      ensures var s := IdentifierSpec(old(Rest()));
        r == s.result && Rest() == s.rest && log == old(log) + s.log
    {
      ghost var ts := Rest();
      var name := current.text;
      NextToken();
      if current.text != "(" {
        AppendEmpty(log);
        return Some(Variable(name));
      }
      NextToken();
      if current.text == ")" {
        NextToken();
        AppendEmpty(log);
        return Some(Call(name, []));
      }
      ghost var a := ArgsSpec(Rest(), []);
      assert IdentifierSpec(ts) == if a.result.None? then Parsed(None, a.rest, a.log)
        else Parsed(Some(Call(name, a.result.value)), Advance(a.rest), []);
      var args := ParseArguments();
      if args.None? {
        return None;
      }
      AppendEmpty(log);
      NextToken();
      r := Some(Call(name, args.value));
    }

    /** The argument loop of ParseIdentifier; the closing ')' is left as the lookahead. */
    method ParseArguments() returns (r: Option<seq<Expr>>)
      requires Valid()
      modifies this`current, this`log, lexer
      decreases |Rest()|, 4
      ensures Valid() && lexer.input == old(lexer.input)
      ensures var s := ArgsSpec(old(Rest()), []);
        r == s.result && Rest() == s.rest && log == old(log) + s.log
    {
      ghost var a0 := ArgsSpec(Rest(), []);
      var args: seq<Expr> := [];
      while true
        invariant Valid() && log == old(log) && lexer.input == old(lexer.input)
        invariant |Rest()| <= |old(Rest())|
        invariant forall a | a in args :: OpsInTable(a)
        invariant ArgsSpec(Rest(), args) == a0
        decreases |Rest()|
      {
        ghost var ts := Rest();
        ghost var acc := args;
        ghost var e := ExpressionSpec(ts);
        var arg := ParseExpression();
        if arg.None? {
          assert ArgsSpec(ts, acc) == Parsed(None, e.rest, e.log);
          return None;
        }
        assert log == old(log);
        args := args + [arg.value];
        if current.text == ")" {
          assert ArgsSpec(ts, acc) == Parsed(Some(args), Rest(), []);
          AppendEmpty(log);
          return Some(args);
        }
        if current.text != "," {
          var msg := "Unexpected token '" + current.text + "'. Expected ',' or ')'";
          assert ArgsSpec(ts, acc) == Parsed(None, Rest(), [ErrorLine(msg)]);
          var _ := LogError(msg);
          return None;
        }
        assert ArgsSpec(ts, acc) == ArgsSpec(Advance(Rest()), args);
        NextToken();
      }
    }

    /** The precedence-climbing loop; as RHSSpec says. */
    method ParseRHSBinaryOperator(prec: int, lhs0: Expr) returns (r: Option<Expr>)
      requires Valid() && prec >= 0 && OpsInTable(lhs0)
      modifies this`current, this`log, lexer
      decreases |Rest()|, 0
      ensures Valid() && lexer.input == old(lexer.input)
      ensures var s := RHSSpec(prec, lhs0, old(Rest()));
        r == s.result && Rest() == s.rest && log == old(log) + s.log
    {
      var lhs := lhs0;
      ghost var s0 := RHSSpec(prec, lhs0, Rest());
      while true
        invariant Valid() && log == old(log) && lexer.input == old(lexer.input) && OpsInTable(lhs)
        invariant |Rest()| <= |old(Rest())|
        invariant RHSSpec(prec, lhs, Rest()) == s0
        decreases |Rest()|
      {
        var tokPrec := GetPrecedence(current.text);
        if tokPrec < prec {
          AppendEmpty(log);
          return Some(lhs);
        }
        var binop := current.text;
        NextToken();
        var rhs := ParseOperand(prec, tokPrec);
        if rhs.None? {
          return None;
        }
        lhs := Binary(binop, lhs, rhs.value);
      }
    }

    /** The right operand of binop, as read inside ParseRHSBinaryOperator's loop. */
    method ParseOperand(prec: int, tokPrec: int) returns (r: Option<Expr>)
      requires Valid() && prec >= 0
      modifies this`current, this`log, lexer
      decreases |Rest()|, 3
      ensures Valid() && lexer.input == old(lexer.input)
      ensures var s := OperandSpec(prec, tokPrec, old(Rest()));
        r == s.result && Rest() == s.rest && log == old(log) + s.log
    {
      ghost var ts := Rest();
      ghost var p := PrimarySpec(ts);
      r := ParsePrimary();
      if r.None? {
        return;
      }
      var nextPrec := GetPrecedence(current.text);
      if tokPrec < nextPrec {
        assert log == old(log);
        r := ParseRHSBinaryOperator(prec + 1, r.value);
      }
    }

    /** A name and its parameter list; as PrototypeSpec says. */
    method ParsePrototype() returns (r: Option<Prototype>)
      requires Valid()
      modifies this`current, this`log, lexer
      ensures Valid() && lexer.input == old(lexer.input)
      ensures var s := PrototypeSpec(old(Rest()));
        r == s.result && Rest() == s.rest && log == old(log) + s.log
    {
      ghost var ts := Rest();
      if current.kind != Identifier {
        r := ErrorPrototype("Expected name in function definition");
        return;
      }
      var name := current.text;
      NextToken();
      if current.text != "(" {
        r := ErrorPrototype("Expected '(' in function definition");
        return;
      }
      NextToken();
      var args: seq<string> := [];
      if current.text != ")" {
        ghost var p0 := ParamsSpec(Rest(), []);
        assert PrototypeSpec(ts) == if p0.result.None? then Parsed(None, p0.rest, p0.log)
          else Parsed(Some(Prototype(name, p0.result.value)), Advance(p0.rest), []);
        var params := ParseParameters();
        if params.None? {
          return None;
        }
        args := params.value;
      } else {
        assert PrototypeSpec(ts) == Parsed(Some(Prototype(name, [])), Advance(Rest()), []);
      }
      NextToken();
      AppendEmpty(log);
      r := Some(Prototype(name, args));
    }

    /** The parameter loop of ParsePrototype; the closing ')' is left as the lookahead. */
    method ParseParameters() returns (r: Option<seq<string>>)
      requires Valid()
      modifies this`current, this`log, lexer
      ensures Valid() && lexer.input == old(lexer.input)
      ensures var s := ParamsSpec(old(Rest()), []);
        r == s.result && Rest() == s.rest && log == old(log) + s.log
    {
      ghost var p0 := ParamsSpec(Rest(), []);
      var args: seq<string> := [];
      while true
        invariant Valid() && log == old(log) && lexer.input == old(lexer.input)
        invariant ParamsSpec(Rest(), args) == p0
        decreases |Rest()|
      {
        ghost var R := Rest();
        if current.kind == Identifier {
          assert p0 == ParamsSpec(Advance(R), args + [current.text]);
          args := args + [current.text];
          NextToken();
          continue;
        }
        if current.text == ")" {
          assert p0 == Parsed(Some(args), R, []);
          AppendEmpty(log);
          return Some(args);
        }
        if current.text != "," {
          var msg := "Unexpected token '" + current.text + "' in argument list";
          assert p0 == Parsed(None, R, [ErrorLine(msg)]);
          var _ := ErrorPrototype(msg);
          return None;
        }
        assert p0 == ParamsSpec(Advance(R), args);
        NextToken();
      }
    }

    /** 'def', a prototype and a body; as DefinitionSpec says. */
    method ParseDefinition() returns (r: Option<Function>)
      requires Valid() && current.kind == Definition
      modifies this`current, this`log, lexer
      ensures Valid() && lexer.input == old(lexer.input)
      ensures var s := DefinitionSpec(old(Rest()));
        r == s.result && Rest() == s.rest && log == old(log) + s.log
    {
      ghost var ts := Rest();
      NextToken();
      ghost var p := PrototypeSpec(Rest());
      var proto := ParsePrototype();
      if proto.None? {
        assert DefinitionSpec(ts) == Parsed(None, p.rest, p.log);
        return None;
      }
      assert log == old(log);
      ghost var b := ExpressionSpec(Rest());
      var body := ParseExpression();
      if body.Some? {
        AppendEmpty(log);
        return Some(Function(proto.value, body.value));
      }
      assert DefinitionSpec(ts) == Parsed(None, b.rest, b.log);
      return None;
    }

    /** A bare expression wrapped in an anonymous Function; as TopLevelSpec says. */
    method ParseTopLevelExpression() returns (r: Option<Function>)
      requires Valid()
      modifies this`current, this`log, lexer
      ensures Valid() && lexer.input == old(lexer.input)
      ensures var s := TopLevelSpec(old(Rest()));
        r == s.result && Rest() == s.rest && log == old(log) + s.log
    {
      var e := ParseExpression();
      if e.None? {
        return None;
      }
      var proto := AnonymousPrototype;
      r := Some(Function(proto, e.value));
    }

    /**
     * Lexes and parses one line. The console receives what ParseSpec says
     * for the line's token stream, and every definition or top-level
     * expression that parsed is appended to functions.
     */
    method Parse(text: string)
      requires lexer.cls.WellFormed() && NoTrailingWhitespace(lexer.cls, text)
      modifies this, lexer
      ensures Valid() && current.kind == EOL && lexer.input == text
      ensures var out := ParseSpec(Stream(lexer.cls, text, 0));
        functions == old(functions) + out.functions && log == old(log) + out.log
    {
      lexer.SetInput(text);
      NextToken();
      ghost var s0 := ParseSpec(Rest());
      assert Rest() == Stream(lexer.cls, text, 0);
      while current.kind != EOL
        invariant Valid() && lexer.input == text
        invariant functions + ParseSpec(Rest()).functions == old(functions) + s0.functions
        invariant log + ParseSpec(Rest()).log == old(log) + s0.log
        decreases |Rest()|
      {
        ghost var ts := Rest();
        ghost var fs := functions;
        ghost var ls := log;
        ParseItem();
        AppendAssoc(ls, ItemSpec(ts).log, ParseSpec(Rest()).log);
        AppendAssoc(fs, ItemSpec(ts).functions, ParseSpec(Rest()).functions);
      }
      AppendEmpty(log);
      AppendEmpty(functions);
    }

    /** The body of Parse's loop: one pass, dispatched on the lookahead. */
    method ParseItem()
      requires Valid() && current.kind != EOL
      modifies this`current, this`log, this`functions, lexer
      ensures Valid() && lexer.input == old(lexer.input)
      ensures var i := ItemSpec(old(Rest()));
        functions == old(functions) + i.functions && log == old(log) + i.log && Rest() == i.rest
    {
      if current.kind == Semicolon {
        NextToken();
        AppendEmpty(log);
        AppendEmpty(functions);
      } else if current.kind == Definition {
        HandleDefinition();
      } else if current.kind == Unknown {
        log := log + [UnknownTokenLine(current.text)];
        NextToken();
        AppendEmpty(functions);
      } else {
        HandleTopLevelExpression();
      }
    }

    /** The 'def' case of Parse's loop. */
    method HandleDefinition()
      requires Valid() && current.kind == Definition
      modifies this`current, this`log, this`functions, lexer
      ensures Valid() && lexer.input == old(lexer.input)
      ensures var i := DefinitionItem(old(Rest()));
        functions == old(functions) + i.functions && log == old(log) + i.log && Rest() == i.rest
    {
      var f := ParseDefinition();
      Report(DefinitionSpec(old(Rest())), old(log), f, DefinitionParsed);
    }

    /** The default case of Parse's loop: a bare expression. */
    method HandleTopLevelExpression()
      requires Valid() && current.kind != EOL
      modifies this`current, this`log, this`functions, lexer
      ensures Valid() && lexer.input == old(lexer.input)
      ensures var i := ExpressionItem(old(Rest()));
        functions == old(functions) + i.functions && log == old(log) + i.log && Rest() == i.rest
    {
      var f := ParseTopLevelExpression();
      Report(TopLevelSpec(old(Rest())), old(log), f, ExpressionParsed);
    }

    /**
     * The tail shared by both handlers, once the parse `p` has run with
     * `prior` as the log before it: a success is printed as `line` and
     * kept; a failure, already reported, costs one more token.
     */
    method Report(ghost p: Parsed<Function>, ghost prior: seq<string>, f: Option<Function>, line: string)
      requires Valid() && Quiet(p) && f == p.result && Rest() == p.rest && log == prior + p.log
      modifies this`current, this`log, this`functions, lexer
      ensures Valid() && lexer.input == old(lexer.input)
      ensures var i := Outcome(p, line);
        functions == old(functions) + i.functions && log == prior + i.log && Rest() == i.rest
    {
      if f.Some? {
        AppendEmpty(prior);
        log := log + [line];
        functions := functions + [f.value];
      } else {
        NextToken();    // error recovery
        AppendEmpty(functions);
      }
    }
  }
}
