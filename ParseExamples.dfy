/**
 * Whole lines through the top-level loop, as the token streams the lexer
 * produces for them, with the functions and console lines that result.
 */
module ParseExamples {
  import opened Wrappers
  import opened Grammar
  import opened Ast
  import opened Parsing
  import opened ParseShapes
  import opened Lexing

  /** One pass of the loop followed by the rest of the line. */
  lemma Pass(ts: seq<Token>, i: Item, s: Session)
    requires Peek(ts).kind != EOL && ItemSpec(ts) == i && ParseSpec(i.rest) == s
    ensures ParseSpec(ts) == Session(i.functions + s.functions, i.log + s.log)
  {
  }

  lemma LineEnd()
    ensures ParseSpec([]) == Session([], [])
  {
  }

  /** The tokens of def f(a, b) a + b. */
  const SumDefinition := [TextToken("def", Definition), Var("f"), Op("("), Var("a"), Comma, Var("b"), Op(")"), Var("a"), Op("+"), Var("b")]

  /** f(a, b) a + b after def: the prototype and the body both parse, and nothing is left. */
  lemma SumDefinitionParses()
    ensures DefinitionSpec(SumDefinition)
         == Parsed(Some(Function(Prototype("f", ["a", "b"]), Binary("+", Variable("a"), Variable("b")))), [], [])
  {
    var ps := [Var("a"), Comma, Var("b")];
    var body := [Var("a")] + (Chain(["+"], ["b"]) + []);
    var proto := [Var("f")] + ([Op("(")] + (ps + ([Op(")")] + body)));
    assert SumDefinition == [TextToken("def", Definition)] + proto;
    assert Identifiers(ps) == ["a", "b"] by {
      assert [Var("b")][1..] == [];
      assert Identifiers([Var("b")]) == ["b"];
      assert [Comma, Var("b")][1..] == [Var("b")];
      assert Identifiers([Comma, Var("b")]) == ["b"];
      assert ps[1..] == [Comma, Var("b")];
    }
    assert ParameterTokens(ps);
    PrototypeParameters("f", ps, body);
    ExpressionFromVariable("a", Chain(["+"], ["b"]) + []);
    SamePrecedenceAssociatesLeft(0, Variable("a"), ["+"], ["b"], []);
    assert Advance([TextToken("def", Definition)] + proto) == proto;
  }

  /** def f(a, b) a + b: one definition, reported once. */
  lemma DefinitionLine()
    ensures ParseSpec(SumDefinition)
         == Session([Function(Prototype("f", ["a", "b"]), Binary("+", Variable("a"), Variable("b")))], [DefinitionParsed])
  {
    var f := Function(Prototype("f", ["a", "b"]), Binary("+", Variable("a"), Variable("b")));
    SumDefinitionParses();
    Pass(SumDefinition, Item([f], [DefinitionParsed], []), Session([], []));
  }

  /** (1): the leading '(' is reported as unknown, 1 is an expression, and ')' is reported too. */
  lemma ParenthesisAtTopLevel()
    ensures ParseSpec([Op("("), NumberToken(Scanned("1")), Op(")")])
         == Session([Function(AnonymousPrototype, Expr.Number(Scanned("1")))],
                    [UnknownTokenLine("("), ExpressionParsed, UnknownTokenLine(")")])
  {
    var one := [NumberToken(Scanned("1")), Op(")")];
    var f := Function(AnonymousPrototype, Expr.Number(Scanned("1")));
    Pass([Op(")")], Item([], [UnknownTokenLine(")")], []), Session([], []));
    assert Advance(one) == [Op(")")];
    assert ExpressionSpec(one) == Parsed(Some(Expr.Number(Scanned("1"))), [Op(")")], []);
    Pass(one, Item([f], [ExpressionParsed], [Op(")")]), Session([], [UnknownTokenLine(")")]));
    assert Advance([Op("(")] + one) == one;
    Pass([Op("(")] + one, Item([], [UnknownTokenLine("(")], one), Session([f], [ExpressionParsed, UnknownTokenLine(")")]));
    assert [Op("(")] + one == [Op("("), NumberToken(Scanned("1")), Op(")")];
  }

  /**
   * 1 + // x: the comment ends the line with an EOL token, the operand is
   * missing, and the recovery step discards that EOL; the lexer then goes
   * on into the comment, which yields ' ' and x.
   */
  lemma CommentAfterOperator()
    ensures ParseSpec([NumberToken(Scanned("1")), Op("+"), KindToken(EOL), Op(" "), Var("x")])
         == Session([Function(AnonymousPrototype, Variable("x"))],
                    [ErrorLine("Unexpected token ''"), UnknownTokenLine(" "), ExpressionParsed])
  {
    var ts := [NumberToken(Scanned("1")), Op("+"), KindToken(EOL), Op(" "), Var("x")];
    var f := Function(AnonymousPrototype, Variable("x"));
    CommentTextParses();
    OperandMissingItem();
    Pass(ts, Item([], [ErrorLine("Unexpected token ''")], [Op(" "), Var("x")]), Session([f], [UnknownTokenLine(" "), ExpressionParsed]));
  }

  /** The tokens the lexer takes from the comment text: ' ' is reported, x is an expression. */
  lemma CommentTextParses()
    ensures ParseSpec([Op(" "), Var("x")])
         == Session([Function(AnonymousPrototype, Variable("x"))], [UnknownTokenLine(" "), ExpressionParsed])
  {
    var x := [Var("x")];
    var f := Function(AnonymousPrototype, Variable("x"));
    LoneVariable("x", []);
    assert x + [] == x;
    Pass(x, Item([f], [ExpressionParsed], []), Session([], []));
    assert Advance([Op(" ")] + x) == x;
    Pass([Op(" ")] + x, Item([], [UnknownTokenLine(" ")], x), Session([f], [ExpressionParsed]));
  }

  /** The failed pass on 1 + EOL: one error line, and the recovery step discards the EOL. */
  lemma OperandMissingItem()
    ensures ItemSpec([NumberToken(Scanned("1")), Op("+"), KindToken(EOL), Op(" "), Var("x")])
         == Item([], [ErrorLine("Unexpected token ''")], [Op(" "), Var("x")])
  {
    var comment := [Op(" "), Var("x")];
    var r := [KindToken(EOL)] + comment;
    OperandMissingAtEol(Scanned("1"), "+", comment);
    assert Advance(r) == comment;
    assert [NumberToken(Scanned("1"))] + ([Op("+")] + r) == [NumberToken(Scanned("1")), Op("+"), KindToken(EOL), Op(" "), Var("x")];
  }

  /** An operator with the line ending after it: the missing operand is reported with the EOL token's empty text. */
  lemma OperandMissingAtEol(n: Num, op: string, more: seq<Token>)
    requires GetPrecedence(op) > 0
    ensures ExpressionSpec([NumberToken(n)] + ([Op(op)] + ([KindToken(EOL)] + more)))
         == Parsed(None, [KindToken(EOL)] + more, [ErrorLine("Unexpected token ''")])
  {
    var r := [KindToken(EOL)] + more;
    var err := ErrorLine("Unexpected token ''");
    assert "Unexpected token '" + "" + "'" == "Unexpected token ''";
    assert PrimarySpec(r) == Parsed(None, r, [err]);
    assert Advance([Op(op)] + r) == r;
    assert RHSSpec(0, Expr.Number(n), [Op(op)] + r) == Parsed(None, r, [err]);
    assert Advance([NumberToken(n)] + ([Op(op)] + r)) == [Op(op)] + r;
  }

  /** def f(a a: the line ends inside the parameter list, whose lookahead is then EOL with no text. */
  lemma UnclosedParameterList()
    ensures ParseSpec([TextToken("def", Definition), Var("f"), Op("("), Var("a"), Var("a")])
         == Session([], [ErrorLine("Unexpected token '' in argument list")])
  {
    var err := ErrorLine("Unexpected token '' in argument list");
    var ps := [Var("a"), Var("a")];
    var ts := [TextToken("def", Definition)] + ([Var("f")] + ([Op("(")] + ps));
    assert Advance([Var("a")]) == [];
    assert "Unexpected token '" + "" + "' in argument list" == "Unexpected token '' in argument list";
    assert ParamsSpec([], ["a", "a"]) == Parsed(None, [], [err]);
    assert ParamsSpec([Var("a")], ["a"]) == Parsed(None, [], [err]);
    assert Advance(ps) == [Var("a")];
    assert ParamsSpec(ps, []) == Parsed(None, [], [err]);
    assert Advance([Op("(")] + ps) == ps;
    assert Advance([Var("f")] + ([Op("(")] + ps)) == [Op("(")] + ps;
    assert PrototypeSpec([Var("f")] + ([Op("(")] + ps)) == Parsed(None, [], [err]);
    assert Advance(ts) == [Var("f")] + ([Op("(")] + ps);
    assert DefinitionSpec(ts) == Parsed(None, [], [err]);
    Pass(ts, Item([], [err], []), Session([], []));
    assert ts == [TextToken("def", Definition), Var("f"), Op("("), Var("a"), Var("a")];
  }

  /**
   * lambda x: lambda is a keyword token but no expression starts with it;
   * the recovery step skips it and x is then read as an expression.
   */
  lemma LambdaNotParsed()
    ensures ParseSpec([TextToken("lambda", Lambda), Var("x")])
         == Session([Function(AnonymousPrototype, Variable("x"))], [ErrorLine("Unexpected token 'lambda'"), ExpressionParsed])
  {
    var x := [Var("x")];
    var ts := [TextToken("lambda", Lambda)] + x;
    var err := ErrorLine("Unexpected token 'lambda'");
    var f := Function(AnonymousPrototype, Variable("x"));
    LoneVariable("x", []);
    assert x + [] == x;
    Pass(x, Item([f], [ExpressionParsed], []), Session([], []));
    assert "Unexpected token '" + "lambda" + "'" == "Unexpected token 'lambda'";
    assert PrimarySpec(ts) == Parsed(None, ts, [err]);
    assert ExpressionSpec(ts) == Parsed(None, ts, [err]);
    assert Advance(ts) == x;
    Pass(ts, Item([], [err], x), Session([f], [ExpressionParsed]));
    assert ts == [TextToken("lambda", Lambda), Var("x")];
  }

  const CommentText := "1 + // x"

  lemma ScanOne(cls: CharClass)
    requires cls.WellFormed() && cls.AgreesWithAscii()
    ensures NoTrailingWhitespace(cls, CommentText)
    ensures Stream(cls, CommentText, 0) == [NumberToken(Scanned("1"))] + Stream(cls, CommentText, 1)
  {
    CommentTokens(cls);
    assert !cls.isLetter('1') && cls.isDigit('1') && !cls.isWhiteSpace('1');
    assert !cls.IsNumeral(' ');
    ScanNumber(cls, CommentText, 0, 0);
    assert RunEnd(cls, Numeral, CommentText, 1) == 1;
    assert CommentText[0..1] == "1";
    StreamStep(cls, CommentText, 0, NumberToken(Scanned("1")), 1);
  }

  lemma ScanPlus(cls: CharClass)
    requires cls.WellFormed() && cls.AgreesWithAscii()
    ensures SkipHalts(cls, CommentText, 1) && Scan(cls, CommentText, 1) == Step(Op("+"), 3)
  {
    assert cls.isWhiteSpace(' ');
    assert !cls.isLetter('+') && !cls.isDigit('+') && !cls.isWhiteSpace('+');
    ScanPunctuation(cls, CommentText, 1, 2);
  }

  lemma ScanSlashes(cls: CharClass)
    requires cls.WellFormed() && cls.AgreesWithAscii()
    ensures SkipHalts(cls, CommentText, 3) && Scan(cls, CommentText, 3) == Step(KindToken(EOL), 5)
  {
    assert cls.isWhiteSpace(' ') && !cls.isWhiteSpace('/');
    ScanComment(cls, CommentText, 3, 4);
  }

  lemma ScanLoneSlash(cls: CharClass)
    requires cls.WellFormed() && cls.AgreesWithAscii()
    ensures SkipHalts(cls, CommentText, 5) && Scan(cls, CommentText, 5) == Step(Op(" "), 7)
  {
    assert !cls.isWhiteSpace('/');
    ScanPunctuation(cls, CommentText, 5, 5);
  }

  lemma ScanX(cls: CharClass)
    requires cls.WellFormed() && cls.AgreesWithAscii()
    ensures SkipHalts(cls, CommentText, 7) && Scan(cls, CommentText, 7) == Step(Var("x"), 8)
  {
    assert cls.isLetter('x') && !cls.isWhiteSpace('x');
    ScanWord(cls, CommentText, 7, 7);
    assert RunEnd(cls, Word, CommentText, 8) == 8;
    assert CommentText[7..8] == "x";
  }

  /** One token of the stream, then the stream from where it leaves curChar. */
  lemma PrependToThree<T>(a: T, b: T, c: T, d: T)
    ensures [a] + [b, c, d] == [a, b, c, d]
  {
  }

  lemma PrependToFour<T>(a: T, b: T, c: T, d: T, e: T)
    ensures [a] + [b, c, d, e] == [a, b, c, d, e]
  {
  }

  lemma StreamStep(cls: CharClass, s: string, pos: int, t: Token, next: int)
    requires NoTrailingWhitespace(cls, s) && 0 <= pos <= |s| && CharAt(s, pos) != '\r' && SkipHalts(cls, s, pos)
    requires Scan(cls, s, pos) == Step(t, next)
    ensures Stream(cls, s, pos) == [t] + Stream(cls, s, next)
  {
  }

  /**
   * The lexer's side of 1 + // x, with the ASCII classification: the
   * comment yields EOL and leaves curChar on the second slash, which is
   * then dropped as a lone slash before ' ' and x.
   */
  lemma CommentLineTokens(cls: CharClass)
    requires cls.WellFormed() && cls.AgreesWithAscii()
    ensures NoTrailingWhitespace(cls, CommentText)
    ensures Stream(cls, CommentText, 0) == [NumberToken(Scanned("1")), Op("+"), KindToken(EOL), Op(" "), Var("x")]
  {
    PlusCommentTokens(cls);
    ScanOne(cls);
    PrependToFour(NumberToken(Scanned("1")), Op("+"), KindToken(EOL), Op(" "), Var("x"));
  }

  /** From the '+' on: the operator, then what the comment leaves. */
  lemma PlusCommentTokens(cls: CharClass)
    requires cls.WellFormed() && cls.AgreesWithAscii()
    ensures NoTrailingWhitespace(cls, CommentText)
    ensures Stream(cls, CommentText, 1) == [Op("+"), KindToken(EOL), Op(" "), Var("x")]
  {
    CommentTokens(cls);
    ScanPlus(cls);
    StreamStep(cls, CommentText, 1, Op("+"), 3);
    PrependToThree(Op("+"), KindToken(EOL), Op(" "), Var("x"));
  }

  /** From the first slash on: EOL for //, then ' ' after the dropped slash, then x. */
  lemma CommentTokens(cls: CharClass)
    requires cls.WellFormed() && cls.AgreesWithAscii()
    ensures NoTrailingWhitespace(cls, CommentText)
    ensures Stream(cls, CommentText, 3) == [KindToken(EOL), Op(" "), Var("x")]
  {
    assert !cls.isWhiteSpace('x');
    assert CharAt(CommentText, 8) == '\r';
    ScanX(cls);
    StreamStep(cls, CommentText, 7, Var("x"), 8);
    ScanLoneSlash(cls);
    StreamStep(cls, CommentText, 5, Op(" "), 7);
    ScanSlashes(cls);
    StreamStep(cls, CommentText, 3, KindToken(EOL), 5);
    assert [KindToken(EOL)] + ([Op(" ")] + ([Var("x")] + [])) == [KindToken(EOL), Op(" "), Var("x")];
  }

  /** The whole line 1 + // x, from characters to console lines. */
  lemma CommentLine(cls: CharClass)
    requires cls.WellFormed() && cls.AgreesWithAscii()
    ensures NoTrailingWhitespace(cls, CommentText)
    ensures ParseSpec(Stream(cls, CommentText, 0))
         == Session([Function(AnonymousPrototype, Variable("x"))],
                    [ErrorLine("Unexpected token ''"), UnknownTokenLine(" "), ExpressionParsed])
  {
    CommentLineTokens(cls);
    CommentAfterOperator();
  }

  const CommentOnlyText := "// note"

  /**
   * A line that is only a comment: the lexer's first token is EOL, so the
   * loop ends at once, with no function and no console line.
   */
  lemma CommentOnly(cls: CharClass)
    requires cls.WellFormed() && cls.AgreesWithAscii()
    ensures NoTrailingWhitespace(cls, CommentOnlyText)
    ensures ParseSpec(Stream(cls, CommentOnlyText, 0)) == Session([], [])
  {
    assert !cls.isWhiteSpace('/') && !cls.isWhiteSpace('e');
    ScanComment(cls, CommentOnlyText, 0, 0);
    StreamStep(cls, CommentOnlyText, 0, KindToken(EOL), 1);
  }
}
