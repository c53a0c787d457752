/**
 * What the parsing routines promise beyond their contracts: they only
 * consume a prefix of the stream, and every failure is reported by
 * exactly one "Error:\t" line, printed where it happens; callers pass
 * the failure on without printing again.
 */
module ParsingProperties {
  import opened Wrappers
  import opened Grammar
  import opened Ast
  import opened Parsing

  /** rest is what is left of ts after consuming some tokens from its front. */
  ghost predicate Suffix(rest: seq<Token>, ts: seq<Token>) {
    |rest| <= |ts| && rest == ts[|ts| - |rest|..]
  }

  lemma SuffixTransitive(a: seq<Token>, b: seq<Token>, c: seq<Token>)
    requires Suffix(a, b) && Suffix(b, c)
    ensures Suffix(a, c)
  {
    assert c[|c| - |b|..][|b| - |a|..] == c[|c| - |a|..];
  }

  lemma SuffixAdvance(ts: seq<Token>)
    ensures Suffix(Advance(ts), ts)
  {
  }

  /** A line printed by LogError. */
  predicate IsErrorLine(line: string) {
    |line| >= |ErrorPrefix| && line[..|ErrorPrefix|] == ErrorPrefix
  }

  lemma ErrorLineIsErrorLine(message: string)
    ensures IsErrorLine(ErrorLine(message))
  {
    assert ErrorLine(message)[..|ErrorPrefix|] == ErrorPrefix;
  }

  /**
   * A routine consumes a prefix of the stream; a success prints nothing
   * and a failure exactly one error line (callers only propagate it).
   */
  ghost predicate WellBehaved<T>(p: Parsed<T>, ts: seq<Token>) {
    && Suffix(p.rest, ts)
    && if p.result.Some? then p.log == [] else |p.log| == 1 && IsErrorLine(p.log[0])
  }

  lemma {:induction false} ExpressionWellBehaved(ts: seq<Token>)
    ensures WellBehaved(ExpressionSpec(ts), ts)
    decreases |ts|, 3
  {
    var p := PrimarySpec(ts);
    PrimaryWellBehaved(ts);
    if p.result.Some? {
      RHSWellBehaved(0, p.result.value, p.rest);
      SuffixTransitive(ExpressionSpec(ts).rest, p.rest, ts);
    }
  }

  lemma {:induction false} PrimaryWellBehaved(ts: seq<Token>)
    ensures WellBehaved(PrimarySpec(ts), ts)
    decreases |ts|, 2
  {
    var t := Peek(ts);
    if t.kind == Identifier {
      IdentifierWellBehaved(ts);
    } else if t.kind == TokenType.Number {
      SuffixAdvance(ts);
    } else if t.text == "(" {
      ParenWellBehaved(ts);
    } else {
      ErrorLineIsErrorLine("Unexpected token '" + t.text + "'");
    }
  }

  lemma {:induction false} ParenWellBehaved(ts: seq<Token>)
    requires Peek(ts).text == "("
    ensures WellBehaved(ParenSpec(ts), ts)
    decreases |ts|, 1
  {
    var e := ExpressionSpec(Advance(ts));
    ExpressionWellBehaved(Advance(ts));
    SuffixAdvance(ts);
    SuffixTransitive(e.rest, Advance(ts), ts);
    SuffixAdvance(e.rest);
    SuffixTransitive(Advance(e.rest), e.rest, ts);
    ErrorLineIsErrorLine("Expected ')'");
  }

  lemma {:induction false} IdentifierWellBehaved(ts: seq<Token>)
    requires Peek(ts).kind == Identifier
    ensures WellBehaved(IdentifierSpec(ts), ts)
    decreases |ts|, 1
  {
    var ts1 := Advance(ts);
    var ts2 := Advance(ts1);
    SuffixAdvance(ts);
    SuffixAdvance(ts1);
    SuffixTransitive(ts2, ts1, ts);
    SuffixAdvance(ts2);
    SuffixTransitive(Advance(ts2), ts2, ts);
    if Peek(ts1).text == "(" && Peek(ts2).text != ")" {
      var a := ArgsSpec(ts2, []);
      ArgsWellBehaved(ts2, []);
      SuffixTransitive(a.rest, ts2, ts);
      SuffixAdvance(a.rest);
      SuffixTransitive(Advance(a.rest), a.rest, ts);
    }
  }

  lemma {:induction false} ArgsWellBehaved(ts: seq<Token>, acc: seq<Expr>)
    requires forall a | a in acc :: OpsInTable(a)
    ensures WellBehaved(ArgsSpec(ts, acc), ts)
    decreases |ts|, 4
  {
    var e := ExpressionSpec(ts);
    ExpressionWellBehaved(ts);
    if e.result.Some? {
      var sep := Peek(e.rest);
      if sep.text == ")" {
      } else if sep.text != "," {
        ErrorLineIsErrorLine("Unexpected token '" + sep.text + "'. Expected ',' or ')'");
      } else {
        var args := acc + [e.result.value];
        ArgsWellBehaved(Advance(e.rest), args);
        SuffixAdvance(e.rest);
        SuffixTransitive(Advance(e.rest), e.rest, ts);
        SuffixTransitive(ArgsSpec(Advance(e.rest), args).rest, Advance(e.rest), ts);
      }
    }
  }

  lemma {:induction false} RHSWellBehaved(prec: int, lhs: Expr, ts: seq<Token>)
    requires prec >= 0 && OpsInTable(lhs)
    ensures WellBehaved(RHSSpec(prec, lhs, ts), ts)
    decreases |ts|, 0
  {
    var binop := Peek(ts).text;
    var tokPrec := GetPrecedence(binop);
    if tokPrec >= prec {
      var o := OperandSpec(prec, tokPrec, Advance(ts));
      OperandWellBehaved(prec, tokPrec, Advance(ts));
      SuffixAdvance(ts);
      SuffixTransitive(o.rest, Advance(ts), ts);
      if o.result.Some? {
        var lhs' := Binary(binop, lhs, o.result.value);
        RHSWellBehaved(prec, lhs', o.rest);
        SuffixTransitive(RHSSpec(prec, lhs', o.rest).rest, o.rest, ts);
      }
    }
  }

  lemma {:induction false} OperandWellBehaved(prec: int, tokPrec: int, ts: seq<Token>)
    requires prec >= 0
    ensures WellBehaved(OperandSpec(prec, tokPrec, ts), ts)
    decreases |ts|, 3
  {
    var p := PrimarySpec(ts);
    PrimaryWellBehaved(ts);
    if p.result.Some? && tokPrec < GetPrecedence(Peek(p.rest).text) {
      RHSWellBehaved(prec + 1, p.result.value, p.rest);
      SuffixTransitive(RHSSpec(prec + 1, p.result.value, p.rest).rest, p.rest, ts);
    }
  }

  lemma {:induction false} ParamsWellBehaved(ts: seq<Token>, acc: seq<string>)
    ensures WellBehaved(ParamsSpec(ts, acc), ts)
    decreases |ts|
  {
    var t := Peek(ts);
    if t.kind == Identifier {
      ParamsWellBehaved(Advance(ts), acc + [t.text]);
      SuffixAdvance(ts);
      SuffixTransitive(ParamsSpec(Advance(ts), acc + [t.text]).rest, Advance(ts), ts);
    } else if t.text == ")" {
    } else if t.text != "," {
      ErrorLineIsErrorLine("Unexpected token '" + t.text + "' in argument list");
    } else {
      ParamsWellBehaved(Advance(ts), acc);
      SuffixAdvance(ts);
      SuffixTransitive(ParamsSpec(Advance(ts), acc).rest, Advance(ts), ts);
    }
  }

  lemma {:induction false} PrototypeWellBehaved(ts: seq<Token>)
    ensures WellBehaved(PrototypeSpec(ts), ts)
  {
    var ts1 := Advance(ts);
    var ts2 := Advance(ts1);
    SuffixAdvance(ts);
    SuffixAdvance(ts1);
    SuffixTransitive(ts2, ts1, ts);
    SuffixAdvance(ts2);
    SuffixTransitive(Advance(ts2), ts2, ts);
    ErrorLineIsErrorLine("Expected name in function definition");
    ErrorLineIsErrorLine("Expected '(' in function definition");
    if Peek(ts).kind == Identifier && Peek(ts1).text == "(" && Peek(ts2).text != ")" {
      var ps := ParamsSpec(ts2, []);
      ParamsWellBehaved(ts2, []);
      SuffixTransitive(ps.rest, ts2, ts);
      SuffixAdvance(ps.rest);
      SuffixTransitive(Advance(ps.rest), ps.rest, ts);
    }
  }

  lemma {:induction false} DefinitionWellBehaved(ts: seq<Token>)
    requires Peek(ts).kind == Definition
    ensures WellBehaved(DefinitionSpec(ts), ts)
  {
    var p := PrototypeSpec(Advance(ts));
    PrototypeWellBehaved(Advance(ts));
    SuffixAdvance(ts);
    SuffixTransitive(p.rest, Advance(ts), ts);
    if p.result.Some? {
      ExpressionWellBehaved(p.rest);
      SuffixTransitive(ExpressionSpec(p.rest).rest, p.rest, ts);
    }
  }

  lemma {:induction false} TopLevelWellBehaved(ts: seq<Token>)
    ensures WellBehaved(TopLevelSpec(ts), ts)
  {
    ExpressionWellBehaved(ts);
  }
}
