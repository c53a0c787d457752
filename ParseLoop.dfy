/**
 * What the top-level loop prints and produces: one "Parsed ..." line per
 * function, every other line a report of an error or of an unexpected
 * token, nothing after an EOL lookahead; and worked examples.
 */
module ParseLoop {
  import opened Wrappers
  import opened Grammar
  import opened Ast
  import opened Parsing
  import opened ParsingProperties
  import opened ParseShapes

  /** The two lines the loop prints after producing a function. */
  predicate IsParsedLine(line: string) {
    line == DefinitionParsed || line == ExpressionParsed
  }

  const UnknownPrefix := "Unknown or unexpected token '"

  predicate IsUnknownLine(line: string) {
    |line| >= |UnknownPrefix| && line[..|UnknownPrefix|] == UnknownPrefix
  }

  function CountParsed(log: seq<string>): (n: nat)
    ensures n <= |log|
  {
    if log == [] then 0 else (if IsParsedLine(log[0]) then 1 else 0) + CountParsed(log[1..])
  }

  lemma CountParsedAppend(a: seq<string>, b: seq<string>)
    ensures CountParsed(a + b) == CountParsed(a) + CountParsed(b)
    decreases |a|
  {
    if a != [] {
      assert (a + b)[1..] == a[1..] + b;
    } else {
      assert a + b == b;
    }
  }

  lemma ErrorLineNotParsed(line: string)
    requires IsErrorLine(line)
    ensures !IsParsedLine(line) && !IsUnknownLine(line)
  {
    assert line[0] == 'E';
    assert DefinitionParsed[0] == 'P' && ExpressionParsed[0] == 'P';
  }

  /** The lines of one pass: a "Parsed" line exactly when a function is produced. */
  lemma ItemLines(ts: seq<Token>)
    requires Peek(ts).kind != EOL
    ensures var i := ItemSpec(ts);
      && |i.functions| == CountParsed(i.log)
      && (forall line | line in i.log :: IsParsedLine(line) || IsErrorLine(line) || IsUnknownLine(line))
      && forall f | f in i.functions :: OpsInTable(f.body)
  {
    var t := Peek(ts);
    if t.kind == Definition {
      DefinitionWellBehaved(ts);
      var d := DefinitionSpec(ts);
      if d.result.None? {
        ErrorLineNotParsed(d.log[0]);
        assert d.log == [d.log[0]];
      }
    } else if t.kind == Unknown {
      var line := UnknownTokenLine(t.text);
      assert line[..|UnknownPrefix|] == UnknownPrefix;
      assert line[0] == 'U';
    } else if t.kind != Semicolon {
      TopLevelWellBehaved(ts);
      var e := TopLevelSpec(ts);
      if e.result.None? {
        ErrorLineNotParsed(e.log[0]);
        assert e.log == [e.log[0]];
      }
    }
  }

  /**
   * Over a whole line: exactly one "Parsed ..." line per function
   * produced, every other line an error or an unexpected-token report,
   * and every function body uses only table operators.
   */
  lemma {:induction false} SessionLines(ts: seq<Token>)
    ensures var s := ParseSpec(ts);
      && |s.functions| == CountParsed(s.log)
      && (forall line | line in s.log :: IsParsedLine(line) || IsErrorLine(line) || IsUnknownLine(line))
      && forall f | f in s.functions :: OpsInTable(f.body)
    decreases |ts|
  {
    if Peek(ts).kind != EOL {
      var i := ItemSpec(ts);
      ItemLines(ts);
      SessionLines(i.rest);
      CountParsedAppend(i.log, ParseSpec(i.rest).log);
    }
  }

  /** The loop stops at an EOL lookahead: whatever follows it is never parsed. */
  lemma StopsAtEol(ts: seq<Token>)
    ensures ParseSpec([KindToken(EOL)] + ts) == Session([], [])
  {
  }

  /** ';' at the top level is skipped without a trace. */
  lemma SemicolonSkipped(ts: seq<Token>)
    ensures ParseSpec([KindToken(Semicolon)] + ts) == ParseSpec(ts)
  {
    assert Advance([KindToken(Semicolon)] + ts) == ts;
  }

  /** An Unknown token at the top level is reported and skipped. */
  lemma UnknownReported(text: string, ts: seq<Token>)
    ensures ParseSpec([Op(text)] + ts).log == [UnknownTokenLine(text)] + ParseSpec(ts).log
    ensures ParseSpec([Op(text)] + ts).functions == ParseSpec(ts).functions
  {
    assert Advance([Op(text)] + ts) == ts;
  }

  /** A bare expression is wrapped in a Function whose prototype is "__proto" with no parameters. */
  lemma TopLevelWrapsExpression(ts: seq<Token>)
    ensures var e := ExpressionSpec(ts); var r := TopLevelSpec(ts);
      && (r.result.Some? <==> e.result.Some?)
      && r.rest == e.rest && r.log == e.log
      && (e.result.Some? ==> r.result.value == Function(AnonymousPrototype, e.result.value))
  {
  }
}
