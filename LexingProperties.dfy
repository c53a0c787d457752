/**
 * What the tokenizer promises beyond GetToken's contract: the shape of
 * each kind of token, and the white-space skip that, with an unbounded
 * index, never ends on a line with trailing white space.
 */
module LexingProperties {
  import opened Grammar
  import opened Lexing

  /**
   * Once only white space is left, every character getChar will ever
   * read is white space, the end sentinel included, so the white-space
   * loop of GetToken has no position to stop at.
   */
  lemma TrailingWhitespaceNeverHalts(cls: CharClass, s: string, pos: int)
    requires cls.WellFormed() && 0 <= pos
    requires forall k :: pos <= k < |s| ==> cls.isWhiteSpace(s[k])
    ensures !SkipHalts(cls, s, pos)
    ensures forall k :: pos <= k ==> cls.isWhiteSpace(CharAt(s, k))
  {
  }

  /**
   * A line that ends in white space other than '\r' makes the skip
   * diverge once curChar reaches that white space: curChar is not the
   * sentinel, so GetToken enters the white-space loop, which has no
   * position to stop at.
   */
  lemma TrailingWhitespaceDiverges(cls: CharClass, s: string)
    requires cls.WellFormed() && !NoTrailingWhitespace(cls, s) && s[|s| - 1] != '\r'
    ensures !SkipHalts(cls, s, |s| - 1) && CharAt(s, |s| - 1) != '\r'
  {
    TrailingWhitespaceNeverHalts(cls, s, |s| - 1);
  }

  /** The token kinds that a word produces. */
  predicate IsWordKind(kind: TokenType) {
    kind == Identifier || kind == Definition || kind == Lambda
  }

  /**
   * Every token Scan hands out has the shape its kind promises: a word is a
   * non-empty run of letters and digits that starts with a letter, a
   * number carries a non-empty run of digits and dots, an Unknown token
   * exactly one character, and the text of every other token is empty.
   */
  lemma ScanShapes(cls: CharClass, s: string, pos: int)
    requires cls.WellFormed() && 0 <= pos <= |s| + 1
    requires CharAt(s, pos) == '\r' || SkipHalts(cls, s, pos)
    ensures var t := Scan(cls, s, pos).token;
      && (IsWordKind(t.kind) ==>
            |t.text| > 0 && cls.isLetter(t.text[0]) && forall i :: 0 <= i < |t.text| ==> cls.IsLetterOrDigit(t.text[i]))
      && (t.kind == TokenType.Number ==>
            t.text == "" && t.value.Scanned? && |t.value.lexeme| > 0
            && forall i :: 0 <= i < |t.value.lexeme| ==> cls.IsNumeral(t.value.lexeme[i]))
      && (t.kind == Unknown ==> |t.text| == 1)
      && (t.kind == EOL || t.kind == Semicolon ==> t.text == "")
      && (t.kind == Definition ==> t.text == "def")
      && (t.kind == Lambda ==> t.text == "lambda")
  {
    if CharAt(s, pos) != '\r' {
      var q := SkipWhiteSpace(cls, s, pos);
      var c := s[q];
      if cls.isLetter(c) {
        var e := RunEnd(cls, Word, s, q + 1);
        var w := s[q..e];
        assert w[0] == c;
        assert forall i :: 0 < i < |w| ==> w[i] == s[q + i];
      } else if cls.IsNumeral(c) {
        var e := RunEnd(cls, Numeral, s, q);
        assert forall i :: 0 <= i < |s[q..e]| ==> s[q..e][i] == s[q + i];
      }
    }
  }
}
