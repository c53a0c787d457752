/**
 * The tokenizer: a cursor over one line of input that hands out one token
 * at a time. `Scan` says, as a function of the line and the cursor, which
 * token `GetToken` returns and where it leaves the cursor; `Stream` is the
 * sequence of tokens the cursor yields until it reaches the end sentinel.
 */
module Lexing {
  import opened Grammar

  /**
   * The character classification the lexer consults (char.IsLetter,
   * char.IsDigit, char.IsWhiteSpace). The Unicode tables are not modelled:
   * the three predicates are parameters, constrained only by WellFormed.
   */
  datatype CharClass = CharClass(isLetter: char -> bool, isDigit: char -> bool, isWhiteSpace: char -> bool)
  {
    /** The facts of the classification that the lexer relies on. */
    predicate WellFormed() {
      && isWhiteSpace('\r')
      && !isLetter('\r') && !isDigit('\r')
      && !isLetter('/') && !isDigit('/')
      && !isLetter(';') && !isDigit(';')
      && !isLetter('(') && !isDigit('(')
      && !isDigit('.')
    }

    /** char.IsLetterOrDigit */
    predicate IsLetterOrDigit(c: char) {
      isLetter(c) || isDigit(c)
    }

    /** The characters of a numeric literal: digits and dots. */
    predicate IsNumeral(c: char) {
      c == '.' || isDigit(c)
    }

    /** The classification agrees with .NET's on the ASCII range. */
    ghost predicate AgreesWithAscii() {
      && (forall c: char :: (c as int) < 128 ==> (isLetter(c) <==> ('a' <= c <= 'z' || 'A' <= c <= 'Z')))
      && (forall c: char :: (c as int) < 128 ==> (isDigit(c) <==> '0' <= c <= '9'))
      && (forall c: char :: (c as int) < 128 ==> (isWhiteSpace(c) <==> c == ' ' || '\t' <= c <= '\r'))
    }
  }

  /** The character getChar reads at offset i: '\r' past the end of the line. */
  function CharAt(s: string, i: int): char {
    if 0 <= i < |s| then s[i] else '\r'
  }

  /** Skipping white space from position pos stops: some later character is not white space. */
  ghost predicate SkipHalts(cls: CharClass, s: string, pos: int) {
    exists j :: 0 <= pos <= j < |s| && !cls.isWhiteSpace(s[j])
  }

  /** The line does not end in white space. */
  predicate NoTrailingWhitespace(cls: CharClass, s: string) {
    |s| == 0 || !cls.isWhiteSpace(s[|s| - 1])
  }

  /** The first position at or after pos that does not hold white space. */
  function SkipWhiteSpace(cls: CharClass, s: string, pos: int): (q: nat)
    requires SkipHalts(cls, s, pos)
    ensures pos <= q < |s| && !cls.isWhiteSpace(s[q])
    ensures forall k :: pos <= k < q ==> cls.isWhiteSpace(s[k])
    decreases |s| - pos
  {
    if !cls.isWhiteSpace(s[pos]) then pos
    else
      assert SkipHalts(cls, s, pos + 1) by {
        var j :| 0 <= pos <= j < |s| && !cls.isWhiteSpace(s[j]);
        assert j != pos;
      }
      SkipWhiteSpace(cls, s, pos + 1)
  }

  /** The two kinds of maximal runs the lexer scans. */
  datatype Run = Word | Numeral

  predicate InRun(cls: CharClass, run: Run, c: char) {
    match run
    case Word => cls.IsLetterOrDigit(c)
    case Numeral => cls.IsNumeral(c)
  }

  /** The end of the maximal run of `run` characters that starts at `start`. */
  function RunEnd(cls: CharClass, run: Run, s: string, start: int): (e: int)
    requires 0 <= start <= |s|
    ensures start <= e <= |s|
    ensures forall k :: start <= k < e ==> InRun(cls, run, s[k])
    ensures e == |s| || !InRun(cls, run, s[e])
    decreases |s| - start
  {
    if start < |s| && InRun(cls, run, s[start]) then RunEnd(cls, run, s, start + 1) else start
  }

  /** One call of GetToken: the token returned and the new position of curChar. */
  datatype Step = Step(token: Token, pos: int)

  /**
   * The token read from position pos (the position of curChar, one less
   * than the cursor index), and the position it leaves curChar at. Lexing
   * terminates only when curChar is the sentinel or some non-white-space
   * character is left.
   */
  function Scan(cls: CharClass, s: string, pos: int): (r: Step)
    requires 0 <= pos <= |s| + 1
    requires CharAt(s, pos) == '\r' || SkipHalts(cls, s, pos)
    ensures pos <= r.pos <= |s| + 1
    ensures CharAt(s, pos) == '\r' ==> r == Step(KindToken(EOL), pos)
    ensures CharAt(s, pos) != '\r' ==> pos < r.pos
    ensures CharAt(s, pos) != '\r' && r.token.kind == EOL ==> CharAt(s, r.pos) == '/'
  {
    if CharAt(s, pos) == '\r' then Step(KindToken(EOL), pos)
    else
      var q := SkipWhiteSpace(cls, s, pos);
      var c := s[q];
      if cls.isLetter(c) then
        var e := RunEnd(cls, Word, s, q + 1);
        Step(TextToken(s[q..e], GetKeywordType(s[q..e])), e)
      else if cls.IsNumeral(c) then
        var e := RunEnd(cls, Numeral, s, q);
        Step(NumberToken(Scanned(s[q..e])), e)
      else if c == '/' && CharAt(s, q + 1) == '/' then
        Step(KindToken(EOL), q + 1)
      else
        // a lone '/' is dropped and the character after it is lexed instead
        var p := if c == '/' then q + 1 else q;
        if CharAt(s, p) == ';' then Step(KindToken(Semicolon), p + 1)
        else Step(TextToken([CharAt(s, p)], Unknown), p + 1)
  }

  /** q is where the white-space skip that starts at pos stops. */
  ghost predicate FirstNonWhite(cls: CharClass, s: string, pos: int, q: int) {
    && 0 <= pos <= q < |s|
    && !cls.isWhiteSpace(s[q])
    && forall k :: pos <= k < q ==> cls.isWhiteSpace(s[k])
  }

  lemma SkipStopsAtFirstNonWhite(cls: CharClass, s: string, pos: int, q: int)
    requires FirstNonWhite(cls, s, pos, q)
    ensures SkipHalts(cls, s, pos) && SkipWhiteSpace(cls, s, pos) == q
  {
  }

  /**
   * A token that starts with a letter is the maximal run of letters and
   * digits from there, typed by the keyword table; curChar is left on the
   * first character after the run.
   */
  lemma ScanWord(cls: CharClass, s: string, pos: int, q: int)
    requires CharAt(s, pos) != '\r' && FirstNonWhite(cls, s, pos, q) && cls.isLetter(s[q])
    ensures SkipHalts(cls, s, pos)
    ensures var e := RunEnd(cls, Word, s, q + 1);
      Scan(cls, s, pos) == Step(TextToken(s[q..e], GetKeywordType(s[q..e])), e)
  {
    SkipStopsAtFirstNonWhite(cls, s, pos, q);
  }

  /**
   * A token that starts with a digit or a dot is a Number token made from
   * the maximal run of digits and dots from there.
   */
  lemma ScanNumber(cls: CharClass, s: string, pos: int, q: int)
    requires CharAt(s, pos) != '\r' && FirstNonWhite(cls, s, pos, q)
    requires !cls.isLetter(s[q]) && cls.IsNumeral(s[q])
    ensures SkipHalts(cls, s, pos)
    ensures var e := RunEnd(cls, Numeral, s, q);
      q < e && Scan(cls, s, pos) == Step(NumberToken(Scanned(s[q..e])), e)
  {
    SkipStopsAtFirstNonWhite(cls, s, pos, q);
  }

  /** `//` ends the line: EOL, with curChar left on the second slash. */
  lemma ScanComment(cls: CharClass, s: string, pos: int, q: int)
    requires cls.WellFormed()
    requires CharAt(s, pos) != '\r' && FirstNonWhite(cls, s, pos, q)
    requires s[q] == '/' && CharAt(s, q + 1) == '/'
    ensures SkipHalts(cls, s, pos)
    ensures Scan(cls, s, pos) == Step(KindToken(EOL), q + 1)
  {
    SkipStopsAtFirstNonWhite(cls, s, pos, q);
  }

  /**
   * Any other character: a lone slash is dropped, then `;` gives a
   * Semicolon token and anything else an Unknown token carrying exactly
   * that character; one character is consumed after the slash.
   */
  lemma ScanPunctuation(cls: CharClass, s: string, pos: int, q: int)
    requires cls.WellFormed()
    requires CharAt(s, pos) != '\r' && FirstNonWhite(cls, s, pos, q)
    requires !cls.isLetter(s[q]) && !cls.IsNumeral(s[q])
    requires !(s[q] == '/' && CharAt(s, q + 1) == '/')
    ensures SkipHalts(cls, s, pos)
    ensures var p := if s[q] == '/' then q + 1 else q;
      Scan(cls, s, pos) == Step(if CharAt(s, p) == ';' then KindToken(Semicolon) else TextToken([CharAt(s, p)], Unknown), p + 1)
  {
    SkipStopsAtFirstNonWhite(cls, s, pos, q);
  }

  lemma NoTrailingWhitespaceHalts(cls: CharClass, s: string, pos: int)
    requires NoTrailingWhitespace(cls, s) && 0 <= pos && CharAt(s, pos) != '\r'
    ensures SkipHalts(cls, s, pos)
  {
    assert pos <= |s| - 1 && !cls.isWhiteSpace(s[|s| - 1]);
  }

  /**
   * The tokens the lexer hands out from position pos until curChar is the
   * sentinel; from then on every call returns EOL. Every token consumes at
   * least one position, so a line yields at most one token per character,
   * and one more for the sentinel position a trailing lone '/' reaches.
   */
  function Stream(cls: CharClass, s: string, pos: int): (ts: seq<Token>)
    requires NoTrailingWhitespace(cls, s) && 0 <= pos <= |s| + 1
    ensures |ts| <= |s| + 1 - pos
    ensures ts == [] <==> CharAt(s, pos) == '\r'
    decreases |s| + 2 - pos
  {
    if CharAt(s, pos) == '\r' then []
    else
      NoTrailingWhitespaceHalts(cls, s, pos);
      var st := Scan(cls, s, pos);
      [st.token] + Stream(cls, s, st.pos)
  }

  class Lexer {
    const cls: CharClass
    var input: string
    var index: nat
    var curChar: char

    /** curChar is the character at index - 1; the cursor never passes one beyond the sentinel. */
    ghost predicate Valid()
      reads this
    {
      cls.WellFormed() && 1 <= index <= |input| + 2 && curChar == CharAt(input, index - 1)
    }

    /** The initial values of the static fields. */
    constructor (cls: CharClass)
      ensures this.cls == cls && input == "" && index == 0 && curChar == '\0'
    {
      this.cls := cls;
      input := "";
      index := 0;
      curChar := '\0';
    }

    /** Reads the character at the cursor ('\r' past the end) into curChar and advances the cursor. */
    method GetChar() returns (c: char)
      modifies this
      ensures c == CharAt(old(input), old(index)) && curChar == c
      ensures index == old(index) + 1 && input == old(input)
    {
      var rtn := if index < |input| then input[index] else '\r';
      index := index + 1;
      curChar := rtn;
      c := rtn;
    }

    /** Starts lexing a new line: curChar is its first character. */
    method SetInput(s: string)
      requires cls.WellFormed()
      modifies this
      ensures Valid() && input == s && index == 1 && curChar == CharAt(s, 0)
    {
      input := s;
      index := 0;
      var _ := GetChar();
    }

    /** The white-space loop of GetToken: moves curChar to the first character that is not white space. */
    method SkipWhiteSpaceChars()
      requires Valid() && SkipHalts(cls, input, index - 1)
      modifies this
      ensures Valid() && input == old(input)
      ensures index - 1 == SkipWhiteSpace(cls, input, old(index) - 1)
    {
      ghost var q := SkipWhiteSpace(cls, input, index - 1);
      while cls.isWhiteSpace(curChar)
        invariant Valid() && input == old(input)
        invariant old(index) <= index <= q + 1
        decreases q + 1 - index
      {
        var _ := GetChar();
      }
    }

    /** The word loop of GetToken: the maximal run of letters and digits that starts at curChar. */
    method ReadWord() returns (word: string)
      requires Valid() && index - 1 < |input| && cls.isLetter(curChar)
      modifies this
      ensures Valid() && input == old(input)
      ensures index - 1 == RunEnd(cls, Word, input, old(index))
      ensures word == input[old(index) - 1..index - 1]
    {
      ghost var e := RunEnd(cls, Word, input, index);
      word := [curChar];
      var c := GetChar();
      while cls.isLetter(c) || cls.isDigit(c)
        invariant Valid() && input == old(input)
        invariant old(index) < index <= e + 1 && c == curChar
        invariant word == input[old(index) - 1..index - 1]
        decreases e + 1 - index
      {
        assert index - 1 < |input| && curChar == input[index - 1];
        assert input[old(index) - 1..index] == input[old(index) - 1..index - 1] + [curChar];
        word := word + [curChar];
        c := GetChar();
      }
    }

    /** The number loop of GetToken: the maximal run of digits and dots that starts at curChar. */
    method ReadNumeral() returns (val: string)
      requires Valid() && index - 1 < |input| && cls.IsNumeral(curChar)
      modifies this
      ensures Valid() && input == old(input)
      ensures index - 1 == RunEnd(cls, Numeral, input, old(index) - 1)
      ensures val == input[old(index) - 1..index - 1]
    {
      ghost var e := RunEnd(cls, Numeral, input, index - 1);
      val := "";
      while curChar == '.' || cls.isDigit(curChar)
        invariant Valid() && input == old(input)
        invariant old(index) <= index <= e + 1
        invariant val == input[old(index) - 1..index - 1]
        decreases e + 1 - index
      {
        assert index - 1 < |input| && curChar == input[index - 1];
        assert input[old(index) - 1..index] == input[old(index) - 1..index - 1] + [curChar];
        val := val + [curChar];
        var _ := GetChar();
      }
    }

    /** The word branch of GetToken. */
    method ReadWordToken(ghost p0: int) returns (t: Token)
      requires Valid() && CharAt(input, p0) != '\r' && FirstNonWhite(cls, input, p0, index - 1)
      requires cls.isLetter(curChar)
      modifies this
      ensures Valid() && input == old(input)
      ensures SkipHalts(cls, input, p0) && Scan(cls, input, p0) == Step(t, index - 1)
    {
      ScanWord(cls, input, p0, index - 1);
      var word := ReadWord();
      t := TextToken(word, GetKeywordType(word));
    }

    /** The number branch of GetToken. */
    method ReadNumberToken(ghost p0: int) returns (t: Token)
      requires Valid() && CharAt(input, p0) != '\r' && FirstNonWhite(cls, input, p0, index - 1)
      requires !cls.isLetter(curChar) && cls.IsNumeral(curChar)
      modifies this
      ensures Valid() && input == old(input)
      ensures SkipHalts(cls, input, p0) && Scan(cls, input, p0) == Step(t, index - 1)
    {
      ScanNumber(cls, input, p0, index - 1);
      var val := ReadNumeral();
      // double.TryParse(val) is left uninterpreted
      t := NumberToken(Scanned(val));
    }

    /** The rest of GetToken: comments, semicolons and single characters. */
    method ReadPunctuation(ghost p0: int, ghost q: int) returns (t: Token)
      requires Valid() && index - 1 == q
      requires CharAt(input, p0) != '\r' && FirstNonWhite(cls, input, p0, q)
      requires !cls.isLetter(curChar) && !cls.IsNumeral(curChar)
      modifies this
      ensures Valid() && input == old(input)
      ensures SkipHalts(cls, input, p0) && Scan(cls, input, p0) == Step(t, index - 1)
    {
      if curChar == '/' {
        var c := GetChar();
        if c == '/' {
          ScanComment(cls, input, p0, q);
          return KindToken(EOL);
        }
      }
      ScanPunctuation(cls, input, p0, q);

      if curChar == ';' {
        var _ := GetChar();
        return KindToken(Semicolon);
      }

      var c := [curChar];
      var _ := GetChar();
      return TextToken(c, Unknown);
    }

    /** Returns the next token, as Scan says. */
    method GetToken() returns (t: Token)
      requires Valid()
      requires curChar == '\r' || SkipHalts(cls, input, index - 1)
      modifies this
      ensures Valid() && input == old(input)
      ensures Scan(cls, input, old(index) - 1) == Step(t, index - 1)
      ensures old(curChar) == '\r' ==> t == KindToken(EOL) && index == old(index)
    {
      if curChar == '\r' {
        return KindToken(EOL);
      }
      ghost var p0 := index - 1;
      SkipWhiteSpaceChars();
      ghost var q := index - 1;
      assert FirstNonWhite(cls, input, p0, q);

      if cls.isLetter(curChar) {
        t := ReadWordToken(p0);
      } else if curChar == '.' || cls.isDigit(curChar) {
        t := ReadNumberToken(p0);
      } else {
        t := ReadPunctuation(p0, q);
      }
    }
  }
}
