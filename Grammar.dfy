/**
 * Token records and the two read-only lookup tables of the language:
 * the keyword table and the binary-operator precedence table.
 */
module Grammar {

  datatype TokenType = Unknown | EOL | Semicolon | Definition | Lambda | Identifier | Number

  /**
   * The numeric value a Number token carries. The lexer hands the scanned
   * lexeme to double.TryParse, whose value (0 when parsing fails) is not
   * computed here: Scanned(lexeme) stands for it. Zero is the default
   * value of the double field of every other token.
   */
  datatype Num = Zero | Scanned(lexeme: string)

  /**
   * A token: its type, its string value (a null string value is the empty
   * string) and its double value.
   */
  datatype Token = Token(kind: TokenType, text: string, value: Num)

  /** Token(TokenType): only the type is set. */
  function KindToken(kind: TokenType): (t: Token)
    ensures t.kind == kind && t.text == "" && t.value == Zero
  {
    Token(kind, "", Zero)
  }

  /** Token(double): a Number token carrying the value. */
  function NumberToken(value: Num): (t: Token)
    ensures t.kind == Number && t.value == value && t.text == ""
  {
    Token(Number, "", value)
  }

  /** Token(string, TokenType): the string value and the type, unchanged. */
  function TextToken(text: string, kind: TokenType): (t: Token)
    ensures t.kind == kind && t.text == text && t.value == Zero
  {
    Token(kind, text, Zero)
  }

  const Keywords: map<string, TokenType> := map["def" := Definition, "lambda" := Lambda]

  const Precedences: map<string, int> := map["<" := 10, "+" := 20, "-" := 20, "*" := 40]

  /** The keyword type of a whole word, or Identifier for any other word. */
  function GetKeywordType(word: string): (r: TokenType)
    ensures r == Definition <==> word == "def"
    ensures r == Lambda <==> word == "lambda"
    ensures r != Definition && r != Lambda ==> r == Identifier
  {
    if word in Keywords then Keywords[word] else Identifier
  }

  /**
   * The precedence of a binary operator; -1 for the null string (modelled
   * as "") and for every string that is not an operator.
   */
  function GetPrecedence(binop: string): (r: int)
    ensures binop == "<" ==> r == 10
    ensures binop == "+" || binop == "-" ==> r == 20
    ensures binop == "*" ==> r == 40
    ensures binop !in {"<", "+", "-", "*"} ==> r == -1
    ensures r == -1 || r > 0
    ensures r > 0 <==> binop in Precedences
  {
    if binop == "" then -1
    else if binop in Precedences then Precedences[binop]
    else -1
  }

  /** Higher binds tighter: `<` below `+` and `-`, which tie, below `*`. */
  lemma PrecedenceOrder()
    ensures 0 < GetPrecedence("<") < GetPrecedence("+") == GetPrecedence("-") < GetPrecedence("*")
    ensures GetPrecedence("") == -1
  {
  }
}
