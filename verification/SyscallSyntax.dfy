/** The syntax of one syscall definition: the tree the parser builds, the text
    its printers produce, and the tokens the tokenizer finds in a text. */
module SyscallSyntax {
  import opened Wrappers

  // ----- Trees

  datatype Type = Type(name: string, args: seq<TypeArg>)
  datatype TypeArg = TypeArg(attr: string, value: Value)
  datatype Value =
    | TypeValue(t: Type)
    | IntValue(n: int)
    | StrValue(s: string)
  datatype Argument = Argument(t: Type, identifier: string)
  datatype SyscallDef = SyscallDef(name: string, args: seq<Argument>)

  /** A key of the field-class table: the name of a subclass of `Field`. */
  predicate IsFieldClass(name: string) {
    name in {
      "Value", "Bool", "UInt32", "Int32", "UInt64", "Int64", "Declared", "Ptr",
      "Retval", "CappedSize", "EmptyArray", "EmptyBuffer", "Array", "Buffer",
      "SizeOf", "Literal", "Nullptr", "Enum", "Flags", "RandomStruct",
      "SockAddr", "RLimit", "UUID", "EmptySocketPair", "EmptyPipeFds",
      "Socklen", "FileDescriptor"
    }
  }

  // ----- Characters and integers

  predicate IsDigit(c: char) {
    '0' <= c <= '9'
  }

  /** `\w` on ASCII text. */
  predicate IsWordChar(c: char) {
    'a' <= c <= 'z' || 'A' <= c <= 'Z' || IsDigit(c) || c == '_'
  }

  predicate IsWord(s: string) {
    s != "" && forall i :: 0 <= i < |s| ==> IsWordChar(s[i])
  }

  predicate IsPunct(c: char) {
    c in ['(', ')', '[', ']', ',', '=']
  }

  predicate IsSpace(c: char) {
    c == ' ' || '\t' <= c <= '\r' || 0x1c <= c as int <= 0x1f
  }

  function StripLeft(s: string): (r: string)
    ensures |r| <= |s| && r == s[|s| - |r|..]
  {
    if s != "" && IsSpace(s[0]) then StripLeft(s[1..]) else s
  }

  function StripRight(s: string): (r: string)
    ensures |r| <= |s| && r == s[..|r|]
  {
    if s != "" && IsSpace(s[|s| - 1]) then StripRight(s[..|s| - 1]) else s
  }

  function Strip(s: string): string {
    StripRight(StripLeft(s))
  }

  predicate AllSpace(s: string) {
    forall c :: c in s ==> IsSpace(c)
  }

  predicate IsTrimmed(s: string) {
    s != "" && !IsSpace(s[0]) && !IsSpace(s[|s| - 1])
  }

  lemma {:induction false} StripLeftSpace(lead: string, s: string)
    requires AllSpace(lead)
    ensures StripLeft(lead + s) == StripLeft(s)
  {
    if lead == "" {
      assert lead + s == s;
    } else {
      assert lead[0] in lead && (lead + s)[1..] == lead[1..] + s;
      StripLeftSpace(lead[1..], s);
    }
  }

  lemma {:induction false} StripRightSpace(s: string, trail: string)
    requires AllSpace(trail) && (s == "" || !IsSpace(s[|s| - 1]))
    ensures StripRight(s + trail) == s
    decreases |trail|
  {
    if trail == "" {
      assert s + trail == s;
    } else {
      var n := |trail| - 1;
      assert trail[n] in trail && (s + trail)[..|s| + n] == s + trail[..n];
      StripRightSpace(s, trail[..n]);
    }
  }

  lemma StripsTo(lead: string, core: string, trail: string)
    requires AllSpace(lead) && AllSpace(trail) && IsTrimmed(core)
    ensures Strip(lead + core + trail) == core
  {
    assert lead + core + trail == lead + (core + trail);
    StripLeftSpace(lead, core + trail);
    StripRightSpace(core, trail);
  }

  /** Digits with single underscores between them, as `int()` accepts. */
  predicate IsDigitRun(s: string) {
    s != "" && IsDigit(s[0]) &&
    (|s| == 1 || IsDigitRun(s[1..]) || (s[1] == '_' && IsDigitRun(s[2..])))
  }

  function DigitsValue(s: string): nat {
    if s == "" then 0
    else
      var last := s[|s| - 1];
      var value := DigitsValue(s[..|s| - 1]);
      if IsDigit(last) then 10 * value + (last as int - '0' as int) else value
  }

  /** Python's `int(s)`; `None` stands for its ValueError. */
  function PyInt(s: string): Option<int> {
    var t := Strip(s);
    if IsDigitRun(t) then Some(DigitsValue(t))
    else if t != "" && t[0] == '+' && IsDigitRun(t[1..]) then Some(DigitsValue(t[1..]))
    else if t != "" && t[0] == '-' && IsDigitRun(t[1..]) then Some(0 - DigitsValue(t[1..]))
    else None
  }

  function DecimalDigits(n: nat): string {
    var digit := ('0' as int + n % 10) as char;
    if n < 10 then [digit] else DecimalDigits(n / 10) + [digit]
  }

  function ShowInt(n: int): string {
    if n < 0 then "-" + DecimalDigits(-n) else DecimalDigits(n)
  }

  // ----- Printers

  /** The source's printers write string values bare; in the definitions file
      they may stand in double quotes. */
  datatype Style = Bare | Quoted

  function Quote(s: string): string {
    "\"" + (s + "\"")
  }

  function ShowValue(style: Style, v: Value): string
    decreases v, 0
  {
    match v
    case TypeValue(t) => ShowType(style, t)
    case IntValue(n) => if style.Quoted? && n < 0 then Quote(ShowInt(n)) else ShowInt(n)
    case StrValue(s) => if style.Quoted? then Quote(s) else s
  }

  function ShowTypeArg(style: Style, a: TypeArg): string
    decreases a, 0
  {
    a.attr + "=" + ShowValue(style, a.value)
  }

  function ShowTypeArgs(style: Style, args: seq<TypeArg>): string
    decreases args, 0
  {
    if args == [] then ""
    else if |args| == 1 then ShowTypeArg(style, args[0])
    else ShowTypeArg(style, args[0]) + (", " + ShowTypeArgs(style, args[1..]))
  }

  function ShowType(style: Style, t: Type): string
    decreases t, 0
  {
    if t.args == [] then t.name
    else t.name + ("[" + (ShowTypeArgs(style, t.args) + "]"))
  }

  function ShowArgument(style: Style, a: Argument): string {
    ShowType(style, a.t) + (" " + a.identifier)
  }

  function ShowArguments(style: Style, args: seq<Argument>): string {
    if args == [] then ""
    else if |args| == 1 then ShowArgument(style, args[0])
    else ShowArgument(style, args[0]) + (", " + ShowArguments(style, args[1..]))
  }

  function ShowDef(style: Style, d: SyscallDef): string {
    d.name + ("(" + (ShowArguments(style, d.args) + ")"))
  }

  // ----- Tokens

  datatype TokenKind = BasicType | Identifier | StringLiteral | Punct(c: char)
  datatype Token = Token(kind: TokenKind, value: string)

  const COMMA := Token(Punct(','), ",")

  /** The number of leading word characters. */
  function WordLength(s: string): (n: nat)
    ensures n <= |s|
    ensures forall i :: 0 <= i < n ==> IsWordChar(s[i])
    ensures n < |s| ==> !IsWordChar(s[n])
  {
    if s == "" || !IsWordChar(s[0]) then 0 else 1 + WordLength(s[1..])
  }

  function IndexOf(s: string, c: char): (n: nat)
    requires c in s
    ensures n < |s| && s[n] == c && c !in s[..n]
  {
    if s[0] == c then 0 else 1 + IndexOf(s[1..], c)
  }

  /** `re.findall` with the tokenizer's expression: a run of word characters, a
      punctuation character or a closed double-quoted string; anything else is
      skipped one character at a time. */
  function FindAll(s: string): seq<string> {
    if s == "" then []
    else if IsWordChar(s[0]) then
      var n := WordLength(s);
      [s[..n]] + FindAll(s[n..])
    else if IsPunct(s[0]) then
      [[s[0]]] + FindAll(s[1..])
    else if s[0] == '"' && '"' in s[1..] then
      var n := IndexOf(s[1..], '"') + 2;
      [s[..n]] + FindAll(s[n..])
    else FindAll(s[1..])
  }

  function Classify(lexeme: string): Token {
    if IsFieldClass(lexeme) then Token(BasicType, lexeme)
    else if |lexeme| == 1 && IsPunct(lexeme[0]) then Token(Punct(lexeme[0]), lexeme)
    else if |lexeme| >= 2 && lexeme[0] == '"' && lexeme[|lexeme| - 1] == '"' then
      Token(StringLiteral, lexeme[1..|lexeme| - 1])
    else Token(Identifier, lexeme)
  }

  function ClassifyAll(lexemes: seq<string>): (r: seq<Token>)
    ensures |r| == |lexemes|
    ensures forall i :: 0 <= i < |r| ==> r[i] == Classify(lexemes[i])
  {
    if lexemes == [] then [] else [Classify(lexemes[0])] + ClassifyAll(lexemes[1..])
  }

  function Tokens(s: string): seq<Token> {
    ClassifyAll(FindAll(s))
  }

  /** The tokenizer: classifies the lexemes one after the other. */
  method Tokenize(input: string) returns (tokens: seq<Token>)
    ensures tokens == Tokens(input)
  {
    hide IsFieldClass;
    var lexemes := FindAll(input);
    tokens := [];
    for i := 0 to |lexemes|
      invariant tokens == ClassifyAll(lexemes[..i])
    {
      tokens := tokens + [Classify(lexemes[i])];
    }
    assert lexemes[..|lexemes|] == lexemes;
  }
}
