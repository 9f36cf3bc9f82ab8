/** Printing a syscall definition and parsing the text again: exactly which
    definitions survive, and why the commas do not matter. */
module SyscallRoundTrip {
  import opened Wrappers
  import opened SyscallSyntax
  import opened SyscallParser

  // ----- Definitions with plain names, and the ones among them that survive

  predicate IsLonePunct(s: string) {
    |s| == 1 && IsPunct(s[0])
  }

  ghost predicate PlainType(t: Type)
    decreases t, 0
  {
    IsWord(t.name) && PlainTypeArgs(t.args)
  }

  ghost predicate PlainTypeArgs(args: seq<TypeArg>)
    decreases args, 1
  {
    forall a :: a in args ==> IsWord(a.attr) && PlainValue(a.value)
  }

  ghost predicate PlainValue(v: Value)
    decreases v, 0
  {
    match v
    case TypeValue(t) => PlainType(t)
    case IntValue(_) => true
    case StrValue(_) => true
  }

  /** All names are runs of word characters. */
  ghost predicate PlainDef(d: SyscallDef) {
    IsWord(d.name) &&
    forall a :: a in d.args ==> PlainType(a.t) && IsWord(a.identifier)
  }

  ghost predicate GoodTypeArgs(style: Style, args: seq<TypeArg>)
    decreases args, 1
  {
    forall a :: a in args ==> !IsFieldClass(a.attr) && GoodValue(style, a.value)
  }

  ghost predicate GoodValue(style: Style, v: Value)
    decreases v, 0
  {
    match v
    case TypeValue(t) => IsFieldClass(t.name) && GoodTypeArgs(style, t.args)
    case IntValue(n) => n >= 0 || style.Quoted?
    case StrValue(s) =>
      PyInt(s) == None
      && (if style.Quoted? then '"' !in s else (IsWord(s) || IsLonePunct(s)) && !IsFieldClass(s))
  }

  /** Attributes are no field classes, nested types are, and string values do not
      read as integers. Printed bare, integers are also not negative, and string
      values one punctuation character, or one word that does not read as a type;
      printed in quotes, string values hold no quote. */
  ghost predicate GoodDef(style: Style, d: SyscallDef) {
    forall a :: a in d.args ==> GoodTypeArgs(style, a.t.args)
  }

  // ----- Integers

  lemma {:induction false} DecimalDigitsAreDigits(n: nat)
    ensures DecimalDigits(n) != ""
    ensures forall i :: 0 <= i < |DecimalDigits(n)| ==> IsDigit(DecimalDigits(n)[i])
    ensures DigitsValue(DecimalDigits(n)) == n
  {
    var s := DecimalDigits(n);
    if n < 10 {
      assert s[..0] == "";
    } else {
      DecimalDigitsAreDigits(n / 10);
      assert s[..|s| - 1] == DecimalDigits(n / 10);
    }
  }

  lemma {:induction false} DigitsAreDigitRun(s: string)
    requires s != "" && forall i :: 0 <= i < |s| ==> IsDigit(s[i])
    ensures IsDigitRun(s)
  {
    if |s| > 1 {
      DigitsAreDigitRun(s[1..]);
    }
  }

  /** `int(str(n)) == n` for every non-negative integer. */
  lemma PrintedIntegerReads(n: nat)
    ensures IsWord(DecimalDigits(n)) && PyInt(DecimalDigits(n)) == Some(n)
  {
    DecimalDigitsAreDigits(n);
    DigitsAreDigitRun(DecimalDigits(n));
    WordsHaveNoSpace(DecimalDigits(n));
  }

  lemma StripsNothing(s: string)
    requires s != "" && !IsSpace(s[0]) && !IsSpace(s[|s| - 1])
    ensures Strip(s) == s
  {
  }

  lemma NoDigitRun(s: string)
    requires s != "" && !IsDigit(s[0])
    ensures !IsDigitRun(s)
  {
  }

  lemma DigitIsDigit(c: char)
    requires IsDigit(c)
    ensures !IsSpace(c) && c != '"'
  {
  }

  lemma PlainReads(s: string, t: string)
    requires Strip(s) == t && IsDigitRun(t)
    ensures PyInt(s) == Some(DigitsValue(t))
  {
    hide Strip, IsDigitRun, DigitsValue;
  }

  lemma SignReads(s: string, t: string)
    requires Strip(s) == t && t != "" && (t[0] == '+' || t[0] == '-') && IsDigitRun(t[1..])
    ensures PyInt(s) == Some(if t[0] == '-' then 0 - DigitsValue(t[1..]) else DigitsValue(t[1..]))
  {
    NoDigitRun(t);
    hide Strip, IsDigitRun, DigitsValue;
  }

  lemma DigitsFacts(n: nat)
    ensures var digits := DecimalDigits(n);
      && IsDigitRun(digits) && !IsSpace(digits[|digits| - 1]) && '"' !in digits && DigitsValue(digits) == n
  {
    var digits := DecimalDigits(n);
    DecimalDigitsAreDigits(n);
    DigitsAreDigitRun(digits);
    DigitIsDigit(digits[|digits| - 1]);
    hide DecimalDigits, IsSpace;
    forall i | 0 <= i < |digits| ensures digits[i] != '"' {
      DigitIsDigit(digits[i]);
    }
  }

  /** `int(str(n)) == n` for every integer; a negative one is no word. */
  lemma SignedIntegerReads(n: int)
    ensures PyInt(ShowInt(n)) == Some(n) && '"' !in ShowInt(n)
  {
    hide PyInt, DecimalDigits, DigitsValue, IsDigitRun, IsSpace;
    var m: nat := if n < 0 then -n else n;
    DigitsFacts(m);
    if n < 0 {
      SignedRead("-", DecimalDigits(m));
      StripsNothing("-" + DecimalDigits(m));
      StrippedReads("-" + DecimalDigits(m), "-", DecimalDigits(m));
    } else {
      PrintedIntegerReads(m);
    }
  }

  function Without(s: string, c: char): string {
    if s == "" then ""
    else Without(s[..|s| - 1], c) + if s[|s| - 1] == c then "" else [s[|s| - 1]]
  }

  /** Underscores between digits do not count. */
  lemma {:induction false} UnderscoresDoNotCount(s: string)
    ensures DigitsValue(Without(s, '_')) == DigitsValue(s)
  {
    if s != "" {
      var n := |s| - 1;
      UnderscoresDoNotCount(s[..n]);
      var shorter, all := Without(s[..n], '_'), Without(s, '_');
      if s[n] == '_' {
        assert all == shorter && !IsDigit(s[n]);
      } else {
        assert all == shorter + [s[n]];
        assert all[..|all| - 1] == shorter && all[|all| - 1] == s[n];
      }
    }
  }

  lemma {:induction false} DigitRunEnds(s: string)
    requires IsDigitRun(s)
    ensures IsDigit(s[0]) && IsDigit(s[|s| - 1])
  {
    if |s| > 1 {
      DigitRunEnds(if IsDigitRun(s[1..]) then s[1..] else s[2..]);
    }
  }

  lemma SignedRead(sign: string, digits: string)
    requires sign in {"", "+", "-"} && IsDigitRun(digits)
    ensures IsTrimmed(sign + digits) && (sign != "" ==> !IsDigitRun(sign + digits) && (sign + digits)[1..] == digits)
    ensures sign != "" ==> (sign + digits)[0] == sign[0]
  {
    var text := sign + digits;
    DigitRunEnds(digits);
    DigitIsDigit(digits[0]);
    DigitIsDigit(digits[|digits| - 1]);
    assert text[|text| - 1] == digits[|digits| - 1];
    if sign == "" {
      assert text == digits;
    } else {
      assert text[0] == sign[0];
      NoDigitRun(text);
    }
  }

  lemma StrippedReads(s: string, sign: string, digits: string)
    requires Strip(s) == sign + digits && sign in {"", "+", "-"} && IsDigitRun(digits)
    ensures PyInt(s) == Some(if sign == "-" then 0 - DigitsValue(digits) else DigitsValue(digits))
  {
    var text := sign + digits;
    hide *;
    if sign == "" {
      assert text == digits;
      PlainReads(s, digits);
    } else {
      assert text[0] == sign[0] && text[1..] == digits;
      SignReads(s, text);
    }
  }

  /** `int()` reads a number with a sign before it and spaces around it. */
  lemma IntegerReads(lead: string, sign: string, digits: string, trail: string)
    requires AllSpace(lead) && AllSpace(trail) && sign in {"", "+", "-"} && IsDigitRun(digits)
    ensures PyInt(lead + (sign + digits) + trail) ==
      Some(if sign == "-" then 0 - DigitsValue(Without(digits, '_')) else DigitsValue(Without(digits, '_')))
  {
    hide *;
    UnderscoresDoNotCount(digits);
    SignedRead(sign, digits);
    StripsTo(lead, sign + digits, trail);
    StrippedReads(lead + (sign + digits) + trail, sign, digits);
  }

  /** And nothing else: what it reads is, between spaces, a sign or none and a run
      of digits. */
  lemma OnlyIntegersRead(s: string)
    requires PyInt(s).Some?
    ensures exists sign, digits ::
      Strip(s) == sign + digits && sign in {"", "+", "-"} && IsDigitRun(digits)
  {
    var t := Strip(s);
    hide Strip, DigitsValue;
    if IsDigitRun(t) {
      assert t == "" + t;
    } else {
      assert t == [t[0]] + t[1..];
      assert [t[0]] == "+" || [t[0]] == "-";
    }
  }

  lemma WordsHaveNoSpace(s: string)
    requires IsWord(s)
    ensures Strip(s) == s
  {
  }

  lemma WordsReadNonNegative(s: string)
    requires IsWord(s)
    ensures PyInt(s).Some? ==> PyInt(s).value >= 0
  {
    WordsHaveNoSpace(s);
  }

  // ----- From characters to tokens

  /** What a printed form is made of: tokens, and the commas that separate the
      elements of a list. A comma that is a value is a token like any other. */
  datatype Piece = Separator | Lexeme(token: Token)

  function Spelled(pieces: seq<Piece>): seq<Token> {
    if pieces == [] then []
    else [if pieces[0].Separator? then COMMA else pieces[0].token] + Spelled(pieces[1..])
  }

  lemma {:induction false} SpelledBoth(a: seq<Piece>, b: seq<Piece>)
    ensures Spelled(a + b) == Spelled(a) + Spelled(b)
  {
    if a == [] {
      assert a + b == b;
    } else {
      SpelledBoth(a[1..], b);
      assert (a + b)[1..] == a[1..] + b && (a + b)[0] == a[0];
      var first := [if a[0].Separator? then COMMA else a[0].token];
      assert first + (Spelled(a[1..]) + Spelled(b)) == (first + Spelled(a[1..])) + Spelled(b);
    }
  }

  lemma SpelledOne(p: Piece)
    ensures Spelled([p]) == [if p.Separator? then COMMA else p.token]
  {
    assert [p][1..] == [];
  }

  /** The next character cannot extend a word. */
  ghost predicate Delimited(rest: string) {
    rest != "" ==> !IsWordChar(rest[0])
  }

  /** In front of any text, `text` is read as the tokens of `pieces`. */
  ghost predicate LexesBefore(text: string, pieces: seq<Piece>, rest: string) {
    Tokens(text + rest) == Spelled(pieces) + Tokens(rest)
  }

  ghost predicate Lexes(text: string, pieces: seq<Piece>) {
    forall rest :: Delimited(rest) ==> LexesBefore(text, pieces, rest)
  }

  /** As `Lexes`, even when a word follows. */
  ghost predicate LexesAnywhere(text: string, pieces: seq<Piece>) {
    forall rest :: LexesBefore(text, pieces, rest)
  }

  lemma LexesBoth(a: string, x: seq<Piece>, b: string, y: seq<Piece>)
    requires Lexes(b, y)
    requires LexesAnywhere(a, x) || (Lexes(a, x) && Delimited(b))
    ensures Lexes(a + b, x + y)
  {
    hide Tokens;
    forall rest | Delimited(rest)
      ensures LexesBefore(a + b, x + y, rest)
    {
      assert (a + b) + rest == a + (b + rest);
      assert LexesBefore(a, x, b + rest);
      assert LexesBefore(b, y, rest);
      SpelledBoth(x, y);
      assert (Spelled(x) + Spelled(y)) + Tokens(rest) == Spelled(x) + (Spelled(y) + Tokens(rest));
    }
  }

  lemma LexesWord(w: string)
    requires IsWord(w)
    ensures Lexes(w, [Lexeme(Classify(w))])
  {
    SpelledOne(Lexeme(Classify(w)));
    forall rest | Delimited(rest)
      ensures LexesBefore(w, [Lexeme(Classify(w))], rest)
    {
      var s := w + rest;
      assert forall i :: 0 <= i < |w| ==> s[i] == w[i];
      assert rest != "" ==> s[|w|] == rest[0];
      assert WordLength(s) == |w|;
      assert s[..|w|] == w && s[|w|..] == rest;
      assert FindAll(s) == [w] + FindAll(rest);
      assert ([w] + FindAll(rest))[1..] == FindAll(rest);
    }
  }

  lemma LexesPunct(c: char)
    requires IsPunct(c)
    ensures LexesAnywhere([c], [Lexeme(Token(Punct(c), [c]))])
  {
    PunctIsNoFieldClass(c);
    SpelledOne(Lexeme(Token(Punct(c), [c])));
    forall rest
      ensures LexesBefore([c], [Lexeme(Token(Punct(c), [c]))], rest)
    {
      var s := [c] + rest;
      assert s[1..] == rest;
      assert FindAll(s) == [[c]] + FindAll(rest);
      assert ([[c]] + FindAll(rest))[1..] == FindAll(rest);
    }
  }

  lemma QuoteClassified(s: string)
    requires '"' !in s
    ensures Classify(Quote(s)) == Token(StringLiteral, s)
  {
    hide IsFieldClass;
    var lexeme := Quote(s);
    assert lexeme[0] == '"' && lexeme[|lexeme| - 1] == '"' && lexeme[1..|lexeme| - 1] == s;
    if IsFieldClass(lexeme) {
      FieldClassesAreCapitalized(lexeme);
    }
  }

  lemma QuotedLexeme(s: string, rest: string)
    requires '"' !in s
    ensures FindAll(Quote(s) + rest) == [Quote(s)] + FindAll(rest)
  {
    var text := Quote(s) + rest;
    assert text[1..] == s + ("\"" + rest);
    ClosingQuote(s, "\"" + rest);
    assert text[..|s| + 2] == Quote(s) && text[|s| + 2..] == rest;
    assert text[0] == '"';
    hide Quote;
  }

  /** A text in quotes is one token, whatever it holds but a quote. */
  lemma LexesQuote(s: string)
    requires '"' !in s
    ensures LexesAnywhere(Quote(s), [Lexeme(Token(StringLiteral, s))])
  {
    QuoteClassified(s);
    SpelledOne(Lexeme(Token(StringLiteral, s)));
    hide Classify, Quote, Spelled, FindAll;
    forall rest
      ensures LexesBefore(Quote(s), [Lexeme(Token(StringLiteral, s))], rest)
    {
      QuotedLexeme(s, rest);
      assert ([Quote(s)] + FindAll(rest))[1..] == FindAll(rest);
    }
  }

  lemma {:induction false} ClosingQuote(s: string, rest: string)
    requires '"' !in s && rest != "" && rest[0] == '"'
    ensures '"' in s + rest && IndexOf(s + rest, '"') == |s|
  {
    assert (s + rest)[|s|] == '"';
    if s != "" {
      ClosingQuote(s[1..], rest);
      assert (s + rest)[1..] == s[1..] + rest;
      assert s[0] in s;
    } else {
      assert s + rest == rest;
    }
  }

  lemma LexesSpace()
    ensures LexesAnywhere(" ", [])
  {
    hide Classify;
    forall rest
      ensures LexesBefore(" ", [], rest)
    {
      assert (" " + rest)[1..] == rest;
    }
  }

  /** The separator between list elements is one comma token. */
  lemma LexesSeparator()
    ensures LexesAnywhere(", ", [Separator])
  {
    hide Tokens;
    LexesPunct(',');
    LexesSpace();
    SpelledOne(Separator);
    SpelledOne(Lexeme(COMMA));
    forall rest
      ensures LexesBefore(", ", [Separator], rest)
    {
      assert ", " + rest == "," + (" " + rest);
      assert LexesBefore(",", [Lexeme(COMMA)], " " + rest);
      assert LexesBefore(" ", [], rest);
    }
  }

  lemma LexesNothing()
    ensures Lexes("", [])
  {
    forall rest
      ensures LexesBefore("", [], rest)
    {
      assert "" + rest == rest;
    }
  }

  lemma FieldClassesAreCapitalized(s: string)
    requires IsFieldClass(s)
    ensures |s| >= 3 && 'A' <= s[0] <= 'Z'
  {
  }

  lemma PunctIsNoFieldClass(c: char)
    requires IsPunct(c)
    ensures !IsFieldClass([c])
  {
    if IsFieldClass([c]) {
      FieldClassesAreCapitalized([c]);
    }
  }

  // ----- The tokens of the printed forms

  function TypeTokens(style: Style, t: Type): seq<Piece>
    decreases t, 0
  {
    if t.args == [] then [Lexeme(Classify(t.name))]
    else
      [Lexeme(Classify(t.name))]
      + ([Lexeme(Token(Punct('['), "["))] + (TypeArgsTokens(style, t.args) + [Lexeme(Token(Punct(']'), "]"))]))
  }

  function TypeArgsTokens(style: Style, args: seq<TypeArg>): seq<Piece>
    decreases args, 0
  {
    if args == [] then []
    else if |args| == 1 then TypeArgTokens(style, args[0])
    else TypeArgTokens(style, args[0]) + ([Separator] + TypeArgsTokens(style, args[1..]))
  }

  function TypeArgTokens(style: Style, a: TypeArg): seq<Piece>
    decreases a, 0
  {
    [Lexeme(Classify(a.attr))] + ([Lexeme(Token(Punct('='), "="))] + ValueTokens(style, a.value))
  }

  function ValueTokens(style: Style, v: Value): seq<Piece>
    decreases v, 0
  {
    match v
    case TypeValue(t) => TypeTokens(style, t)
    case IntValue(n) => if n < 0 then [Lexeme(Token(StringLiteral, ShowInt(n)))] else [Lexeme(Classify(ShowInt(n)))]
    case StrValue(s) => [Lexeme(if style.Quoted? then Token(StringLiteral, s) else Classify(s))]
  }

  function ArgumentTokens(style: Style, a: Argument): seq<Piece> {
    TypeTokens(style, a.t) + [Lexeme(Classify(a.identifier))]
  }

  function ArgumentsTokens(style: Style, args: seq<Argument>): seq<Piece> {
    if args == [] then []
    else if |args| == 1 then ArgumentTokens(style, args[0])
    else ArgumentTokens(style, args[0]) + ([Separator] + ArgumentsTokens(style, args[1..]))
  }

  function DefTokens(style: Style, d: SyscallDef): seq<Piece> {
    [Lexeme(Classify(d.name))]
    + ([Lexeme(Token(Punct('('), "("))] + (ArgumentsTokens(style, d.args) + [Lexeme(Token(Punct(')'), ")"))]))
  }

  lemma {:induction false} TypeText(style: Style, t: Type)
    requires PlainType(t) && GoodTypeArgs(style, t.args)
    ensures Lexes(ShowType(style, t), TypeTokens(style, t))
    decreases t, 0
  {
    LexesWord(t.name);
    if t.args != [] {
      var list, tokens := ShowTypeArgs(style, t.args), TypeArgsTokens(style, t.args);
      TypeArgsText(style, t.args);
      Closed(']');
      LexesBoth(list, tokens, "]", [Lexeme(Token(Punct(']'), "]"))]);
      LexesPunct('[');
      LexesBoth("[", [Lexeme(Token(Punct('['), "["))], list + "]", tokens + [Lexeme(Token(Punct(']'), "]"))]);
      LexesBoth(t.name, [Lexeme(Classify(t.name))], "[" + (list + "]"), TypeTokens(style, t)[1..]);
    }
  }

  lemma Closed(c: char)
    requires IsPunct(c)
    ensures Lexes([c], [Lexeme(Token(Punct(c), [c]))])
  {
    LexesPunct(c);
  }

  lemma {:induction false} TypeArgsText(style: Style, args: seq<TypeArg>)
    requires PlainTypeArgs(args) && GoodTypeArgs(style, args)
    ensures Lexes(ShowTypeArgs(style, args), TypeArgsTokens(style, args))
    decreases args, 0
  {
    if args == [] {
      LexesNothing();
    } else {
      TypeArgText(style, args[0]);
      if |args| > 1 {
        var tail, tokens := ShowTypeArgs(style, args[1..]), TypeArgsTokens(style, args[1..]);
        TypeArgsText(style, args[1..]);
        LexesSeparator();
        LexesBoth(", ", [Separator], tail, tokens);
        LexesBoth(ShowTypeArg(style, args[0]), TypeArgTokens(style, args[0]), ", " + tail, [Separator] + tokens);
      }
    }
  }

  lemma {:induction false} TypeArgText(style: Style, a: TypeArg)
    requires IsWord(a.attr) && PlainValue(a.value) && GoodValue(style, a.value)
    ensures Lexes(ShowTypeArg(style, a), TypeArgTokens(style, a))
    decreases a, 0
  {
    hide Tokens, Spelled, Lexes, LexesAnywhere, ValueTokens, ShowValue;
    var value, tokens := ShowValue(style, a.value), ValueTokens(style, a.value);
    LexesWord(a.attr);
    LexesPunct('=');
    ValueText(style, a.value);
    LexesBoth("=", [Lexeme(Token(Punct('='), "="))], value, tokens);
    LexesBoth(a.attr, [Lexeme(Classify(a.attr))], "=" + value, [Lexeme(Token(Punct('='), "="))] + tokens);
    assert a.attr + ("=" + value) == ShowTypeArg(style, a);
  }

  lemma {:induction false} ValueText(style: Style, v: Value)
    requires PlainValue(v) && GoodValue(style, v)
    ensures Lexes(ShowValue(style, v), ValueTokens(style, v))
    decreases v, 0
  {
    match v
    case TypeValue(t) => TypeText(style, t);
    case IntValue(n) =>
      if n < 0 {
        SignedIntegerReads(n);
        LexesQuote(ShowInt(n));
      } else {
        PrintedIntegerReads(n);
        LexesWord(ShowInt(n));
      }
    case StrValue(s) =>
      if style.Quoted? {
        LexesQuote(s);
      } else if IsWord(s) {
        LexesWord(s);
      } else {
        PunctTokens(s);
        LexesPunct(s[0]);
      }
  }

  lemma ArgumentText(style: Style, a: Argument)
    requires PlainType(a.t) && IsWord(a.identifier) && GoodTypeArgs(style, a.t.args)
    ensures Lexes(ShowArgument(style, a), ArgumentTokens(style, a))
  {
    TypeText(style, a.t);
    LexesSpace();
    LexesWord(a.identifier);
    LexesBoth(" ", [], a.identifier, [Lexeme(Classify(a.identifier))]);
    assert [] + [Lexeme(Classify(a.identifier))] == [Lexeme(Classify(a.identifier))];
    LexesBoth(ShowType(style, a.t), TypeTokens(style, a.t), " " + a.identifier, [Lexeme(Classify(a.identifier))]);
  }

  lemma {:induction false} ArgumentsText(style: Style, args: seq<Argument>)
    requires forall a :: a in args ==> PlainType(a.t) && IsWord(a.identifier) && GoodTypeArgs(style, a.t.args)
    ensures Lexes(ShowArguments(style, args), ArgumentsTokens(style, args))
  {
    if args == [] {
      LexesNothing();
    } else {
      ArgumentText(style, args[0]);
      if |args| > 1 {
        var tail, tokens := ShowArguments(style, args[1..]), ArgumentsTokens(style, args[1..]);
        ArgumentsText(style, args[1..]);
        LexesSeparator();
        LexesBoth(", ", [Separator], tail, tokens);
        LexesBoth(ShowArgument(style, args[0]), ArgumentTokens(style, args[0]), ", " + tail, [Separator] + tokens);
      }
    }
  }

  /** The tokenizer finds exactly the tokens of the tree in its printed text. */
  lemma DefText(style: Style, d: SyscallDef)
    requires PlainDef(d) && GoodDef(style, d)
    ensures Tokens(ShowDef(style, d)) == Spelled(DefTokens(style, d))
  {
    var list, tokens := ShowArguments(style, d.args), ArgumentsTokens(style, d.args);
    ArgumentsText(style, d.args);
    Closed(')');
    LexesBoth(list, tokens, ")", [Lexeme(Token(Punct(')'), ")"))]);
    LexesPunct('(');
    LexesBoth("(", [Lexeme(Token(Punct('('), "("))], list + ")", tokens + [Lexeme(Token(Punct(')'), ")"))]);
    LexesWord(d.name);
    LexesBoth(d.name, [Lexeme(Classify(d.name))], "(" + (list + ")"), DefTokens(style, d)[1..]);
    assert LexesBefore(ShowDef(style, d), DefTokens(style, d), "");
    assert ShowDef(style, d) + "" == ShowDef(style, d);
  }

  // ----- From tokens to the tree, whatever commas are missing

  /** `some` are the tokens of `all` without some of the separating commas. */
  ghost predicate DropsCommas(all: seq<Piece>, some: seq<Token>) {
    if all == [] then some == []
    else if all[0].Lexeme? then some != [] && some[0] == all[0].token && DropsCommas(all[1..], some[1..])
    else DropsCommas(all[1..], some) || (some != [] && some[0] == COMMA && DropsCommas(all[1..], some[1..]))
  }

  lemma {:induction false} KeepingAllCommas(all: seq<Piece>)
    ensures DropsCommas(all, Spelled(all))
  {
    if all != [] {
      KeepingAllCommas(all[1..]);
      assert Spelled(all)[1..] == Spelled(all[1..]);
    }
  }

  lemma {:induction false} SplitDropped(a: seq<Piece>, b: seq<Piece>,
      some: seq<Token>)
    returns (x: seq<Token>, y: seq<Token>)
    requires DropsCommas(a + b, some)
    ensures some == x + y && DropsCommas(a, x) && DropsCommas(b, y)
  {
    if a == [] {
      assert a + b == b;
      x, y := [], some;
    } else {
      assert (a + b)[1..] == a[1..] + b;
      if a[0].Separator? && DropsCommas(a[1..] + b, some) {
        x, y := SplitDropped(a[1..], b, some);
      } else {
        x, y := SplitDropped(a[1..], b, some[1..]);
        x := [some[0]] + x;
      }
    }
  }

  lemma DroppedSingle(token: Token, some: seq<Token>)
    requires DropsCommas([Lexeme(token)], some)
    ensures some == [token]
  {
    assert [Lexeme(token)][1..] == [];
  }

  lemma DroppedSeparator(some: seq<Token>)
    requires DropsCommas([Separator], some)
    ensures some == [] || some == [COMMA]
  {
    assert [Separator][1..] == [];
  }

  /** One token and then the rest. */
  lemma DroppedFirst(token: Token, b: seq<Piece>, some: seq<Token>)
    requires DropsCommas([Lexeme(token)] + b, some)
    ensures some != [] && some[0] == token && DropsCommas(b, some[1..])
  {
    assert ([Lexeme(token)] + b)[1..] == b;
  }

  /** One token at the end. */
  lemma DroppedLast(a: seq<Piece>, token: Token, some: seq<Token>) returns (x: seq<Token>)
    requires DropsCommas(a + [Lexeme(token)], some)
    ensures some == x + [token] && DropsCommas(a, x)
  {
    var y;
    x, y := SplitDropped(a, [Lexeme(token)], some);
    DroppedSingle(token, y);
  }

  /** An element, perhaps a comma, and the remaining elements. */
  lemma DroppedList(a: seq<Piece>, b: seq<Piece>, some: seq<Token>)
    returns (first: seq<Token>, comma: seq<Token>, more: seq<Token>)
    requires DropsCommas(a + ([Separator] + b), some)
    ensures some == first + (comma + more) && (comma == [] || comma == [COMMA])
    ensures DropsCommas(a, first) && DropsCommas(b, more)
  {
    var x;
    first, x := SplitDropped(a, [Separator] + b, some);
    comma, more := SplitDropped([Separator], b, x);
    DroppedSeparator(comma);
  }

  lemma {:induction false} ParsesType(style: Style, t: Type, some: seq<Token>, rest: seq<Token>)
    requires PlainType(t) && GoodTypeArgs(style, t.args)
    requires DropsCommas(TypeTokens(style, t), some) && !StartsWith(rest, '[')
    ensures TypeOf(some + rest) == Ok((t, rest))
    ensures some != [] && some[0] == Classify(t.name)
    decreases t, 0
  {
    WordTokens(t.name);
    if t.args == [] {
      DroppedSingle(Classify(t.name), some);
      assert (some + rest)[1..] == rest;
    } else {
      var open, close := Token(Punct('['), "["), Token(Punct(']'), "]");
      var inner := TypeArgsTokens(style, t.args) + [Lexeme(close)];
      DroppedFirst(Classify(t.name), [Lexeme(open)] + inner, some);
      DroppedFirst(open, inner, some[1..]);
      var list := DroppedLast(TypeArgsTokens(style, t.args), close, some[1..][1..]);
      assert (some + rest)[1..] == [open] + (list + ([close] + rest));
      assert (some + rest)[1..][1..] == list + ([close] + rest);
      ParsesBracket(style, t.args, list, [close] + rest, rest);
    }
  }

  /** What ends a list: the closing token and whatever follows, or the end of the
      tokens. */
  ghost predicate Ends(c: char, end: seq<Token>, rest: seq<Token>) {
    end == [Token(Punct(c), [c])] + rest || (end == [] && rest == [])
  }

  lemma {:induction false} ParsesBracket(style: Style, args: seq<TypeArg>,
      some: seq<Token>, close: seq<Token>, rest: seq<Token>)
    requires PlainTypeArgs(args) && GoodTypeArgs(style, args)
    requires DropsCommas(TypeArgsTokens(style, args), some) && Ends(']', close, rest)
    ensures BracketOf(some + close) == Ok((args, rest))
    ensures if args == [] then some == [] else some != [] && some[0].kind == Identifier
    decreases args, 0
  {
    hide *;
    if args == [] {
      NoTypeArgs(style, args, some, close, rest);
    } else {
      FirstTypeArg(style, args);
      var first, comma, more := DroppedArgs(style, args, some);
      var tail := args[1..];
      ParsesBracket(style, tail, more, close, rest);
      EndKind(']', close, rest);
      assert more + close != [] ==> (more + close)[0] == if tail == [] then close[0] else more[0];
      BracketStep(style, args[0], tail, first, comma, more + close, rest);
      Regroup(first, comma, more, close);
      assert some[0] == first[0] && [args[0]] + tail == args;
    }
  }

  lemma EndKind(c: char, end: seq<Token>, rest: seq<Token>)
    requires Ends(c, end, rest)
    ensures end != [] ==> end[0].kind == Punct(c)
  {
  }

  lemma NoTypeArgs(style: Style, args: seq<TypeArg>, some: seq<Token>, close: seq<Token>, rest: seq<Token>)
    requires args == [] && DropsCommas(TypeArgsTokens(style, args), some) && Ends(']', close, rest)
    ensures some == [] && BracketOf(some + close) == Ok((args, rest))
  {
    assert some + close == close && (close != [] ==> close[1..] == rest);
  }

  lemma FirstTypeArg(style: Style, args: seq<TypeArg>)
    requires args != [] && PlainTypeArgs(args) && GoodTypeArgs(style, args)
    ensures PlainTypeArgs([args[0]]) && GoodTypeArgs(style, [args[0]])
    ensures PlainTypeArgs(args[1..]) && GoodTypeArgs(style, args[1..])
  {
    hide IsWord, IsFieldClass;
    assert args[0] in args && forall a :: a in args[1..] ==> a in args;
  }

  lemma Regroup<T>(a: seq<T>, b: seq<T>, c: seq<T>, d: seq<T>)
    ensures (a + (b + c)) + d == a + (b + (c + d))
  {
  }

  /** The tokens of the first type argument, perhaps a comma, and the others. */
  lemma DroppedArgs(style: Style, args: seq<TypeArg>, some: seq<Token>)
    returns (first: seq<Token>, comma: seq<Token>, more: seq<Token>)
    requires args != [] && DropsCommas(TypeArgsTokens(style, args), some)
    ensures some == first + (comma + more) && (comma == [] || comma == [COMMA])
    ensures DropsCommas(TypeArgTokens(style, args[0]), first)
    ensures DropsCommas(TypeArgsTokens(style, args[1..]), more)
  {
    if |args| == 1 {
      first, comma, more := some, [], [];
      assert args[1..] == [];
    } else {
      first, comma, more := DroppedList(TypeArgTokens(style, args[0]), TypeArgsTokens(style, args[1..]), some);
    }
  }

  lemma {:induction false} BracketStep(style: Style, a: TypeArg, args: seq<TypeArg>,
      first: seq<Token>, comma: seq<Token>, next: seq<Token>, rest: seq<Token>)
    requires PlainTypeArgs([a]) && GoodTypeArgs(style, [a])
    requires DropsCommas(TypeArgTokens(style, a), first) && (comma == [] || comma == [COMMA])
    requires BracketOf(next) == Ok((args, rest))
    requires next == [] || next[0].kind in {Identifier, Punct(']')}
    ensures BracketOf(first + (comma + next)) == Ok(([a] + args, rest))
    ensures first != [] && first[0].kind == Identifier
    decreases a, 1
  {
    hide DropsCommas, TypeArgTokens, TypeArgOf, BracketOf;
    assert a in [a];
    ParsesTypeArg(style, a, first, comma + next);
    assert DropComma(comma + next) == next;
    BracketUnfolds(first + (comma + next), a, comma + next, args, rest);
  }

  lemma BracketUnfolds(tokens: seq<Token>, a: TypeArg, after: seq<Token>, args: seq<TypeArg>, rest: seq<Token>)
    requires tokens != [] && tokens[0].kind == Identifier && TypeArgOf(tokens) == Ok((a, after))
    requires BracketOf(DropComma(after)) == Ok((args, rest))
    ensures BracketOf(tokens) == Ok(([a] + args, rest))
  {
    hide TypeArgOf;
  }

  lemma {:induction false} ParsesTypeArg(style: Style, a: TypeArg, some: seq<Token>, rest: seq<Token>)
    requires IsWord(a.attr) && !IsFieldClass(a.attr) && PlainValue(a.value) && GoodValue(style, a.value)
    requires DropsCommas(TypeArgTokens(style, a), some) && !StartsWith(rest, '[')
    ensures TypeArgOf(some + rest) == Ok((a, rest))
    ensures some != [] && some[0].kind == Identifier
    decreases a, 0
  {
    hide DropsCommas, ValueTokens, ValueOf, PlainValue, GoodValue, IsFieldClass;
    var eq := Token(Punct('='), "=");
    WordTokens(a.attr);
    DroppedFirst(Classify(a.attr), [Lexeme(eq)] + ValueTokens(style, a.value), some);
    DroppedFirst(eq, ValueTokens(style, a.value), some[1..]);
    assert (some + rest)[2..] == some[1..][1..] + rest;
    assert (some + rest)[1] == some[1..][0];
    ParsesValue(style, a.value, some[1..][1..], rest);
  }

  lemma {:induction false} ParsesValue(style: Style, v: Value, some: seq<Token>, rest: seq<Token>)
    requires PlainValue(v) && GoodValue(style, v)
    requires DropsCommas(ValueTokens(style, v), some) && !StartsWith(rest, '[')
    ensures ValueOf(some + rest) == Ok((v, rest))
    decreases v, 0
  {
    hide IsFieldClass, DropsCommas, TypeOf, PyInt, Classify;
    match v
    case TypeValue(t) =>
      ParsesType(style, t, some, rest);
      WordTokens(t.name);
      assert (some + rest)[0] == some[0];
    case IntValue(n) => ParsesInteger(style, n, some, rest);
    case StrValue(s) => ParsesString(style, s, some, rest);
  }

  lemma ParsesInteger(style: Style, n: int, some: seq<Token>, rest: seq<Token>)
    requires GoodValue(style, IntValue(n)) && DropsCommas(ValueTokens(style, IntValue(n)), some)
    ensures ValueOf(some + rest) == Ok((IntValue(n), rest))
  {
    hide IsFieldClass, DropsCommas, PyInt, Classify, ValueOf;
    SignedIntegerReads(n);
    if n < 0 {
      ParsesQuote(ShowInt(n), some, rest);
    } else {
      PrintedIntegerReads(n);
      DigitsAreNoFieldClass(n);
      ParsesAtom(ShowInt(n), some, rest);
    }
  }

  lemma ParsesString(style: Style, s: string, some: seq<Token>, rest: seq<Token>)
    requires GoodValue(style, StrValue(s)) && DropsCommas(ValueTokens(style, StrValue(s)), some)
    ensures ValueOf(some + rest) == Ok((StrValue(s), rest))
  {
    hide IsFieldClass, DropsCommas, PyInt, Classify, ValueOf;
    if style.Quoted? {
      ParsesQuote(s, some, rest);
    } else {
      ParsesAtom(s, some, rest);
    }
  }

  lemma ParsesQuote(s: string, some: seq<Token>, rest: seq<Token>)
    requires DropsCommas([Lexeme(Token(StringLiteral, s))], some)
    ensures ValueOf(some + rest) == Ok((Atom(s), rest))
  {
    DroppedSingle(Token(StringLiteral, s), some);
    assert (some + rest)[1..] == rest;
  }

  lemma ParsesAtom(w: string, some: seq<Token>, rest: seq<Token>)
    requires (IsWord(w) || IsLonePunct(w)) && !IsFieldClass(w) && DropsCommas([Lexeme(Classify(w))], some)
    ensures ValueOf(some + rest) == Ok((Atom(w), rest))
  {
    hide IsFieldClass;
    if IsWord(w) {
      WordTokens(w);
    } else {
      PunctTokens(w);
    }
    DroppedSingle(Classify(w), some);
    assert (some + rest)[1..] == rest;
  }

  lemma WordTokens(w: string)
    requires IsWord(w)
    ensures Classify(w) == Token(if IsFieldClass(w) then BasicType else Identifier, w)
  {
    assert IsWordChar(w[0]);
  }

  lemma PunctTokens(w: string)
    requires IsLonePunct(w)
    ensures w == [w[0]] && Classify(w) == Token(Punct(w[0]), w) && w[0] != '"'
  {
    hide IsFieldClass;
    assert w == [w[0]];
    PunctIsNoFieldClass(w[0]);
  }

  lemma DigitsAreNoFieldClass(n: nat)
    ensures !IsFieldClass(DecimalDigits(n))
  {
    hide IsFieldClass;
    DecimalDigitsAreDigits(n);
    if IsFieldClass(DecimalDigits(n)) {
      FieldClassesAreCapitalized(DecimalDigits(n));
    }
  }

  lemma ParsesArgument(style: Style, a: Argument, first: seq<Token>, rest: seq<Token>)
    requires PlainType(a.t) && IsWord(a.identifier) && GoodTypeArgs(style, a.t.args)
    requires DropsCommas(ArgumentTokens(style, a), first)
    ensures first != [] && first[0].kind in {BasicType, Identifier}
    ensures TypeOf(first + rest) == Ok((a.t, [Classify(a.identifier)] + rest))
    ensures Classify(a.identifier).value == a.identifier
  {
    hide IsFieldClass;
    WordTokens(a.t.name);
    WordTokens(a.identifier);
    var t := DroppedLast(TypeTokens(style, a.t), Classify(a.identifier), first);
    assert first + rest == t + ([Classify(a.identifier)] + rest);
    ParsesType(style, a.t, t, [Classify(a.identifier)] + rest);
  }

  lemma ArgumentsStep(style: Style, a: Argument, args: seq<Argument>,
      first: seq<Token>, comma: seq<Token>, next: seq<Token>)
    requires PlainType(a.t) && IsWord(a.identifier) && GoodTypeArgs(style, a.t.args)
    requires DropsCommas(ArgumentTokens(style, a), first) && (comma == [] || comma == [COMMA])
    requires ArgumentsOf(next) == Ok((args, [])) && (next == [] || next[0].kind != Punct(','))
    ensures ArgumentsOf(first + (comma + next)) == Ok(([a] + args, []))
    ensures first != [] && first[0].kind in {BasicType, Identifier}
  {
    hide DropsCommas, ArgumentTokens, TypeOf;
    ParsesArgument(style, a, first, comma + next);
    assert ([Classify(a.identifier)] + (comma + next))[1..] == comma + next;
    assert DropComma(comma + next) == next;
  }

  ghost predicate GoodArguments(style: Style, args: seq<Argument>) {
    forall a :: a in args ==> PlainType(a.t) && IsWord(a.identifier) && GoodTypeArgs(style, a.t.args)
  }

  lemma FirstIsGood(style: Style, args: seq<Argument>)
    requires args != [] && GoodArguments(style, args)
    ensures PlainType(args[0].t) && IsWord(args[0].identifier) && GoodTypeArgs(style, args[0].t.args)
    ensures GoodArguments(style, args[1..])
  {
    hide PlainType, GoodTypeArgs, IsWord;
    assert args[0] in args && forall a :: a in args[1..] ==> a in args;
  }

  lemma {:induction false} ParsesArguments(style: Style, args: seq<Argument>, some: seq<Token>, close: seq<Token>)
    requires GoodArguments(style, args) && DropsCommas(ArgumentsTokens(style, args), some) && Ends(')', close, [])
    ensures ArgumentsOf(some + close) == Ok((args, []))
    ensures if args == [] then some == [] else some != [] && some[0].kind in {BasicType, Identifier}
  {
    hide *;
    if args == [] {
      NoArguments(style, args, some, close);
    } else {
      FirstIsGood(style, args);
      var first, comma, more := DroppedArguments(style, args, some);
      var tail := args[1..];
      ParsesArguments(style, tail, more, close);
      EndKind(')', close, []);
      assert more + close != [] ==> (more + close)[0] == if tail == [] then close[0] else more[0];
      ArgumentsStep(style, args[0], tail, first, comma, more + close);
      Regroup(first, comma, more, close);
      assert some[0] == first[0] && [args[0]] + tail == args;
    }
  }

  lemma NoArguments(style: Style, args: seq<Argument>, some: seq<Token>, close: seq<Token>)
    requires args == [] && DropsCommas(ArgumentsTokens(style, args), some) && Ends(')', close, [])
    ensures some == [] && ArgumentsOf(some + close) == Ok((args, []))
  {
    assert some + close == close;
  }

  /** The tokens of the first argument, perhaps a comma, and the others. */
  lemma DroppedArguments(style: Style, args: seq<Argument>, some: seq<Token>)
    returns (first: seq<Token>, comma: seq<Token>, more: seq<Token>)
    requires args != [] && DropsCommas(ArgumentsTokens(style, args), some)
    ensures some == first + (comma + more) && (comma == [] || comma == [COMMA])
    ensures DropsCommas(ArgumentTokens(style, args[0]), first)
    ensures DropsCommas(ArgumentsTokens(style, args[1..]), more)
  {
    if |args| == 1 {
      first, comma, more := some, [], [];
      assert args[1..] == [];
    } else {
      first, comma, more := DroppedList(ArgumentTokens(style, args[0]), ArgumentsTokens(style, args[1..]), some);
    }
  }

  /** Dropping any of the separating commas from the tokens of a definition, and
      the closing parenthesis, changes nothing. */
  lemma CommasAreOptional(style: Style, d: SyscallDef, some: seq<Token>)
    requires PlainDef(d) && GoodDef(style, d)
    requires DropsCommas(DefTokens(style, d), some)
    ensures DefOf(some) == Ok(d)
    ensures some != [] && DefOf(some[..|some| - 1]) == Ok(d)
  {
    var open, close := Token(Punct('('), "("), Token(Punct(')'), ")");
    var inner := ArgumentsTokens(style, d.args) + [Lexeme(close)];
    WordTokens(d.name);
    DroppedFirst(Classify(d.name), [Lexeme(open)] + inner, some);
    DroppedFirst(open, inner, some[1..]);
    assert some[2..] == some[1..][1..];
    hide DropsCommas, ArgumentsOf, ArgumentsTokens, Classify, DefOf;
    var list := DroppedLast(ArgumentsTokens(style, d.args), close, some[2..]);
    ParsesArguments(style, d.args, list, [close]);
    ParsesArguments(style, d.args, list, []);
    WithoutLast(some, list, close);
    DefOfArguments(some, d.args);
    DefOfArguments(some[..|some| - 1], d.args);
  }

  lemma WithoutLast(some: seq<Token>, list: seq<Token>, close: Token)
    requires |some| > 2 && some[2..] == list + [close]
    ensures some[..|some| - 1][2..] == list + [] && |some[..|some| - 1]| >= 2 && some[..|some| - 1][0] == some[0]
  {
  }

  lemma DefOfArguments(tokens: seq<Token>, args: seq<Argument>)
    requires |tokens| >= 2 && ArgumentsOf(tokens[2..]) == Ok((args, []))
    ensures DefOf(tokens) == Ok(SyscallDef(tokens[0].value, args))
  {
  }

  /** Where the tokens end in a type's arguments, the closing bracket may be
      missing. */
  lemma LastBracketIsOptional(style: Style, t: Type, list: seq<Token>)
    requires PlainType(t) && GoodTypeArgs(style, t.args) && DropsCommas(TypeArgsTokens(style, t.args), list)
    ensures TypeOf([Classify(t.name), Token(Punct('['), "[")] + list) == Ok((t, []))
    ensures TypeOf([Classify(t.name), Token(Punct('['), "[")] + list + [Token(Punct(']'), "]")]) == Ok((t, []))
  {
    var close := [Token(Punct(']'), "]")];
    ParsesBracket(style, t.args, list, [], []);
    ParsesBracket(style, t.args, list, close + [], []);
    assert list + [] == list && close + [] == close;
    OpenedType(t, list);
    OpenedType(t, list + close);
    assert [Classify(t.name), Token(Punct('['), "[")] + (list + close)
      == [Classify(t.name), Token(Punct('['), "[")] + list + close;
  }

  lemma OpenedType(t: Type, inner: seq<Token>)
    requires IsWord(t.name) && BracketOf(inner) == Ok((t.args, []))
    ensures TypeOf([Classify(t.name), Token(Punct('['), "[")] + inner) == Ok((t, []))
  {
    WordTokens(t.name);
    var tokens := [Classify(t.name), Token(Punct('['), "[")] + inner;
    assert tokens[1..][1..] == inner && tokens[1..][0] == Token(Punct('['), "[");
  }

  lemma SurvivingDef(style: Style, d: SyscallDef)
    requires PlainDef(d) && GoodDef(style, d)
    ensures ParseText(ShowDef(style, d)) == Ok(d)
  {
    DefText(style, d);
    KeepingAllCommas(DefTokens(style, d));
    CommasAreOptional(style, d, Spelled(DefTokens(style, d)));
  }

  // ----- Whatever is parsed from a text without quotes is good

  /** A token the tokenizer makes of a word or of a punctuation character. */
  ghost predicate PlainToken(token: Token) {
    token == Classify(token.value) &&
    (IsWord(token.value) || IsLonePunct(token.value))
  }

  ghost predicate AllPlain(tokens: seq<Token>) {
    forall i :: 0 <= i < |tokens| ==> PlainToken(tokens[i])
  }

  lemma {:induction false} UnquotedLexemes(s: string)
    requires '"' !in s
    ensures forall x :: x in FindAll(s) ==> IsWord(x) || IsLonePunct(x)
  {
    if s != "" {
      if IsWordChar(s[0]) {
        UnquotedLexemes(s[WordLength(s)..]);
      } else {
        UnquotedLexemes(s[1..]);
      }
    }
  }

  lemma UnquotedTokens(s: string)
    requires '"' !in s
    ensures AllPlain(Tokens(s))
  {
    hide IsFieldClass;
    UnquotedLexemes(s);
    forall i | 0 <= i < |Tokens(s)|
      ensures PlainToken(Tokens(s)[i])
    {
      var x := FindAll(s)[i];
      assert x in FindAll(s);
      if IsWord(x) {
        WordTokens(x);
      } else {
        PunctIsNoFieldClass(x[0]);
        assert x == [x[0]];
      }
    }
  }

  lemma PlainAtomIsGood(token: Token)
    requires PlainToken(token) && token.kind != BasicType
    ensures GoodValue(Bare, Atom(token.value))
  {
    hide IsFieldClass, PyInt;
    if IsWord(token.value) {
      WordTokens(token.value);
      WordsReadNonNegative(token.value);
    } else {
      PunctTokens(token.value);
      PunctIsNoFieldClass(token.value[0]);
      PunctReadsAsText(token.value);
    }
  }

  lemma PunctReadsAsText(s: string)
    requires IsLonePunct(s)
    ensures PyInt(s) == None
  {
    assert s == [s[0]];
  }

  lemma PlainKinds(token: Token)
    requires PlainToken(token)
    ensures token.kind == BasicType <==> IsFieldClass(token.value)
    ensures token.kind != Punct('"')
  {
  }

  lemma {:induction false} ParsedTypeIsGood(tokens: seq<Token>)
    requires AllPlain(tokens) && TypeOf(tokens).Ok?
    ensures GoodTypeArgs(Bare, TypeOf(tokens).value.0.args)
    decreases |tokens|, 1
  {
    if StartsWith(tokens[1..], '[') {
      ParsedBracketIsGood(tokens[1..][1..]);
    }
  }

  lemma {:induction false} ParsedBracketIsGood(tokens: seq<Token>)
    requires AllPlain(tokens) && BracketOf(tokens).Ok?
    ensures GoodTypeArgs(Bare, BracketOf(tokens).value.0)
    decreases |tokens|, 3
  {
    if tokens != [] && !StartsWith(tokens, ']') {
      var (arg, rest) := TypeArgOf(tokens).value;
      ParsedTypeArgIsGood(tokens);
      ParsedBracketIsGood(DropComma(rest));
    }
  }

  lemma {:induction false} ParsedTypeArgIsGood(tokens: seq<Token>)
    requires AllPlain(tokens) && TypeArgOf(tokens).Ok?
    ensures var a := TypeArgOf(tokens).value.0; !IsFieldClass(a.attr) && GoodValue(Bare, a.value)
    decreases |tokens|, 0
  {
    hide IsFieldClass;
    PlainKinds(tokens[0]);
    ParsedValueIsGood(tokens[2..]);
  }

  lemma {:induction false} ParsedValueIsGood(tokens: seq<Token>)
    requires AllPlain(tokens) && ValueOf(tokens).Ok?
    ensures GoodValue(Bare, ValueOf(tokens).value.0)
    decreases |tokens|, 2
  {
    hide IsFieldClass;
    PlainKinds(tokens[0]);
    if tokens[0].kind == BasicType {
      ParsedTypeIsGood(tokens);
    } else {
      PlainAtomIsGood(tokens[0]);
    }
  }

  lemma EmptyArguments(tokens: seq<Token>)
    requires tokens == [] || StartsWith(tokens, ')')
    ensures ArgumentsOf(tokens).Ok? && ArgumentsOf(tokens).value.0 == []
  {
  }

  lemma FirstArgument(tokens: seq<Token>) returns (t: Type, name: string, after: seq<Token>)
    requires tokens != [] && !StartsWith(tokens, ')') && ArgumentsOf(tokens).Ok?
    ensures TypeOf(tokens).Ok? && t == TypeOf(tokens).value.0
    ensures |after| < |tokens| && Consumes(tokens, 0, after) && ArgumentsOf(after).Ok?
    ensures ArgumentsOf(tokens).value.0 == [Argument(t, name)] + ArgumentsOf(after).value.0
  {
    hide TypeOf;
    var rest := TypeOf(tokens).value.1;
    ConsumesMore(tokens, 0, rest, rest[1..]);
    ConsumesMore(tokens, 0, rest[1..], DropComma(rest[1..]));
    t, name, after := TypeOf(tokens).value.0, rest[0].value, DropComma(rest[1..]);
  }

  lemma {:induction false} ParsedArgumentsAreGood(tokens: seq<Token>)
    requires AllPlain(tokens) && ArgumentsOf(tokens).Ok?
    ensures forall a :: a in ArgumentsOf(tokens).value.0 ==> GoodTypeArgs(Bare, a.t.args)
    decreases |tokens|
  {
    hide ArgumentsOf, TypeOf, AllPlain, GoodTypeArgs;
    if tokens == [] || StartsWith(tokens, ')') {
      EmptyArguments(tokens);
    } else {
      var t, name, after := FirstArgument(tokens);
      ParsedTypeIsGood(tokens);
      PlainSuffix(tokens, after);
      ParsedArgumentsAreGood(after);
    }
  }

  lemma PlainSuffix(tokens: seq<Token>, rest: seq<Token>)
    requires AllPlain(tokens) && Consumes(tokens, 0, rest)
    ensures AllPlain(rest)
  {
    hide PlainToken;
  }

  lemma ParsedIsGood(text: string)
    requires '"' !in text && ParseText(text).Ok?
    ensures GoodDef(Bare, ParseText(text).value)
  {
    UnquotedTokens(text);
    ParsedArgumentsAreGood(Tokens(text)[2..]);
  }

  // ----- No value of a token holds a quote, and so no value of a parsed tree

  ghost predicate QuoteFree(tokens: seq<Token>) {
    forall i :: 0 <= i < |tokens| ==> '"' !in tokens[i].value && tokens[i].kind != Punct('"')
  }

  ghost predicate QuoteFreeArgs(args: seq<TypeArg>)
    decreases args, 1
  {
    forall a :: a in args ==> QuoteFreeValue(a.value)
  }

  ghost predicate QuoteFreeValue(v: Value)
    decreases v, 0
  {
    match v
    case TypeValue(t) => QuoteFreeArgs(t.args)
    case IntValue(_) => true
    case StrValue(s) => '"' !in s
  }

  /** Whatever is quoted in the text, a token holds the words of it without the
      quotes. */
  lemma {:induction false} LexemesAreQuoteFree(s: string)
    ensures QuoteFree(Tokens(s))
  {
    hide IsFieldClass;
    if s != "" {
      if IsWordChar(s[0]) {
        var n := WordLength(s);
        LexemesAreQuoteFree(s[n..]);
        WordTokens(s[..n]);
        FirstToken(s, s[..n], s[n..]);
      } else if IsPunct(s[0]) {
        LexemesAreQuoteFree(s[1..]);
        PunctTokens([s[0]]);
        FirstToken(s, [s[0]], s[1..]);
      } else if s[0] == '"' && '"' in s[1..] {
        var n := IndexOf(s[1..], '"') + 2;
        LexemesAreQuoteFree(s[n..]);
        QuotedToken(s, n);
        FirstToken(s, s[..n], s[n..]);
      } else {
        LexemesAreQuoteFree(s[1..]);
      }
    }
  }

  lemma FirstToken(s: string, lexeme: string, rest: string)
    requires FindAll(s) == [lexeme] + FindAll(rest)
    ensures Tokens(s) == [Classify(lexeme)] + Tokens(rest)
  {
    hide Classify;
    assert FindAll(s)[1..] == FindAll(rest);
  }

  lemma QuotedToken(s: string, n: nat)
    requires |s| > 1 && s[0] == '"' && '"' in s[1..] && n == IndexOf(s[1..], '"') + 2
    ensures Classify(s[..n]) == Token(StringLiteral, s[1..n - 1]) && '"' !in s[1..n - 1]
  {
    hide IsFieldClass;
    var lexeme := s[..n];
    assert lexeme[0] == '"' && lexeme[n - 1] == '"' && lexeme[1..n - 1] == s[1..n - 1];
    assert s[1..][..n - 2] == s[1..n - 1];
    if IsFieldClass(lexeme) {
      FieldClassesAreCapitalized(lexeme);
    }
  }

  lemma {:induction false} ParsedTypeIsQuoteFree(tokens: seq<Token>)
    requires QuoteFree(tokens) && TypeOf(tokens).Ok?
    ensures QuoteFreeArgs(TypeOf(tokens).value.0.args)
    decreases |tokens|, 1
  {
    if StartsWith(tokens[1..], '[') {
      ParsedBracketIsQuoteFree(tokens[1..][1..]);
    }
  }

  lemma {:induction false} ParsedBracketIsQuoteFree(tokens: seq<Token>)
    requires QuoteFree(tokens) && BracketOf(tokens).Ok?
    ensures QuoteFreeArgs(BracketOf(tokens).value.0)
    decreases |tokens|, 3
  {
    if tokens != [] && !StartsWith(tokens, ']') {
      var (arg, rest) := TypeArgOf(tokens).value;
      ParsedValueIsQuoteFree(tokens[2..]);
      ParsedBracketIsQuoteFree(DropComma(rest));
    }
  }

  lemma {:induction false} ParsedValueIsQuoteFree(tokens: seq<Token>)
    requires QuoteFree(tokens) && ValueOf(tokens).Ok?
    ensures QuoteFreeValue(ValueOf(tokens).value.0)
    decreases |tokens|, 2
  {
    if tokens[0].kind == BasicType {
      ParsedTypeIsQuoteFree(tokens);
    }
  }

  lemma {:induction false} ParsedArgumentsAreQuoteFree(tokens: seq<Token>)
    requires QuoteFree(tokens) && ArgumentsOf(tokens).Ok?
    ensures forall a :: a in ArgumentsOf(tokens).value.0 ==> QuoteFreeArgs(a.t.args)
    decreases |tokens|
  {
    hide ArgumentsOf, TypeOf, QuoteFree, QuoteFreeArgs;
    if tokens == [] || StartsWith(tokens, ')') {
      EmptyArguments(tokens);
    } else {
      var t, name, after := FirstArgument(tokens);
      ParsedTypeIsQuoteFree(tokens);
      QuoteFreeSuffix(tokens, after);
      ParsedArgumentsAreQuoteFree(after);
    }
  }

  lemma QuoteFreeSuffix(tokens: seq<Token>, rest: seq<Token>)
    requires QuoteFree(tokens) && Consumes(tokens, 0, rest)
    ensures QuoteFree(rest)
  {
  }

  // ----- The printed text of a definition without quotes has none

  lemma {:induction false} TypeIsUnquoted(t: Type)
    requires PlainType(t) && QuoteFreeArgs(t.args)
    ensures '"' !in ShowType(Bare, t)
    decreases t, 0
  {
    TypeArgsAreUnquoted(t.args);
  }

  lemma {:induction false} TypeArgsAreUnquoted(args: seq<TypeArg>)
    requires PlainTypeArgs(args) && QuoteFreeArgs(args)
    ensures '"' !in ShowTypeArgs(Bare, args)
    decreases args, 0
  {
    if args != [] {
      ValueIsUnquoted(args[0].value);
      TypeArgsAreUnquoted(args[1..]);
    }
  }

  lemma {:induction false} ValueIsUnquoted(v: Value)
    requires PlainValue(v) && QuoteFreeValue(v)
    ensures '"' !in ShowValue(Bare, v)
    decreases v, 0
  {
    match v
    case TypeValue(t) => TypeIsUnquoted(t);
    case IntValue(n) => DecimalDigitsAreDigits(if n < 0 then -n else n);
    case StrValue(_) =>
  }

  lemma {:induction false} ArgumentsAreUnquoted(args: seq<Argument>)
    requires forall a :: a in args ==> PlainType(a.t) && IsWord(a.identifier) && QuoteFreeArgs(a.t.args)
    ensures '"' !in ShowArguments(Bare, args)
  {
    if args != [] {
      TypeIsUnquoted(args[0].t);
      ArgumentsAreUnquoted(args[1..]);
    }
  }

  /** Printing and parsing again gives back a definition, whatever its values,
      exactly when its attributes, nested types, integers and strings are good. */
  lemma RoundTrip(d: SyscallDef)
    requires PlainDef(d)
    ensures ParseText(ShowDef(Bare, d)) == Ok(d) <==> GoodDef(Bare, d)
  {
    if GoodDef(Bare, d) {
      SurvivingDef(Bare, d);
    } else if ParseText(ShowDef(Bare, d)) == Ok(d) {
      LexemesAreQuoteFree(ShowDef(Bare, d));
      ParsedArgumentsAreQuoteFree(Tokens(ShowDef(Bare, d))[2..]);
      ArgumentsAreUnquoted(d.args);
      ParsedIsGood(ShowDef(Bare, d));
    }
  }

  // ----- Values in quotes

  /** A text in quotes is read as that text, spaces and punctuation included, or
      as the integer it denotes. */
  lemma QuotedValueReads(s: string)
    requires '"' !in s
    ensures ValueOf(Tokens(Quote(s))) ==
      Ok((match PyInt(s) { case Some(n) => IntValue(n) case None => StrValue(s) }, []))
  {
    LexesQuote(s);
    SpelledOne(Lexeme(Token(StringLiteral, s)));
    assert LexesBefore(Quote(s), [Lexeme(Token(StringLiteral, s))], "");
    assert Quote(s) + "" == Quote(s);
    assert Tokens("") == [];
    assert Tokens(Quote(s)) == [Token(StringLiteral, s)];
  }

  function Joined(tokens: seq<Token>): string {
    if tokens == [] then "" else Joined(tokens[..|tokens| - 1]) + tokens[|tokens| - 1].value
  }

  /** After a quote token, which the tokenizer itself never yields, the values of
      the tokens up to the next one are joined. */
  lemma {:induction false} QuotedOfJoins(tokens: seq<Token>, rest: seq<Token>, quote: Token)
    requires (forall i :: 0 <= i < |tokens| ==> tokens[i].kind != Punct('"')) && quote.kind == Punct('"')
    ensures QuotedOf(tokens + ([quote] + rest)) == Ok((Joined(tokens), rest))
    ensures QuotedOf(tokens) == Err(ValueError)
  {
    if tokens == [] {
      assert [] + ([quote] + rest) == [quote] + rest;
    } else {
      var all := tokens + ([quote] + rest);
      assert all[1..] == tokens[1..] + ([quote] + rest);
      QuotedOfJoins(tokens[1..], rest, quote);
      JoinedFirst(tokens);
    }
  }

  lemma {:induction false} JoinedFirst(tokens: seq<Token>)
    requires tokens != []
    ensures Joined(tokens) == tokens[0].value + Joined(tokens[1..])
  {
    var n := |tokens| - 1;
    if n > 0 {
      JoinedFirst(tokens[..n]);
      assert tokens[..n][1..] == tokens[1..][..n - 1] && tokens[1..][n - 1] == tokens[n];
      assert tokens[0].value + Joined(tokens[1..][..n - 1]) + tokens[n].value
          == tokens[0].value + (Joined(tokens[1..][..n - 1]) + tokens[n].value);
    } else {
      assert tokens[..0] == [] && tokens[1..] == [];
    }
  }

  /** How the tokenizer tells field classes from other words, and what it leaves
      in a token. */
  ghost predicate Sorted(token: Token) {
    && (token.kind == BasicType ==> IsFieldClass(token.value))
    && (token.kind == Identifier ==> !IsFieldClass(token.value))
  }

  ghost predicate AllSorted(tokens: seq<Token>) {
    QuoteFree(tokens) && forall i :: 0 <= i < |tokens| ==> Sorted(tokens[i])
  }

  lemma TokensAreSorted(s: string)
    ensures AllSorted(Tokens(s))
  {
    LexemesAreQuoteFree(s);
  }

  lemma SortedSuffix(tokens: seq<Token>, rest: seq<Token>)
    requires AllSorted(tokens) && Consumes(tokens, 0, rest)
    ensures AllSorted(rest)
  {
    hide Sorted;
  }

  lemma {:induction false} ParsedTypeIsQuotable(tokens: seq<Token>)
    requires AllSorted(tokens) && TypeOf(tokens).Ok?
    ensures GoodTypeArgs(Quoted, TypeOf(tokens).value.0.args)
    decreases |tokens|, 1
  {
    hide IsFieldClass;
    if StartsWith(tokens[1..], '[') {
      ParsedBracketIsQuotable(tokens[1..][1..]);
    }
  }

  lemma {:induction false} ParsedBracketIsQuotable(tokens: seq<Token>)
    requires AllSorted(tokens) && BracketOf(tokens).Ok?
    ensures GoodTypeArgs(Quoted, BracketOf(tokens).value.0)
    decreases |tokens|, 3
  {
    hide IsFieldClass, GoodValue, Sorted;
    if tokens != [] && !StartsWith(tokens, ']') {
      var (arg, rest) := TypeArgOf(tokens).value;
      SortedSuffix(tokens, tokens[2..]);
      SortedSuffix(tokens, DropComma(rest));
      AttributeIsNoFieldClass(tokens);
      hide AllSorted;
      ParsedValueIsQuotable(tokens[2..]);
      ParsedBracketIsQuotable(DropComma(rest));
      hide TypeArgOf, ValueOf, DropComma;
    }
  }

  lemma AttributeIsNoFieldClass(tokens: seq<Token>)
    requires AllSorted(tokens) && TypeArgOf(tokens).Ok?
    ensures !IsFieldClass(TypeArgOf(tokens).value.0.attr)
  {
    hide IsFieldClass;
    assert Sorted(tokens[0]);
  }

  lemma {:induction false} ParsedValueIsQuotable(tokens: seq<Token>)
    requires AllSorted(tokens) && ValueOf(tokens).Ok?
    ensures GoodValue(Quoted, ValueOf(tokens).value.0)
    decreases |tokens|, 2
  {
    hide IsFieldClass;
    assert Sorted(tokens[0]);
    if tokens[0].kind == BasicType {
      ParsedTypeIsQuotable(tokens);
    }
  }

  lemma {:induction false} ParsedArgumentsAreQuotable(tokens: seq<Token>)
    requires AllSorted(tokens) && ArgumentsOf(tokens).Ok?
    ensures forall a :: a in ArgumentsOf(tokens).value.0 ==> GoodTypeArgs(Quoted, a.t.args)
    decreases |tokens|
  {
    hide ArgumentsOf, TypeOf, AllSorted, GoodTypeArgs;
    if tokens == [] || StartsWith(tokens, ')') {
      EmptyArguments(tokens);
    } else {
      var t, name, after := FirstArgument(tokens);
      ParsedTypeIsQuotable(tokens);
      SortedSuffix(tokens, after);
      ParsedArgumentsAreQuotable(after);
    }
  }

  /** Whatever is parsed, from any text, can be printed in quotes. */
  lemma ParsedIsQuotable(text: string)
    requires ParseText(text).Ok?
    ensures GoodDef(Quoted, ParseText(text).value)
  {
    hide IsFieldClass;
    TokensAreSorted(text);
    SortedSuffix(Tokens(text), Tokens(text)[2..]);
    ParsedArgumentsAreQuotable(Tokens(text)[2..]);
  }

  /** Printed with its string values, and its negative integers, in quotes, a
      definition is read back exactly when its attributes and nested types are
      good and its string values hold no quote and do not read as integers. */
  lemma QuotedRoundTrip(d: SyscallDef)
    requires PlainDef(d)
    ensures ParseText(ShowDef(Quoted, d)) == Ok(d) <==> GoodDef(Quoted, d)
  {
    if GoodDef(Quoted, d) {
      SurvivingDef(Quoted, d);
    } else if ParseText(ShowDef(Quoted, d)) == Ok(d) {
      ParsedIsQuotable(ShowDef(Quoted, d));
    }
  }
}
