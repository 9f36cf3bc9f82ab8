/** What the two exceptions of the parser mean: the tokens ended too early, or no
    further tokens could help. */
module SyscallErrors {
  import opened Wrappers
  import opened SyscallSyntax
  import opened SyscallParser
  import opened SyscallRoundTrip

  /** No token opens a quotation; the tokenizer makes none that does. */
  ghost predicate NoQuotes(tokens: seq<Token>) {
    forall i :: 0 <= i < |tokens| ==> tokens[i].kind != Punct('"')
  }

  lemma NoQuotesSuffix(tokens: seq<Token>, rest: seq<Token>)
    requires NoQuotes(tokens) && Consumes(tokens, 0, rest)
    ensures NoQuotes(rest)
  {
  }

  // ----- A result that does not use up the tokens is the same with more tokens

  /** The parse went through and left tokens over, or met a token it refuses. */
  ghost predicate Settled<T>(r: Parsed<T>) {
    match r
    case Ok((_, rest)) => rest != []
    case Err(e) => e == ValueError
  }

  /** The same result, with more tokens left over. */
  ghost function More<T>(r: Parsed<T>, more: seq<Token>): Parsed<T> {
    match r
    case Ok((x, rest)) => Ok((x, rest + more))
    case Err(e) => Err(e)
  }

  lemma Cut(tokens: seq<Token>, more: seq<Token>, n: nat)
    requires n <= |tokens|
    ensures (tokens + more)[n..] == tokens[n..] + more
  {
  }

  lemma DropCommaMore(rest: seq<Token>, more: seq<Token>)
    requires rest != []
    ensures DropComma(rest + more) == DropComma(rest) + more
  {
  }

  lemma TypeOfBracket(tokens: seq<Token>)
    requires tokens != [] && StartsWith(tokens[1..], '[')
    ensures var b := BracketOf(tokens[1..][1..]);
      TypeOf(tokens) == if b.Ok? then Ok((Type(tokens[0].value, b.value.0), b.value.1)) else Err(b.error)
  {
  }

  lemma {:induction false} TypeSettles(tokens: seq<Token>, more: seq<Token>)
    requires NoQuotes(tokens) && Settled(TypeOf(tokens))
    ensures TypeOf(tokens + more) == More(TypeOf(tokens), more)
    decreases |tokens|, 1
  {
    Cut(tokens, more, 1);
    NoQuotesSuffix(tokens, tokens[1..]);
    if StartsWith(tokens[1..], '[') {
      Cut(tokens[1..], more, 1);
      NoQuotesSuffix(tokens, tokens[1..][1..]);
      TypeOfBracket(tokens);
      TypeOfBracket(tokens + more);
      hide TypeOf, BracketOf;
      BracketSettles(tokens[1..][1..], more);
    } else if tokens[1..] != [] {
      assert (tokens[1..] + more)[0] == tokens[1..][0];
    }
  }

  lemma EmptyBracket()
    ensures BracketOf([]) == Ok(([], []))
  {
  }

  lemma BracketOfArg(tokens: seq<Token>)
    requires tokens != [] && !StartsWith(tokens, ']') && TypeArgOf(tokens).Ok?
    ensures var (arg, rest) := TypeArgOf(tokens).value; var b := BracketOf(DropComma(rest));
      BracketOf(tokens) == if b.Ok? then Ok(([arg] + b.value.0, b.value.1)) else Err(b.error)
  {
    hide TypeArgOf;
  }

  lemma {:induction false} BracketSettles(tokens: seq<Token>, more: seq<Token>)
    requires NoQuotes(tokens) && Settled(BracketOf(tokens))
    ensures BracketOf(tokens + more) == More(BracketOf(tokens), more)
    decreases |tokens|, 3
  {
    if StartsWith(tokens, ']') {
      Cut(tokens, more, 1);
    } else if TypeArgOf(tokens).Err? {
      TypeArgSettles(tokens, more);
    } else {
      var rest := TypeArgOf(tokens).value.1;
      BracketOfArg(tokens);
      EmptyBracket();
      assert rest != [];
      TypeArgSettles(tokens, more);
      DropCommaMore(rest, more);
      NoQuotesSuffix(tokens, DropComma(rest));
      StillOpen(tokens, more);
      BracketOfArg(tokens + more);
      hide TypeArgOf, BracketOf;
      BracketSettles(DropComma(rest), more);
    }
  }

  lemma {:induction false} TypeArgSettles(tokens: seq<Token>, more: seq<Token>)
    requires NoQuotes(tokens) && Settled(TypeArgOf(tokens))
    ensures TypeArgOf(tokens + more) == More(TypeArgOf(tokens), more)
    decreases |tokens|, 0
  {
    if tokens[0].kind == Identifier && tokens[1].kind == Punct('=') {
      Cut(tokens, more, 2);
      NoQuotesSuffix(tokens, tokens[2..]);
      ValueSettles(tokens[2..], more);
    }
  }

  lemma {:induction false} ValueSettles(tokens: seq<Token>, more: seq<Token>)
    requires NoQuotes(tokens) && Settled(ValueOf(tokens))
    ensures ValueOf(tokens + more) == More(ValueOf(tokens), more)
    decreases |tokens|, 2
  {
    if tokens[0].kind == BasicType {
      TypeSettles(tokens, more);
    } else {
      Cut(tokens, more, 1);
    }
  }

  lemma {:induction false} ArgumentsSettle(tokens: seq<Token>, more: seq<Token>)
    requires NoQuotes(tokens) && ArgumentsOf(tokens) == Err(ValueError)
    ensures ArgumentsOf(tokens + more) == Err(ValueError)
    decreases |tokens|
  {
    if TypeOf(tokens).Err? {
      TypeSettles(tokens, more);
    } else {
      var rest := TypeOf(tokens).value.1;
      TypeSettles(tokens, more);
      Cut(rest, more, 1);
      NoQuotesSuffix(tokens, DropComma(rest[1..]));
      assert rest[1..] != [];
      DropCommaMore(rest[1..], more);
      ArgumentsSettle(DropComma(rest[1..]), more);
    }
  }

  // ----- Tokens that ended too early can be completed

  const WORD := Token(Identifier, "x")
  const CLOSE := Token(Punct(']'), "]")
  const EQUALS := Token(Punct('='), "=")

  lemma Assoc(a: seq<Token>, b: seq<Token>, c: seq<Token>)
    ensures (a + b) + c == a + (b + c)
  {
  }

  /** A parse that ran out of tokens, or just used them up, can be brought to an
      end that does not depend on what follows. */
  lemma {:induction false} CompleteType(tokens: seq<Token>) returns (more: seq<Token>, t: Type)
    requires NoQuotes(tokens) && tokens != [] && !Settled(TypeOf(tokens))
    ensures forall z: seq<Token> :: !StartsWith(z, '[') ==> TypeOf(tokens + more + z) == Ok((t, z))
    decreases |tokens|, 1
  {
    if StartsWith(tokens[1..], '[') {
      var inner := tokens[1..][1..];
      NoQuotesSuffix(tokens, inner);
      var args;
      more, args := CompleteBracket(inner);
      t := Type(tokens[0].value, args);
      forall z: seq<Token> | !StartsWith(z, '[') ensures TypeOf(tokens + more + z) == Ok((t, z)) {
        BracketedType(tokens, more, args, z);
      }
    } else {
      more, t := [], Type(tokens[0].value, []);
      forall z: seq<Token> | !StartsWith(z, '[') ensures TypeOf(tokens + more + z) == Ok((t, z)) {
        assert (tokens + more + z)[1..] == z;
      }
    }
  }

  lemma BracketedType(tokens: seq<Token>, more: seq<Token>, args: seq<TypeArg>, z: seq<Token>)
    requires tokens != [] && StartsWith(tokens[1..], '[') && BracketOf(tokens[1..][1..] + more + z) == Ok((args, z))
    ensures TypeOf(tokens + more + z) == Ok((Type(tokens[0].value, args), z))
  {
    TwoOff(tokens, more, z);
    hide TypeOf, BracketOf;
    TypeOfBracket(tokens + more + z);
  }

  lemma TwoOff(tokens: seq<Token>, more: seq<Token>, z: seq<Token>)
    requires |tokens| >= 2
    ensures (tokens + more + z)[1..][1..] == tokens[1..][1..] + more + z
    ensures (tokens + more + z)[0] == tokens[0] && (tokens + more + z)[1..][0] == tokens[1..][0]
    ensures (tokens + more + z)[2..] == tokens[2..] + more + z && (tokens + more + z)[1] == tokens[1]
  {
  }

  lemma {:induction false} CompleteBracket(tokens: seq<Token>) returns (more: seq<Token>, args: seq<TypeArg>)
    requires NoQuotes(tokens) && !Settled(BracketOf(tokens))
    ensures forall z: seq<Token> :: BracketOf(tokens + more + z) == Ok((args, z))
    decreases |tokens|, 3
  {
    if tokens == [] || StartsWith(tokens, ']') {
      more, args := if tokens == [] then [CLOSE] else [], [];
      forall z: seq<Token> ensures BracketOf(tokens + more + z) == Ok((args, z)) {
        assert (tokens + more + z)[1..] == z;
      }
    } else if !Settled(TypeArgOf(tokens)) {
      var tail, arg := CompleteTypeArg(tokens);
      more, args := tail + [CLOSE], [arg];
      forall z: seq<Token> ensures BracketOf(tokens + more + z) == Ok((args, z)) {
        BracketOfOne(tokens, tail, z, arg);
      }
    } else {
      var (arg, rest) := TypeArgOf(tokens).value;
      NoQuotesSuffix(tokens, DropComma(rest));
      var tail;
      more, tail := CompleteBracket(DropComma(rest));
      args := [arg] + tail;
      forall z: seq<Token> ensures BracketOf(tokens + more + z) == Ok((args, z)) {
        BracketOfMore(tokens, more, z, arg, rest, tail);
      }
    }
  }

  lemma StillOpen(tokens: seq<Token>, more: seq<Token>)
    requires tokens != [] && !StartsWith(tokens, ']')
    ensures tokens + more != [] && !StartsWith(tokens + more, ']')
  {
  }

  lemma BracketOfMore(tokens: seq<Token>, more: seq<Token>, z: seq<Token>,
      arg: TypeArg, rest: seq<Token>, tail: seq<TypeArg>)
    requires NoQuotes(tokens) && tokens != [] && !StartsWith(tokens, ']')
    requires TypeArgOf(tokens) == Ok((arg, rest)) && rest != []
    requires BracketOf(DropComma(rest) + more + z) == Ok((tail, z))
    ensures BracketOf(tokens + more + z) == Ok(([arg] + tail, z))
  {
    hide TypeArgOf;
    TypeArgSettles(tokens, more + z);
    DropCommaMore(rest, more + z);
    Assoc(tokens, more, z);
    Assoc(DropComma(rest), more, z);
    StillOpen(tokens, more + z);
  }

  lemma BracketOfOne(tokens: seq<Token>, tail: seq<Token>, z: seq<Token>, arg: TypeArg)
    requires tokens != [] && !StartsWith(tokens, ']')
    requires TypeArgOf(tokens + tail + ([CLOSE] + z)) == Ok((arg, [CLOSE] + z))
    ensures BracketOf(tokens + (tail + [CLOSE]) + z) == Ok(([arg], z))
  {
    hide TypeArgOf;
    assert tokens + (tail + [CLOSE]) + z == tokens + tail + ([CLOSE] + z);
    assert ([CLOSE] + z)[1..] == z && DropComma([CLOSE] + z) == [CLOSE] + z;
    assert [arg] + [] == [arg];
    Assoc(tokens, tail, [CLOSE] + z);
    StillOpen(tokens, tail + ([CLOSE] + z));
  }

  lemma {:induction false} CompleteTypeArg(tokens: seq<Token>) returns (more: seq<Token>, arg: TypeArg)
    requires NoQuotes(tokens) && tokens != [] && !Settled(TypeArgOf(tokens))
    ensures forall z: seq<Token> :: !StartsWith(z, '[') ==> TypeArgOf(tokens + more + z) == Ok((arg, z))
    decreases |tokens|, 0
  {
    if |tokens| == 1 {
      more, arg := [EQUALS, WORD], TypeArg(tokens[0].value, Atom(WORD.value));
      assert tokens[0].kind == Identifier;
      hide TypeArgOf, ValueOf, Atom;
      forall z: seq<Token> | !StartsWith(z, '[') ensures TypeArgOf(tokens + more + z) == Ok((arg, z)) {
        AfterName(tokens, z);
        ValueOfWord(z);
        TypeArgOfValue(tokens + more + z, arg.value, z);
      }
    } else {
      assert tokens[0].kind == Identifier && tokens[1].kind == Punct('=');
      ValueUnsettled(tokens);
      NoQuotesSuffix(tokens, tokens[2..]);
      hide *;
      var v;
      more, v := CompleteValue(tokens[2..]);
      arg := TypeArg(tokens[0].value, v);
      forall z: seq<Token> | !StartsWith(z, '[') ensures TypeArgOf(tokens + more + z) == Ok((arg, z)) {
        TwoOff(tokens, more, z);
        TypeArgOfValue(tokens + more + z, v, z);
      }
    }
  }

  lemma AfterName(tokens: seq<Token>, z: seq<Token>)
    requires |tokens| == 1
    ensures (tokens + [EQUALS, WORD] + z)[2..] == [WORD] + z
    ensures (tokens + [EQUALS, WORD] + z)[0] == tokens[0] && (tokens + [EQUALS, WORD] + z)[1] == EQUALS
  {
  }

  lemma ValueOfWord(z: seq<Token>)
    ensures ValueOf([WORD] + z) == Ok((Atom(WORD.value), z))
  {
    hide TypeOf, QuotedOf, Atom;
    assert ([WORD] + z)[1..] == z && ([WORD] + z)[0].kind == Identifier;
  }

  lemma ValueUnsettled(tokens: seq<Token>)
    requires |tokens| > 1 && tokens[0].kind == Identifier && tokens[1].kind == Punct('=')
    ensures Settled(TypeArgOf(tokens)) == Settled(ValueOf(tokens[2..]))
  {
    hide ValueOf;
  }

  lemma TypeArgOfValue(tokens: seq<Token>, v: Value, z: seq<Token>)
    requires |tokens| > 1 && tokens[0].kind == Identifier && tokens[1].kind == Punct('=')
    requires ValueOf(tokens[2..]) == Ok((v, z))
    ensures TypeArgOf(tokens) == Ok((TypeArg(tokens[0].value, v), z))
  {
    hide ValueOf;
  }

  lemma {:induction false} CompleteValue(tokens: seq<Token>) returns (more: seq<Token>, v: Value)
    requires NoQuotes(tokens) && !Settled(ValueOf(tokens))
    ensures forall z: seq<Token> :: !StartsWith(z, '[') ==> ValueOf(tokens + more + z) == Ok((v, z))
    decreases |tokens|, 2
  {
    hide PyInt;
    if tokens == [] {
      more, v := [WORD], Atom(WORD.value);
      forall z: seq<Token> | !StartsWith(z, '[') ensures ValueOf(tokens + more + z) == Ok((v, z)) {
        assert tokens + more + z == [WORD] + z && ([WORD] + z)[1..] == z;
      }
    } else if tokens[0].kind == BasicType {
      var t;
      more, t := CompleteType(tokens);
      v := TypeValue(t);
      forall z: seq<Token> | !StartsWith(z, '[') ensures ValueOf(tokens + more + z) == Ok((v, z)) {
        assert (tokens + more + z)[0] == tokens[0];
      }
    } else {
      more, v := [], Atom(tokens[0].value);
      forall z: seq<Token> | !StartsWith(z, '[') ensures ValueOf(tokens + more + z) == Ok((v, z)) {
        assert (tokens + more + z)[0] == tokens[0] && (tokens + more + z)[1..] == z;
      }
    }
  }

  lemma {:induction false} CompleteArguments(tokens: seq<Token>) returns (more: seq<Token>)
    requires NoQuotes(tokens) && ArgumentsOf(tokens) == Err(IndexError)
    ensures ArgumentsOf(tokens + more).Ok?
    decreases |tokens|
  {
    if !Settled(TypeOf(tokens)) {
      var tail, t := CompleteType(tokens);
      more := tail + [WORD];
      assert !StartsWith([WORD], '[');
      Assoc(tokens, tail, [WORD]);
      OneArgument(tokens + more, t);
    } else {
      var (t, rest) := TypeOf(tokens).value;
      var after := DropComma(rest[1..]);
      NoQuotesSuffix(tokens, after);
      more := CompleteArguments(after);
      MoreArguments(tokens, more, t, rest);
    }
  }

  lemma OneArgument(tokens: seq<Token>, t: Type)
    requires tokens != [] && !StartsWith(tokens, ')') && TypeOf(tokens) == Ok((t, [WORD]))
    ensures ArgumentsOf(tokens).Ok?
  {
    assert [WORD][1..] == [] && DropComma([]) == [];
  }

  lemma MoreArguments(tokens: seq<Token>, more: seq<Token>, t: Type, rest: seq<Token>)
    requires NoQuotes(tokens) && tokens != [] && !StartsWith(tokens, ')')
    requires TypeOf(tokens) == Ok((t, rest)) && |rest| > 1
    requires ArgumentsOf(DropComma(rest[1..]) + more).Ok?
    ensures ArgumentsOf(tokens + more).Ok?
  {
    hide TypeOf;
    TypeSettles(tokens, more);
    Cut(rest, more, 1);
    DropCommaMore(rest[1..], more);
    assert (tokens + more)[0] == tokens[0] && rest + more != [];
  }

  lemma TokensHaveNoQuotes(text: string)
    ensures NoQuotes(Tokens(text))
  {
    LexemesAreQuoteFree(text);
  }

  /** The parser fails with an IndexError exactly where more tokens could still make
      a definition of what is there, and with a ValueError where none could. */
  lemma FailureIs(text: string)
    requires ParseText(text).Err?
    ensures ParseText(text).error == IndexError <==> exists more :: DefOf(Tokens(text) + more).Ok?
  {
    var tokens := Tokens(text);
    TokensHaveNoQuotes(text);
    if |tokens| < 2 {
      assert (tokens + [WORD, WORD])[2..] == if |tokens| == 0 then [] else [WORD];
      var more := [WORD, WORD, WORD, WORD][|tokens|..];
      assert (tokens + more)[2..] == [WORD, WORD] && [WORD, WORD][1..] == [WORD];
      OneArgument([WORD, WORD], Type(WORD.value, []));
      assert DefOf(tokens + more).Ok?;
    } else {
      NoQuotesSuffix(tokens, tokens[2..]);
      if ParseText(text).error == IndexError {
        var more := CompleteArguments(tokens[2..]);
        Cut(tokens, more, 2);
        assert DefOf(tokens + more).Ok?;
      } else {
        forall more ensures DefOf(tokens + more).Err? {
          ArgumentsSettle(tokens[2..], more);
          Cut(tokens, more, 2);
        }
      }
    }
  }
}
