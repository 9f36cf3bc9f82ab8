/** The recursive-descent parser: a functional specification of every parse
    function, and the parse functions themselves popping one shared token list. */
module SyscallParser {
  import opened Wrappers
  import opened SyscallSyntax

  datatype PyError = IndexError | ValueError

  type Parsed<T> = Result<(T, seq<Token>), PyError>

  predicate StartsWith(tokens: seq<Token>, c: char) {
    tokens != [] && tokens[0].kind == Punct(c)
  }

  function DropComma(tokens: seq<Token>): seq<Token> {
    if StartsWith(tokens, ',') then tokens[1..] else tokens
  }

  /** `rest` is what remains of `tokens` after at least `n` of them were used. */
  ghost predicate Consumes(tokens: seq<Token>, n: nat, rest: seq<Token>) {
    |rest| + n <= |tokens| && rest == tokens[|tokens| - |rest|..]
  }

  lemma ConsumesMore(tokens: seq<Token>, n: nat, rest: seq<Token>, rest': seq<Token>)
    requires Consumes(tokens, n, rest) && Consumes(rest, 0, rest')
    ensures Consumes(tokens, n, rest')
  {
  }

  // ----- Specification: each function returns the tree and the tokens left over

  function TypeOf(tokens: seq<Token>): (r: Parsed<Type>)
    ensures r.Ok? ==> Consumes(tokens, 1, r.value.1)
    decreases |tokens|, 1
  {
    if tokens == [] then Err(IndexError)
    else
      var (args, rest) :- TypeArgsOf(tokens[1..]);
      Ok((Type(tokens[0].value, args), rest))
  }

  function TypeArgsOf(tokens: seq<Token>): (r: Parsed<seq<TypeArg>>)
    ensures r.Ok? ==> Consumes(tokens, 0, r.value.1)
    decreases |tokens|, 0
  {
    if StartsWith(tokens, '[') then BracketOf(tokens[1..]) else Ok(([], tokens))
  }

  /** The arguments after the opening bracket, and the closing one if there. */
  function BracketOf(tokens: seq<Token>): (r: Parsed<seq<TypeArg>>)
    ensures r.Ok? ==> Consumes(tokens, 0, r.value.1)
    decreases |tokens|, 3
  {
    if tokens == [] then Ok(([], []))
    else if StartsWith(tokens, ']') then Ok(([], tokens[1..]))
    else
      var (arg, rest) :- TypeArgOf(tokens);
      var after := DropComma(rest);
      ConsumesMore(tokens, 1, rest, after);
      var (args, rest') :- BracketOf(after);
      ConsumesMore(tokens, 1, after, rest');
      Ok(([arg] + args, rest'))
  }

  function TypeArgOf(tokens: seq<Token>): (r: Parsed<TypeArg>)
    ensures r.Ok? ==> Consumes(tokens, 3, r.value.1)
    decreases |tokens|, 0
  {
    if tokens == [] then Err(IndexError)
    else if tokens[0].kind != Identifier then Err(ValueError)
    else if |tokens| == 1 then Err(IndexError)
    else if tokens[1].kind != Punct('=') then Err(ValueError)
    else
      var (value, rest) :- ValueOf(tokens[2..]);
      Ok((TypeArg(tokens[0].value, value), rest))
  }

  function ValueOf(tokens: seq<Token>): (r: Parsed<Value>)
    ensures r.Ok? ==> Consumes(tokens, 1, r.value.1)
    decreases |tokens|, 2
  {
    if tokens == [] then Err(IndexError)
    else if tokens[0].kind == BasicType then
      var (t, rest) :- TypeOf(tokens);
      Ok((TypeValue(t), rest))
    else if tokens[0].kind == Punct('"') then
      var (s, rest) :- QuotedOf(tokens[1..]);
      Ok((StrValue(s), rest))
    else Ok((Atom(tokens[0].value), tokens[1..]))
  }

  /** An integer if `int()` accepts the text, otherwise the text itself. */
  function Atom(text: string): Value {
    match PyInt(text)
    case Some(n) => IntValue(n)
    case None => StrValue(text)
  }

  /** The token values up to the closing quote token. */
  function QuotedOf(tokens: seq<Token>): (r: Parsed<string>)
    ensures r.Ok? ==> Consumes(tokens, 1, r.value.1)
  {
    if tokens == [] then Err(ValueError)
    else if StartsWith(tokens, '"') then Ok(("", tokens[1..]))
    else
      var (s, rest) :- QuotedOf(tokens[1..]);
      Ok((tokens[0].value + s, rest))
  }

  function ArgumentsOf(tokens: seq<Token>): (r: Parsed<seq<Argument>>)
    ensures r.Ok? ==> Consumes(tokens, 0, r.value.1)
    decreases |tokens|
  {
    if tokens == [] then Ok(([], []))
    else if StartsWith(tokens, ')') then Ok(([], tokens[1..]))
    else
      var (t, rest) :- TypeOf(tokens);
      if rest == [] then Err(IndexError)
      else
        var after := DropComma(rest[1..]);
        ConsumesMore(tokens, 1, rest, rest[1..]);
        ConsumesMore(tokens, 1, rest[1..], after);
        var (args, rest') :- ArgumentsOf(after);
        ConsumesMore(tokens, 1, after, rest');
        Ok(([Argument(t, rest[0].value)] + args, rest'))
  }

  function DefOf(tokens: seq<Token>): Result<SyscallDef, PyError> {
    if |tokens| < 2 then Err(IndexError)
    else
      var (args, _) :- ArgumentsOf(tokens[2..]);
      Ok(SyscallDef(tokens[0].value, args))
  }

  /** What `parse` returns, or the exception it raises, for every text. */
  function ParseText(text: string): Result<SyscallDef, PyError> {
    DefOf(Tokens(text))
  }

  // ----- The parser

  /** The list of tokens that all parse functions pop from. */
  class TokenList {
    var items: seq<Token>

    constructor (items: seq<Token>)
      ensures this.items == items
    {
      this.items := items;
    }

    method Pop() returns (token: Token)
      requires items != []
      modifies this
      ensures token == old(items)[0] && items == old(items)[1..]
    {
      token := items[0];
      items := items[1..];
    }
  }

  /** A parse function that returned `r` and left the tokens `now` did what `spec`
      says. */
  ghost predicate Agrees<T(!new)>(r: Result<T, PyError>, now: seq<Token>, spec: Parsed<T>) {
    match r
    case Ok(x) => spec == Ok((x, now))
    case Err(e) => spec == Err(e)
  }

  /** The parse `p` with `before` put in front of the sequence it returns. */
  ghost function After<T>(before: seq<T>, p: Parsed<seq<T>>): Parsed<seq<T>> {
    match p
    case Ok((more, rest)) => Ok((before + more, rest))
    case Err(e) => Err(e)
  }

  lemma AfterNothing<T>(p: Parsed<seq<T>>)
    ensures After([], p) == p
  {
    assert p.Ok? ==> [] + p.value.0 == p.value.0;
  }

  lemma AfterOneMore<T>(before: seq<T>, x: T, p: Parsed<seq<T>>)
    ensures After(before, After([x], p)) == After(before + [x], p)
  {
    assert p.Ok? ==> before + ([x] + p.value.0) == (before + [x]) + p.value.0;
  }

  method ParseType(tokens: TokenList) returns (r: Result<Type, PyError>)
    modifies tokens
    ensures Agrees(r, tokens.items, TypeOf(old(tokens.items)))
    decreases |tokens.items|, 2
  {
    if tokens.items == [] {
      return Err(IndexError);
    }
    var basicType := tokens.Pop();
    var args := ParseTypeArgs(tokens);
    match args
    case Err(e) => r := Err(e);
    case Ok(typeArgs) => r := Ok(Type(basicType.value, typeArgs));
  }

  method ParseTypeArgs(tokens: TokenList) returns (r: Result<seq<TypeArg>, PyError>)
    modifies tokens
    ensures Agrees(r, tokens.items, TypeArgsOf(old(tokens.items)))
    decreases |tokens.items|, 1
  {
    var typeArgs := [];
    if StartsWith(tokens.items, '[') {
      var _ := tokens.Pop();
      ghost var total := BracketOf(tokens.items);
      AfterNothing(total);
      while tokens.items != [] && !StartsWith(tokens.items, ']')
        invariant |tokens.items| < |old(tokens.items)|
        invariant total == After(typeArgs, BracketOf(tokens.items))
        decreases |tokens.items|
      {
        var arg := ParseTypeArg(tokens);
        if arg.Err? {
          return Err(arg.error);
        }
        AfterOneMore(typeArgs, arg.value, BracketOf(DropComma(tokens.items)));
        typeArgs := typeArgs + [arg.value];
        if StartsWith(tokens.items, ',') {
          var _ := tokens.Pop();
        }
      }
      assert typeArgs + [] == typeArgs;
      if StartsWith(tokens.items, ']') {
        var _ := tokens.Pop();
      }
    }
    return Ok(typeArgs);
  }

  method ParseTypeArg(tokens: TokenList) returns (r: Result<TypeArg, PyError>)
    modifies tokens
    ensures Agrees(r, tokens.items, TypeArgOf(old(tokens.items)))
    decreases |tokens.items|, 0
  {
    if tokens.items == [] {
      return Err(IndexError);
    }
    if tokens.items[0].kind != Identifier {
      return Err(ValueError);
    }
    if |tokens.items| == 1 {
      return Err(IndexError);
    }
    if tokens.items[1].kind != Punct('=') {
      return Err(ValueError);
    }
    var attr := tokens.Pop();
    var _ := tokens.Pop();
    var value := ParseValue(tokens);
    match value
    case Err(e) => r := Err(e);
    case Ok(v) => r := Ok(TypeArg(attr.value, v));
  }

  method ParseValue(tokens: TokenList) returns (r: Result<Value, PyError>)
    modifies tokens
    ensures Agrees(r, tokens.items, ValueOf(old(tokens.items)))
    decreases |tokens.items|, 3
  {
    if tokens.items == [] {
      return Err(IndexError);
    }
    if tokens.items[0].kind == BasicType {
      var t := ParseType(tokens);
      match t
      case Err(e) => return Err(e);
      case Ok(x) => return Ok(TypeValue(x));
    }
    if tokens.items[0].kind == Punct('"') {
      var accumulator := "";
      var _ := tokens.Pop();
      ghost var total := QuotedOf(tokens.items);
      AfterNothing(total);
      while tokens.items != [] && !StartsWith(tokens.items, '"')
        invariant total == After(accumulator, QuotedOf(tokens.items))
        decreases |tokens.items|
      {
        var token := tokens.Pop();
        assert QuotedOf(tokens.items).Ok? ==>
            (accumulator + token.value) + QuotedOf(tokens.items).value.0 ==
            accumulator + (token.value + QuotedOf(tokens.items).value.0);
        accumulator := accumulator + token.value;
      }
      if tokens.items == [] {
        return Err(ValueError);
      }
      var _ := tokens.Pop();
      assert accumulator + "" == accumulator;
      return Ok(StrValue(accumulator));
    }
    var value := tokens.Pop();
    match PyInt(value.value)
    case Some(n) => return Ok(IntValue(n));
    case None => return Ok(StrValue(value.value));
  }

  method ParseArguments(tokens: TokenList) returns (r: Result<seq<Argument>, PyError>)
    modifies tokens
    ensures Agrees(r, tokens.items, ArgumentsOf(old(tokens.items)))
  {
    ghost var total := ArgumentsOf(tokens.items);
    AfterNothing(total);
    var args: seq<Argument> := [];
    while tokens.items != [] && !StartsWith(tokens.items, ')')
      invariant total == After(args, ArgumentsOf(tokens.items))
      decreases |tokens.items|
    {
      var t := ParseType(tokens);
      if t.Err? {
        return Err(t.error);
      }
      if tokens.items == [] {
        return Err(IndexError);
      }
      var identifier := tokens.Pop();
      var arg := Argument(t.value, identifier.value);
      AfterOneMore(args, arg, ArgumentsOf(DropComma(tokens.items)));
      args := args + [arg];
      if StartsWith(tokens.items, ',') {
        var _ := tokens.Pop();
      }
    }
    assert args + [] == args;
    if StartsWith(tokens.items, ')') {
      var _ := tokens.Pop();
    }
    return Ok(args);
  }

  method Parse(text: string) returns (r: Result<SyscallDef, PyError>)
    ensures r == ParseText(text)
  {
    var lexed := Tokenize(text);
    var tokens := new TokenList(lexed);
    if |tokens.items| < 2 {
      return Err(IndexError);
    }
    var name := tokens.Pop();
    var _ := tokens.Pop();
    var args := ParseArguments(tokens);
    match args
    case Err(e) => r := Err(e);
    case Ok(list) => r := Ok(SyscallDef(name.value, list));
  }
}
