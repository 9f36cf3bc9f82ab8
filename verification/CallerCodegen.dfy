/** The generated caller of one syscall: what its fields declare and pass, as a
    small statement language, and the loops that generate it. */
module CallerCodegen {
  import opened Wrappers

  // ----- Fields

  datatype Scalar = Unsigned | OtherScalar

  /** A typed argument. A pointer takes its name and its cap from what it points
      to. The classes derived from these differ only in fixed attributes. */
  datatype Field =
    | Value(name: string, cast: Option<string>, maxValue: Option<int>, scalar: Scalar)
    | Flags(name: string, cast: Option<string>, maxValue: Option<int>)
    | Declared(name: string, cast: Option<string>, maxValue: Option<int>)
    | Ptr(cast: Option<string>, field: Field)
    | EmptyArray(name: string, cast: Option<string>, maxValue: Option<int>,
                 sizeGivenBy: Option<string>, fixedSize: Option<string>)
    | Buffer(name: string, cast: Option<string>, maxValue: Option<int>)
    | SizeOf(name: string, cast: Option<string>, maxValue: Option<int>, container: string)
    | Literal(name: string, cast: Option<string>, maxValue: Option<int>, value: string)
    | RandomStruct(name: string, cast: Option<string>, maxValue: Option<int>)
    | SockAddr(name: string, cast: Option<string>, maxValue: Option<int>)
    | RLimit(name: string, cast: Option<string>, maxValue: Option<int>)
  {
    function Name(): string {
      if Ptr? then field.Name() else name
    }

    function MaxValue(): Option<int> {
      if Ptr? then field.MaxValue() else maxValue
    }

    /** What the field is, seen through pointers. */
    function Target(): Field {
      if Ptr? then field.Target() else this
    }

    /** Only a sized array that is not behind a pointer says so. */
    predicate HasDependency() {
      EmptyArray? && sizeGivenBy.Some?
    }

    /** Sets up a variable of its name. */
    predicate Declares() {
      !(Target().Buffer? || Target().SizeOf? || Target().Literal?)
    }

    /** Has an entry in the proto message. */
    predicate InProto() {
      var f := Target();
      f.Value? || f.Flags? || f.Buffer? || f.RandomStruct? || f.SockAddr? || f.RLimit?
    }

    /** An unsigned integer reduced modulo a cap. */
    predicate Capped() {
      Value? && scalar.Unsigned? && maxValue.Some? && maxValue.value > 0
    }
  }

  // ----- Generated code

  datatype Expr =
    | Var(x: string)
    | Accessor(x: string)
    | Mod(e: Expr, cap: int)
    | AddressOf(e: Expr)
    | DataOf(e: Expr)
    | SizeCall(e: Expr)
    | Text(text: string)
    | Cast(cast: string, e: Expr)

  datatype Stmt =
    | BindArgs
    | Declare(x: string)
    | DeclareInit(x: string, e: Expr)
    | DeclareFrom(x: string, e: Expr)
    | DeclareVector(x: string, size: Expr)
    | Call(args: seq<Expr>)

  datatype GenError = KeyError | ValueError | RecursionError

  type Generated<T> = Result<T, GenError>

  function CommandField(f: Field): Expr
    requires !f.Ptr?
  {
    if f.maxValue.Some? then Mod(Accessor(f.name), f.maxValue.value) else Accessor(f.name)
  }

  function FieldByName(fields: seq<Field>, name: string): (r: Generated<Field>)
    ensures r.Ok? ==> r.value in fields && r.value.Name() == name
    ensures r.Ok? ==> exists i :: 0 <= i < |fields| && IsFirst(fields, name, i) && fields[i] == r.value
    ensures r.Err? ==> r.error == KeyError && forall f :: f in fields ==> f.Name() != name
  {
    if fields == [] then Err(KeyError)
    else if fields[0].Name() == name then
      assert IsFirst(fields, name, 0);
      Ok(fields[0])
    else
      var r := FieldByName(fields[1..], name);
      assert forall i :: 0 <= i < |fields| - 1 && IsFirst(fields[1..], name, i) ==> IsFirst(fields, name, i + 1);
      r
  }

  predicate IsFirst(fields: seq<Field>, name: string, i: nat)
    requires i < |fields|
  {
    fields[i].Name() == name && forall j :: 0 <= j < i ==> fields[j].Name() != name
  }

  /** The expression passed for a field. `hops` bounds how often a size may refer
      to the size of another field; more than there are fields is a cycle, on
      which the generator recurses until it fails. */
  function CallerArg(fields: seq<Field>, f: Field, hops: nat): Generated<Expr>
    decreases hops, f, 0
  {
    match f
    case Ptr(_, g) =>
      var e :- CallerArg(fields, g, hops);
      Ok(AddressOf(e))
    case SizeOf(_, _, _, container) =>
      var g :- FieldByName(fields, container);
      if hops == 0 then Err(RecursionError) else SizeExpr(fields, g, hops - 1)
    case EmptyArray(name, _, _, _, _) => Ok(DataOf(Var(name)))
    case Buffer(_, _, _) => Ok(DataOf(CommandField(f)))
    case Literal(_, _, _, value) => Ok(Text(value))
    case RandomStruct(name, _, _) => Ok(AddressOf(Var(name)))
    case RLimit(name, _, _) => Ok(AddressOf(Var(name)))
    case SockAddr(name, _, _) => Ok(DataOf(Var(name)))
    case Value(name, _, _, _) => Ok(Var(name))
    case Flags(name, _, _) => Ok(Var(name))
    case Declared(name, _, _) => Ok(Var(name))
  }

  function ValueExpr(fields: seq<Field>, f: Field, hops: nat): Generated<Expr>
    decreases hops, f, 1
  {
    if f.Ptr? then ValueExpr(fields, f.field, hops) else CallerArg(fields, f, hops)
  }

  function SizeExpr(fields: seq<Field>, f: Field, hops: nat): Generated<Expr>
    decreases hops, f, 2
  {
    if f.Ptr? then SizeExpr(fields, f.field, hops)
    else if f.Buffer? then Ok(SizeCall(CommandField(f)))
    else if f.SockAddr? then Ok(SizeCall(Var(f.name)))
    else ValueExpr(fields, f, hops)
  }

  function ArraySize(fields: seq<Field>, f: Field): Generated<Expr>
    requires f.EmptyArray?
  {
    if f.sizeGivenBy.Some? then
      var sizeField :- FieldByName(fields, f.sizeGivenBy.value);
      if sizeField.MaxValue() == None then Err(ValueError)
      else ValueExpr(fields, sizeField, |fields|)
    else if f.fixedSize.Some? then Ok(Text(f.fixedSize.value))
    else Err(ValueError)
  }

  function Setup(fields: seq<Field>, f: Field): Generated<seq<Stmt>> {
    match f
    case Ptr(_, g) => Setup(fields, g)
    case EmptyArray(name, _, _, _, _) =>
      var size :- ArraySize(fields, f);
      Ok([DeclareVector(name, size)])
    case Value(name, _, _, _) => Ok([DeclareInit(name, CommandField(f))])
    case Declared(name, _, _) => Ok([Declare(name)])
    case Flags(name, _, _) => Ok([DeclareFrom(name, CommandField(f))])
    case RandomStruct(name, _, _) => Ok([DeclareFrom(name, CommandField(f))])
    case SockAddr(name, _, _) => Ok([DeclareFrom(name, CommandField(f))])
    case RLimit(name, _, _) => Ok([DeclareFrom(name, CommandField(f))])
    case Buffer(_, _, _) => Ok([])
    case SizeOf(_, _, _, _) => Ok([])
    case Literal(_, _, _, _) => Ok([])
  }

  /** The fields, last first, that are set up in the first or the second pass. */
  function Pass(fields: seq<Field>, dependent: bool): seq<Field> {
    if fields == [] then []
    else
      var first := if fields[0].HasDependency() == dependent then [fields[0]] else [];
      Pass(fields[1..], dependent) + first
  }

  function Setups(fields: seq<Field>, order: seq<Field>): Generated<seq<Stmt>> {
    if order == [] then Ok([])
    else
      var first :- Setup(fields, order[0]);
      var more :- Setups(fields, order[1..]);
      Ok(first + more)
  }

  function CallerArgs(fields: seq<Field>, fs: seq<Field>): (r: Generated<seq<Expr>>)
    ensures r.Ok? ==> |r.value| == |fs|
  {
    if fs == [] then Ok([])
    else
      var e :- CallerArg(fields, fs[0], |fields|);
      var more :- CallerArgs(fields, fs[1..]);
      Ok([if fs[0].cast.Some? then Cast(fs[0].cast.value, e) else e] + more)
  }

  function Order(fields: seq<Field>): seq<Field> {
    Pass(fields, false) + Pass(fields, true)
  }

  function CallerBlock(fields: seq<Field>): Generated<seq<Stmt>> {
    var setups :- Setups(fields, Order(fields));
    var args :- CallerArgs(fields, fields);
    Ok([BindArgs] + setups + [Call(args)])
  }

  // ----- The generator

  lemma {:induction false} SetupsBoth(fields: seq<Field>, a: seq<Field>, b: seq<Field>)
    ensures Setups(fields, a + b) ==
            match Setups(fields, a)
            case Err(e) => Err(e)
            case Ok(x) => (match Setups(fields, b) case Err(e) => Err(e) case Ok(y) => Ok(x + y))
    decreases a
  {
    if a == [] {
      assert a + b == b;
      assert Setups(fields, b).Ok? ==> [] + Setups(fields, b).value == Setups(fields, b).value;
    } else {
      SetupsBoth(fields, a[1..], b);
      assert (a + b)[1..] == a[1..] + b;
      if Setup(fields, a[0]).Ok? && Setups(fields, a[1..]).Ok? && Setups(fields, b).Ok? {
        var first, more, last := Setup(fields, a[0]).value, Setups(fields, a[1..]).value, Setups(fields, b).value;
        assert first + (more + last) == (first + more) + last;
      }
    }
  }

  lemma {:induction false} PassSplit(fields: seq<Field>, i: nat, dependent: bool)
    requires i <= |fields|
    ensures Pass(fields, dependent) == Pass(fields[i..], dependent) + Pass(fields[..i], dependent)
    decreases i
  {
    if i == 0 {
      assert fields[0..] == fields;
    } else {
      PassSplit(fields[1..], i - 1, dependent);
      assert fields[1..][i - 1..] == fields[i..];
      assert fields[1..][..i - 1] == fields[..i][1..];
    }
  }

  /** One loop of the generator: the setups of one pass, from the last field on. */
  method GeneratePass(fields: seq<Field>, dependent: bool) returns (r: Generated<seq<Stmt>>)
    ensures r == Setups(fields, Pass(fields, dependent))
  {
    var out: seq<Stmt> := [];
    var i := |fields|;
    while i > 0
      invariant 0 <= i <= |fields|
      invariant Setups(fields, Pass(fields[i..], dependent)) == Ok(out)
    {
      i := i - 1;
      assert fields[i..][1..] == fields[i + 1..];
      if fields[i].HasDependency() == dependent {
        SetupsBoth(fields, Pass(fields[i + 1..], dependent), [fields[i]]);
        assert [fields[i]][1..] == [];
        var setup := Setup(fields, fields[i]);
        if setup.Err? {
          PassSplit(fields, i, dependent);
          SetupsBoth(fields, Pass(fields[i..], dependent), Pass(fields[..i], dependent));
          return Err(setup.error);
        }
        assert setup.value + [] == setup.value;
        out := out + setup.value;
      } else {
        assert Pass(fields[i..], dependent) == Pass(fields[i + 1..], dependent);
      }
    }
    assert fields[0..] == fields;
    return Ok(out);
  }

  method GenerateCallerArgs(fields: seq<Field>) returns (r: Generated<seq<Expr>>)
    ensures r == CallerArgs(fields, fields)
  {
    var args: seq<Expr> := [];
    assert fields[0..] == fields;
    assert CallerArgs(fields, fields).Ok? ==> [] + CallerArgs(fields, fields).value == CallerArgs(fields, fields).value;
    for i := 0 to |fields|
      invariant match CallerArgs(fields, fields[i..]) {
                  case Err(e) => CallerArgs(fields, fields) == Err(e)
                  case Ok(more) => CallerArgs(fields, fields) == Ok(args + more)
                }
    {
      var arg := CallerArg(fields, fields[i], |fields|);
      assert fields[i..][1..] == fields[i + 1..];
      if arg.Err? {
        return Err(arg.error);
      }
      var e := if fields[i].cast.Some? then Cast(fields[i].cast.value, arg.value) else arg.value;
      ghost var more := CallerArgs(fields, fields[i + 1..]);
      assert more.Ok? ==> args + ([e] + more.value) == (args + [e]) + more.value;
      args := args + [e];
    }
    assert args + [] == args;
    return Ok(args);
  }

  method GenerateCallerBlock(fields: seq<Field>) returns (r: Generated<seq<Stmt>>)
    ensures r == CallerBlock(fields)
  {
    SetupsBoth(fields, Pass(fields, false), Pass(fields, true));
    var first := GeneratePass(fields, false);
    if first.Err? {
      return Err(first.error);
    }
    var second := GeneratePass(fields, true);
    if second.Err? {
      return Err(second.error);
    }
    var args := GenerateCallerArgs(fields);
    if args.Err? {
      return Err(args.error);
    }
    return Ok([BindArgs] + (first.value + second.value) + [Call(args.value)]);
  }
}
