/** What the generated caller passes for each field: under exactly as many
    pointers as the field has, its variable, its data or its text; what the sizes
    among the arguments are the sizes of; and that no message field is ignored. */
module CallerArguments {
  import opened Wrappers
  import opened CallerCodegen
  import opened CallerScope
  import opened CallerRun

  // ----- Pointers

  /** How many pointers a field puts around its target. */
  function Depth(f: Field): nat {
    if f.Ptr? then 1 + Depth(f.field) else 0
  }

  function Wrap(n: nat, d: Datum): Datum {
    if n == 0 then d else Pointer(Wrap(n - 1, d))
  }

  /** What lies under n pointers. */
  function Unwrap(n: nat, d: Datum): Option<Datum> {
    if n == 0 then Some(d) else if d.Pointer? then Unwrap(n - 1, d.target) else None
  }

  lemma {:induction false} UnwrapWrapped(n: nat, d: Datum)
    ensures Unwrap(n, Wrap(n, d)) == Some(d)
  {
    if n > 0 {
      UnwrapWrapped(n - 1, d);
    }
  }

  lemma {:induction false} WrapConverted(rt: Runtime, cast: string, n: nat, d: Datum)
    ensures Converted(rt, cast, Wrap(n, d)) == Wrap(n, Converted(rt, cast, d))
  {
    if n > 0 {
      WrapConverted(rt, cast, n - 1, d);
    }
  }

  /** What the cast of a field makes of a datum. */
  function Casted(rt: Runtime, f: Field, d: Datum): Datum {
    if f.cast.Some? then Converted(rt, f.cast.value, d) else d
  }

  // ----- What is passed

  /** The variable and the message field of `f`, where it has them. */
  ghost predicate Holding(f: Field, msg: Message, env: Env) {
    && (f.Declares() ==> f.Name() in env && Holds(f, msg, env[f.Name()]))
    && (f.InProto() ==> f.Name() in msg && Fits(f, msg[f.Name()]))
  }

  /** A variable itself, its address or its data; the data of a message field; the
      text of a literal. */
  ghost function Plain(f: Field, msg: Message, env: Env): Datum
    requires Holding(f, msg, env) && !f.Target().SizeOf?
  {
    match f.Target()
    case Literal(_, _, _, value) => Code(value)
    case Buffer(_, _, _) => Data(Reduced(f, msg))
    case RandomStruct(_, _, _) => Pointer(env[f.Name()])
    case RLimit(_, _, _) => Pointer(env[f.Name()])
    case SockAddr(_, _, _) => Data(env[f.Name()])
    case EmptyArray(_, _, _, _, _) => Data(env[f.Name()])
    case _ => if f.Name() in env then env[f.Name()] else Opaque
  }

  /** What a `SizeOf` of the field passes: the size of what holds its bytes, or
      what is passed for the target itself. */
  ghost function SizeDatum(rt: Runtime, f: Field, msg: Message, env: Env): Datum
    requires Holding(f, msg, env) && !f.Target().SizeOf?
  {
    if f.Target().Buffer? then SizeOfHolder(rt, Reduced(f, msg))
    else if f.Target().SockAddr? then SizeOfHolder(rt, env[f.Name()])
    else Plain(f, msg, env)
  }

  lemma CommandFieldIs(rt: Runtime, f: Field, msg: Message, env: Env)
    requires !f.Ptr? && f.Name() in msg && f.MaxValue() != Some(0)
    ensures Eval(rt, CommandField(f), msg, env) == Some(Reduced(f, msg))
  {
  }

  lemma TargetArgIs(rt: Runtime, fields: seq<Field>, f: Field, hops: nat, msg: Message, env: Env)
    requires !f.Ptr? && Holding(f, msg, env) && !f.SizeOf? && f.MaxValue() != Some(0)
    ensures f.Target() == f && CallerArg(fields, f, hops).Ok?
    ensures Eval(rt, CallerArg(fields, f, hops).value, msg, env) == Some(Plain(f, msg, env))
  {
    hide Holds, Fits, Reduced;
    if f.Buffer? {
      CommandFieldIs(rt, f, msg, env);
    }
  }

  lemma PointedPlain(f: Field, msg: Message, env: Env)
    requires f.Ptr? && Holding(f, msg, env) && !f.Target().SizeOf?
    ensures Holding(f.field, msg, env) && Plain(f, msg, env) == Plain(f.field, msg, env)
  {
  }

  lemma {:induction false} CallerArgIs(rt: Runtime, fields: seq<Field>, f: Field, hops: nat, msg: Message, env: Env)
    requires Holding(f, msg, env) && !f.Target().SizeOf? && f.MaxValue() != Some(0)
    ensures CallerArg(fields, f, hops).Ok?
    ensures Eval(rt, CallerArg(fields, f, hops).value, msg, env) == Some(Wrap(Depth(f), Plain(f, msg, env)))
    decreases f
  {
    hide Holding, Plain;
    if f.Ptr? {
      PointedPlain(f, msg, env);
      CallerArgIs(rt, fields, f.field, hops, msg, env);
    } else {
      TargetArgIs(rt, fields, f, hops, msg, env);
    }
  }

  lemma {:induction false} SizeExprIs(rt: Runtime, fields: seq<Field>, f: Field, hops: nat, msg: Message, env: Env)
    requires Holding(f, msg, env) && !f.Target().SizeOf? && f.MaxValue() != Some(0)
    ensures SizeExpr(fields, f, hops).Ok?
    ensures Eval(rt, SizeExpr(fields, f, hops).value, msg, env) == Some(SizeDatum(rt, f, msg, env))
    decreases f
  {
    if f.Ptr? {
      PointedPlain(f, msg, env);
      SizeExprIs(rt, fields, f.field, hops, msg, env);
    } else if f.Buffer? {
      CommandFieldIs(rt, f, msg, env);
    } else if !f.SockAddr? {
      TargetArgIs(rt, fields, f, hops, msg, env);
    }
  }

  /** A `SizeOf` passes the size expression of its container. */
  lemma {:induction false} SizeArgIs(rt: Runtime, fields: seq<Field>, f: Field, g: Field, hops: nat,
      msg: Message, env: Env)
    requires f.Target().SizeOf? && FieldByName(fields, f.Target().container) == Ok(g)
    requires hops > 0 && Holding(g, msg, env) && !g.Target().SizeOf? && g.MaxValue() != Some(0)
    ensures CallerArg(fields, f, hops).Ok?
    ensures Eval(rt, CallerArg(fields, f, hops).value, msg, env) == Some(Wrap(Depth(f), SizeDatum(rt, g, msg, env)))
    decreases f
  {
    if f.Ptr? {
      SizeArgIs(rt, fields, f.field, g, hops, msg, env);
    } else {
      SizeExprIs(rt, fields, g, hops - 1, msg, env);
    }
  }

  /** What the call of the block passes for one field. */
  lemma ArgAt(rt: Runtime, fields: seq<Field>, msg: Message, env: Env, args: seq<Datum>, i: nat)
    requires CallerArgs(fields, fields).Ok? && EvalAll(rt, CallerArgs(fields, fields).value, msg, env) == Some(args)
    requires i < |fields|
    ensures |args| == |fields| && CallerArg(fields, fields[i], |fields|).Ok?
    ensures Eval(rt, CallerArg(fields, fields[i], |fields|).value, msg, env).Some?
    ensures args[i] == Casted(rt, fields[i], Eval(rt, CallerArg(fields, fields[i], |fields|).value, msg, env).value)
  {
    hide CallerArgs, EvalAll, CallerArg;
    CallerArgAt(fields, fields, i);
    assert Eval(rt, CallerArgs(fields, fields).value[i], msg, env) == Some(args[i]);
  }

  lemma FieldsHold(fields: seq<Field>, msg: Message, env: Env)
    requires SizesAreCapped(fields) && IsMessage(fields, msg) && GoodEnv(fields, msg, env)
    requires DeclaredNames(fields) <= env.Keys
    ensures forall f :: f in fields ==> Holding(f, msg, env)
  {
    forall f | f in fields ensures Holding(f, msg, env) {
      FieldIsKnown(fields, f);
      if f.Declares() {
        assert GoodVar(fields, msg, f, env[f.Name()]);
      }
    }
  }

  /** `f` is a `SizeOf` of `g`, which is none itself. */
  ghost predicate SizeOfField(f: Field, g: Field) {
    f.Target().SizeOf? && f.Target().container == g.Name() && !g.Target().SizeOf?
  }

  /** The environment and the arguments of a run of the block. */
  ghost predicate IsCall(rt: Runtime, fields: seq<Field>, msg: Message, env: Env, args: seq<Datum>) {
    && |args| == |fields| && (forall f :: f in fields ==> Holding(f, msg, env))
    && CallerBlock(fields).Ok? && Exec(rt, CallerBlock(fields).value, msg, map[]) == Some((env, args))
  }

  ghost predicate Callable(fields: seq<Field>, msg: Message) {
    && DistinctNames(fields) && SizesAreCapped(fields) && CapsAreNonzero(fields) && PointedArraysFirst(fields)
    && CallerBlock(fields).Ok? && IsMessage(fields, msg)
  }

  /** On every message the block runs to its call, and passes for each field that
      is no size its variable, address, data or text, and for each size of another
      field what that field's size is: under exactly the field's own pointers and
      under its cast. */
  lemma ArgumentsArePassed(rt: Runtime, fields: seq<Field>, msg: Message) returns (env: Env, args: seq<Datum>)
    requires Callable(fields, msg)
    ensures IsCall(rt, fields, msg, env, args) && GoodEnv(fields, msg, env)
    ensures forall i :: 0 <= i < |fields| && !fields[i].Target().SizeOf? ==>
      args[i] == Wrap(Depth(fields[i]), Casted(rt, fields[i], Plain(fields[i], msg, env)))
    ensures forall i, j :: 0 <= i < |fields| && 0 <= j < |fields| && SizeOfField(fields[i], fields[j]) ==>
      args[i] == Wrap(Depth(fields[i]), Casted(rt, fields[i], SizeDatum(rt, fields[j], msg, env)))
  {
    hide Exec, CallerArgs, EvalAll, CallerBlock, GoodEnv, IsMessage, CallerArg, Eval;
    env, args := CallerRuns(rt, fields, msg);
    FieldsHold(fields, msg, env);
    RunPassesAll(rt, fields, msg, env, args);
    forall i | 0 <= i < |fields| && !fields[i].Target().SizeOf?
      ensures args[i] == Wrap(Depth(fields[i]), Casted(rt, fields[i], Plain(fields[i], msg, env)))
    {
      PlainPassed(rt, fields, msg, env, args, i);
    }
    forall i, j | 0 <= i < |fields| && 0 <= j < |fields| && SizeOfField(fields[i], fields[j])
      ensures args[i] == Wrap(Depth(fields[i]), Casted(rt, fields[i], SizeDatum(rt, fields[j], msg, env)))
    {
      SizePassed(rt, fields, msg, env, args, i, j);
    }
  }

  lemma RunPassesAll(rt: Runtime, fields: seq<Field>, msg: Message, env: Env, args: seq<Datum>)
    requires CallerArgs(fields, fields).Ok? && EvalAll(rt, CallerArgs(fields, fields).value, msg, env) == Some(args)
    ensures |args| == |fields|
  {
  }

  lemma PlainPassed(rt: Runtime, fields: seq<Field>, msg: Message, env: Env, args: seq<Datum>, i: nat)
    requires CallerArgs(fields, fields).Ok? && EvalAll(rt, CallerArgs(fields, fields).value, msg, env) == Some(args)
    requires CapsAreNonzero(fields) && (forall f :: f in fields ==> Holding(f, msg, env))
    requires i < |fields| && !fields[i].Target().SizeOf?
    ensures |args| == |fields|
    ensures args[i] == Wrap(Depth(fields[i]), Casted(rt, fields[i], Plain(fields[i], msg, env)))
  {
    hide CallerArgs, EvalAll, CallerArg, Eval, Holding, Plain;
    var f := fields[i];
    ArgAt(rt, fields, msg, env, args, i);
    assert f in fields;
    CallerArgIs(rt, fields, f, |fields|, msg, env);
    if f.cast.Some? {
      WrapConverted(rt, f.cast.value, Depth(f), Plain(f, msg, env));
    }
  }

  lemma SizePassed(rt: Runtime, fields: seq<Field>, msg: Message, env: Env, args: seq<Datum>, i: nat, j: nat)
    requires CallerArgs(fields, fields).Ok? && EvalAll(rt, CallerArgs(fields, fields).value, msg, env) == Some(args)
    requires DistinctNames(fields) && CapsAreNonzero(fields) && (forall f :: f in fields ==> Holding(f, msg, env))
    requires i < |fields| && j < |fields| && SizeOfField(fields[i], fields[j])
    ensures |args| == |fields|
    ensures args[i] == Wrap(Depth(fields[i]), Casted(rt, fields[i], SizeDatum(rt, fields[j], msg, env)))
  {
    hide CallerArgs, EvalAll, CallerArg, Eval, Holding, SizeDatum;
    var f, g := fields[i], FieldByName(fields, fields[j].Name()).value;
    SameNameSameField(fields, g, fields[j]);
    ArgAt(rt, fields, msg, env, args, i);
    assert f in fields && g in fields;
    SizeArgIs(rt, fields, f, g, |fields|, msg, env);
    if f.cast.Some? {
      WrapConverted(rt, f.cast.value, Depth(f), SizeDatum(rt, g, msg, env));
    }
  }

  // ----- The length of a sized array

  /** The number that is passed, or pointed to, for a field with a cast. */
  function Passed(rt: Runtime, f: Field, n: int): int {
    if f.cast.Some? then rt.convert(f.cast.value, n) else n
  }

  /** A vector, and what is passed for the field that gives its size. */
  ghost predicate SizedAsPassed(rt: Runtime, size: Field, msg: Message, vector: Datum, arg: Datum)
    requires size.Target().Capped() && size.Name() in msg && msg[size.Name()].Number?
  {
    var n := CappedNumber(size, msg).n;
    && 0 <= n < size.Target().maxValue.value
    && vector == Vector(Number(n))
    && arg == Wrap(Depth(size), Number(Passed(rt, size, n)))
    && (arg == Wrap(Depth(size), vector.elements) <==> size.cast.None? || rt.convert(size.cast.value, n) == n)
  }

  lemma {:induction false} WrapFaithful(n: nat, a: Datum, b: Datum)
    ensures Wrap(n, a) == Wrap(n, b) <==> a == b
  {
    if n > 0 {
      WrapFaithful(n - 1, a, b);
    }
  }

  /** On every message the vector of a sized array has as many elements as the
      field that gives its size says, reduced below its cap. That is the number
      passed for that field, under its pointers, exactly if a cast on the field
      keeps it. */
  lemma CallerSizesItsArrays(rt: Runtime, fields: seq<Field>, msg: Message) returns (env: Env, args: seq<Datum>)
    requires Callable(fields, msg)
    ensures |args| == |fields| && IsCall(rt, fields, msg, env, args)
    ensures forall i, j :: 0 <= i < |fields| && 0 <= j < |fields| && Sizes(fields[i], fields[j]) ==>
      && fields[j].Target().Capped() && fields[i].Name() in env
      && SizedAsPassed(rt, fields[j], msg, env[fields[i].Name()], args[j])
  {
    env, args := ArgumentsArePassed(rt, fields, msg);
    assert |args| == |fields|;
    hide IsCall, Holding;
    forall i, j | 0 <= i < |fields| && 0 <= j < |fields| && Sizes(fields[i], fields[j])
      ensures fields[j].Target().Capped() && fields[i].Name() in env
      ensures SizedAsPassed(rt, fields[j], msg, env[fields[i].Name()], args[j])
    {
      ArrayIsSized(rt, fields, msg, env, args, i, j);
    }
  }

  lemma ArrayIsSized(rt: Runtime, fields: seq<Field>, msg: Message, env: Env, args: seq<Datum>, i: nat, j: nat)
    requires Callable(fields, msg) && IsCall(rt, fields, msg, env, args) && GoodEnv(fields, msg, env)
    requires i < |fields| && j < |fields| && Sizes(fields[i], fields[j])
    requires !fields[j].Target().SizeOf? ==>
      args[j] == Wrap(Depth(fields[j]), Casted(rt, fields[j], Plain(fields[j], msg, env)))
    ensures fields[j].Target().Capped() && fields[i].Name() in env
    ensures SizedAsPassed(rt, fields[j], msg, env[fields[i].Name()], args[j])
  {
    hide Exec, CallerBlock;
    var size := FieldByName(fields, fields[j].Name()).value;
    assert fields[i] in fields && fields[j] in fields;
    SameNameSameField(fields, size, fields[j]);
    CappedValue(fields, size, |fields|);
    assert Holding(fields[i], msg, env) && Holding(size, msg, env);
    assert GoodVar(fields, msg, fields[i], env[fields[i].Name()]) && GoodVar(fields, msg, size, env[size.Name()]);
    var n := CappedNumber(size, msg).n;
    assert Plain(size, msg, env) == Number(n) && Casted(rt, size, Number(n)) == Number(Passed(rt, size, n));
    WrapFaithful(Depth(size), Number(Passed(rt, size, n)), Number(n));
  }

  // ----- The length of bytes

  /** How many bytes an argument points to; None for what is no byte string. */
  function ByteLength(rt: Runtime, arg: Datum): Option<int> {
    if arg.Data? && arg.holder.Bytes? then Some(arg.holder.length)
    else if arg.Data? && arg.holder.Made? then Some(rt.size(arg.holder.source))
    else None
  }

  /** A buffer, or a socket address, which is turned into a string; not behind a
      cap, which the generator would apply to the bytes themselves. */
  predicate IsByteString(f: Field) {
    (f.Target().Buffer? && f.MaxValue() == None) || f.Target().SockAddr?
  }

  /** `size` is passed, under its own pointers and cast, with the length of the
      bytes that `bytes` points to under its pointers. */
  ghost predicate IsLength(rt: Runtime, f: Field, g: Field, size: Datum, bytes: Datum) {
    var b := Unwrap(Depth(g), bytes);
    && b.Some? && ByteLength(rt, b.value).Some?
    && size == Wrap(Depth(f), Number(Passed(rt, f, ByteLength(rt, b.value).value)))
  }

  /** On every message, what is passed for a `SizeOf` is the length of the bytes
      passed for its container exactly if the container is a byte string. For an
      array it is the pointer to its data. */
  lemma SizesAreLengths(rt: Runtime, fields: seq<Field>, msg: Message) returns (env: Env, args: seq<Datum>)
    requires Callable(fields, msg)
    ensures IsCall(rt, fields, msg, env, args)
    ensures forall i, j :: 0 <= i < |fields| && 0 <= j < |fields| && SizeOfField(fields[i], fields[j]) ==>
      && (IsLength(rt, fields[i], fields[j], args[i], args[j]) <==> IsByteString(fields[j]))
      && (fields[j].Target().EmptyArray? ==>
            fields[j].Name() in env && args[i] == Wrap(Depth(fields[i]), Data(env[fields[j].Name()])))
  {
    hide IsLength, IsByteString, Plain, SizeDatum;
    env, args := ArgumentsArePassed(rt, fields, msg);
    forall i, j | 0 <= i < |fields| && 0 <= j < |fields| && SizeOfField(fields[i], fields[j])
      ensures IsLength(rt, fields[i], fields[j], args[i], args[j]) <==> IsByteString(fields[j])
      ensures fields[j].Target().EmptyArray? ==>
        fields[j].Name() in env && args[i] == Wrap(Depth(fields[i]), Data(env[fields[j].Name()]))
    {
      assert fields[j] in fields;
      SizeIsLength(rt, fields[i], fields[j], msg, env, args[i], args[j]);
    }
  }

  lemma SizeIsLength(rt: Runtime, f: Field, g: Field, msg: Message, env: Env, size: Datum, bytes: Datum)
    requires Holding(g, msg, env) && !g.Target().SizeOf?
    requires bytes == Wrap(Depth(g), Casted(rt, g, Plain(g, msg, env)))
    requires size == Wrap(Depth(f), Casted(rt, f, SizeDatum(rt, g, msg, env)))
    ensures IsLength(rt, f, g, size, bytes) <==> IsByteString(g)
    ensures g.Target().EmptyArray? ==>
      g.Name() in env && size == Wrap(Depth(f), Data(env[g.Name()]))
  {
    UnwrapWrapped(Depth(g), Casted(rt, g, Plain(g, msg, env)));
    CastedLength(rt, g, Plain(g, msg, env));
    var length := ByteLength(rt, Plain(g, msg, env));
    LengthOfPlain(rt, g, msg, env);
    hide Holding, Plain, SizeDatum, Holds, Fits;
    if length.Some? {
      assert Casted(rt, f, Number(length.value)) == Number(Passed(rt, f, length.value));
    }
  }

  lemma LengthOfPlain(rt: Runtime, g: Field, msg: Message, env: Env)
    requires Holding(g, msg, env) && !g.Target().SizeOf?
    ensures var length := ByteLength(rt, Plain(g, msg, env));
      && (length.Some? <==> IsByteString(g))
      && (length.Some? ==> SizeDatum(rt, g, msg, env) == Number(length.value))
    ensures g.Target().EmptyArray? ==> g.Name() in env && SizeDatum(rt, g, msg, env) == Data(env[g.Name()])
  {
    TargetIsTarget(g);
  }

  lemma {:induction false} TargetIsTarget(g: Field)
    ensures !g.Target().Ptr?
  {
    if g.Ptr? {
      TargetIsTarget(g.field);
    }
  }

  lemma CastedLength(rt: Runtime, g: Field, d: Datum)
    ensures ByteLength(rt, Casted(rt, g, d)) == ByteLength(rt, d)
  {
  }

  // ----- Every message field is read

  ghost function ReadsOf(stmts: seq<Stmt>): set<string> {
    if stmts == [] then {}
    else ReadsIn(stmts[0]) + ReadsOf(stmts[1..])
  }

  ghost function ReadsIn(stmt: Stmt): set<string> {
    match stmt
    case BindArgs => {}
    case Declare(_) => {}
    case DeclareInit(_, e) => Reads(e)
    case DeclareFrom(_, e) => Reads(e)
    case DeclareVector(_, e) => Reads(e)
    case Call(args) => ReadsOfAll(args)
  }

  ghost function ReadsOfAll(args: seq<Expr>): set<string> {
    if args == [] then {} else Reads(args[0]) + ReadsOfAll(args[1..])
  }

  lemma {:induction false} ReadsBoth(a: seq<Stmt>, b: seq<Stmt>)
    ensures ReadsOf(a + b) == ReadsOf(a) + ReadsOf(b)
  {
    if a == [] {
      assert a + b == b;
    } else {
      assert (a + b)[1..] == a[1..] + b;
      ReadsBoth(a[1..], b);
    }
  }

  /** A field of the message that is no buffer is read where it is set up. */
  lemma {:induction false} SetupReads(fields: seq<Field>, f: Field)
    requires Setup(fields, f).Ok? && Known(fields, f)
    ensures f.InProto() && !f.Target().Buffer? ==> f.Name() in ReadsOf(Setup(fields, f).value)
    ensures ReadsOf(Setup(fields, f).value) <= ProtoNames(fields)
    decreases f
  {
    if f.Ptr? {
      SetupReads(fields, f.field);
    } else {
      CommandFieldNames(f);
      if Setup(fields, f).value != [] {
        assert Setup(fields, f).value[1..] == [];
      }
      if f.EmptyArray? && f.sizeGivenBy.Some? {
        var g := FieldByName(fields, f.sizeGivenBy.value).value;
        FieldIsKnown(fields, g);
        CallerArgIsKnown(fields, g, |fields|);
      }
    }
  }

  lemma {:induction false} SetupsRead(fields: seq<Field>, order: seq<Field>, f: Field)
    requires Setups(fields, order).Ok? && forall g :: g in order ==> Known(fields, g)
    ensures f in order && f.InProto() && !f.Target().Buffer? ==> f.Name() in ReadsOf(Setups(fields, order).value)
    ensures ReadsOf(Setups(fields, order).value) <= ProtoNames(fields)
    decreases order
  {
    if order != [] {
      SetupReads(fields, order[0]);
      SetupsRead(fields, order[1..], f);
      ReadsBoth(Setup(fields, order[0]).value, Setups(fields, order[1..]).value);
    }
  }

  /** A buffer is read where it is passed. */
  lemma {:induction false} BufferArgReads(fields: seq<Field>, f: Field, hops: nat)
    requires f.Target().Buffer? && CallerArg(fields, f, hops).Ok?
    ensures f.Name() in Reads(CallerArg(fields, f, hops).value)
    decreases f
  {
    if f.Ptr? {
      BufferArgReads(fields, f.field, hops);
    } else {
      CommandFieldNames(f);
    }
  }

  lemma {:induction false} ArgsRead(fields: seq<Field>, fs: seq<Field>, f: Field)
    requires CallerArgs(fields, fs).Ok? && forall g :: g in fs ==> g in fields
    ensures f in fs && f.Target().Buffer? ==> f.Name() in ReadsOfAll(CallerArgs(fields, fs).value)
    ensures ReadsOfAll(CallerArgs(fields, fs).value) <= ProtoNames(fields)
    decreases fs
  {
    if fs != [] {
      FieldIsKnown(fields, fs[0]);
      CallerArgIsKnown(fields, fs[0], |fields|);
      if fs[0].Target().Buffer? {
        BufferArgReads(fields, fs[0], |fields|);
      }
      ArgsRead(fields, fs[1..], f);
      assert CallerArgs(fields, fs).value[1..] == CallerArgs(fields, fs[1..]).value;
    }
  }

  lemma BlockReads(setups: seq<Stmt>, args: seq<Expr>)
    ensures ReadsOf([BindArgs] + setups + [Call(args)]) == ReadsOf(setups) + ReadsOfAll(args)
  {
    ReadsBoth([BindArgs] + setups, [Call(args)]);
    ReadsBoth([BindArgs], setups);
    assert [BindArgs][1..] == [] && [Call(args)][1..] == [];
    assert ReadsOf([Call(args)]) == ReadsOfAll(args) && ReadsOf([BindArgs]) == {};
  }

  /** The block reads exactly the fields that the proto message declares. */
  lemma EveryFieldIsRead(fields: seq<Field>)
    requires AllDistinct(fields) && CallerBlock(fields).Ok?
    ensures ReadsOf(CallerBlock(fields).value) == ProtoNames(fields)
  {
    var setups, args := Setups(fields, Order(fields)).value, CallerArgs(fields, fields).value;
    OrderIsDistinct(fields);
    forall f | f in Order(fields) ensures Known(fields, f) {
      FieldIsKnown(fields, f);
    }
    BlockReads(setups, args);
    hide Setups, CallerArgs, ReadsOf, ReadsOfAll, Order, Known;
    var none := Literal("", None, None, "");
    SetupsRead(fields, Order(fields), none);
    ArgsRead(fields, fields, none);
    forall f | f in fields && f.InProto() ensures f.Name() in ReadsOf(setups) + ReadsOfAll(args) {
      SetupsRead(fields, Order(fields), f);
      ArgsRead(fields, fields, f);
    }
  }
}
