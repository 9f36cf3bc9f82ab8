/** What a generated caller does with a message: every vector is as long as the
    size passed beside it. */
module CallerRun {
  import opened Wrappers
  import opened CallerCodegen
  import opened CallerScope

  // ----- Running the generated caller on a message

  /** `Made` is what a helper function makes of a message field, `Data` the pointer
      to what a buffer, string or vector holds, and `Code` a text of the
      definition that stands in the code as it is. */
  datatype Datum =
    | Number(n: int)
    | Bytes(length: nat)
    | Vector(elements: Datum)
    | Made(source: Datum)
    | Pointer(target: Datum)
    | Data(holder: Datum)
    | Code(text: string)
    | Opaque

  type Message = map<string, Datum>
  type Env = map<string, Datum>

  /** What the model leaves to the C++ side: the number that a cast, given by its
      text, makes of a number or shows behind a pointer, and the size of the
      string that a helper function makes. */
  datatype Runtime = Runtime(convert: (string, int) -> int, size: Datum -> int)

  function Converted(rt: Runtime, cast: string, d: Datum): Datum {
    match d
    case Number(n) => Number(rt.convert(cast, n))
    case Pointer(target) => Pointer(Converted(rt, cast, target))
    case _ => d
  }

  /** What the size of a holder is called on gives. */
  function SizeOfHolder(rt: Runtime, d: Datum): Datum {
    match d
    case Bytes(n) => Number(n)
    case Made(source) => Number(rt.size(source))
    case Vector(n) => n
    case _ => Opaque
  }

  /** The value of an expression; `None` for an unknown name or a zero divisor. */
  function Eval(rt: Runtime, e: Expr, msg: Message, env: Env): Option<Datum> {
    match e
    case Var(x) => if x in env then Some(env[x]) else None
    case Accessor(x) => if x in msg then Some(msg[x]) else None
    case Mod(e, cap) =>
      (match Eval(rt, e, msg, env)
       case None => None
       case Some(d) =>
         if cap == 0 then None
         else if d.Number? && d.n >= 0 && cap > 0 then Some(Number(d.n % cap))
         else Some(Opaque))
    case AddressOf(e) =>
      (match Eval(rt, e, msg, env)
       case None => None
       case Some(d) => Some(Pointer(d)))
    case DataOf(e) =>
      (match Eval(rt, e, msg, env)
       case None => None
       case Some(d) => Some(Data(d)))
    case SizeCall(e) =>
      (match Eval(rt, e, msg, env)
       case None => None
       case Some(d) => Some(SizeOfHolder(rt, d)))
    case Text(text) => Some(Code(text))
    case Cast(cast, e) =>
      (match Eval(rt, e, msg, env)
       case None => None
       case Some(d) => Some(Converted(rt, cast, d)))
  }

  function EvalAll(rt: Runtime, es: seq<Expr>, msg: Message, env: Env): (r: Option<seq<Datum>>)
    ensures r.Some? ==> |r.value| == |es| && forall i :: 0 <= i < |es| ==> Eval(rt, es[i], msg, env) == Some(r.value[i])
  {
    if es == [] then Some([])
    else
      var first, more := Eval(rt, es[0], msg, env), EvalAll(rt, es[1..], msg, env);
      if first.None? || more.None? then None else Some([first.value] + more.value)
  }

  /** The variables and the arguments at the call of the wrapper; `None` if a
      name is declared twice or an expression has no value. */
  function Exec(rt: Runtime, stmts: seq<Stmt>, msg: Message, env: Env): Option<(Env, seq<Datum>)> {
    if stmts == [] then None
    else
      match stmts[0]
      case BindArgs => if "args" in env then None else Exec(rt, stmts[1..], msg, env["args" := Opaque])
      case Declare(x) => if x in env then None else Exec(rt, stmts[1..], msg, env[x := Opaque])
      case DeclareInit(x, e) =>
        if x in env || Eval(rt, e, msg, env) == None then None
        else Exec(rt, stmts[1..], msg, env[x := Eval(rt, e, msg, env).value])
      case DeclareFrom(x, e) =>
        if x in env || Eval(rt, e, msg, env) == None then None
        else Exec(rt, stmts[1..], msg, env[x := Made(Eval(rt, e, msg, env).value)])
      case DeclareVector(x, e) =>
        if x in env || Eval(rt, e, msg, env) == None then None
        else Exec(rt, stmts[1..], msg, env[x := Vector(Eval(rt, e, msg, env).value)])
      case Call(args) =>
        match EvalAll(rt, args, msg, env)
        case None => None
        case Some(ds) => Some((env, ds))
  }

  /** The message has every declared field; buffers are byte strings, the others
      numbers or structures, and unsigned ones are not negative. */
  ghost predicate IsMessage(fields: seq<Field>, msg: Message) {
    && ProtoNames(fields) <= msg.Keys
    && forall f :: f in fields && f.InProto() ==> f.Name() in msg && Fits(f, msg[f.Name()])
  }

  ghost predicate Fits(f: Field, d: Datum) {
    if f.Target().Buffer? then d.Bytes?
    else if f.Target().Capped() then d.Number? && 0 <= d.n
    else d.Number? || d.Opaque?
  }

  ghost predicate CapsAreNonzero(fields: seq<Field>) {
    forall f :: f in fields ==> f.MaxValue() != Some(0)
  }

  ghost function CappedNumber(f: Field, msg: Message): Datum
    requires f.Target().Capped() && f.Name() in msg && msg[f.Name()].Number?
  {
    Number(msg[f.Name()].n % f.Target().maxValue.value)
  }

  /** Variables hold what their fields promise. */
  ghost predicate GoodEnv(fields: seq<Field>, msg: Message, env: Env)
    requires IsMessage(fields, msg) && SizesAreCapped(fields)
  {
    forall f :: f in fields && f.Name() in env ==> GoodVar(fields, msg, f, env[f.Name()])
  }

  ghost predicate GoodVar(fields: seq<Field>, msg: Message, f: Field, d: Datum)
    requires IsMessage(fields, msg) && SizesAreCapped(fields) && f in fields
  {
    && (f.Target().Capped() ==> d == CappedNumber(f, msg))
    && (IsSizedArray(f) ==>
          var size := FieldByName(fields, f.Target().sizeGivenBy.value).value;
          d == Vector(CappedNumber(size, msg)))
    && Holds(f, msg, d)
  }

  /** The message field of a field, reduced modulo the cap if it has one. */
  ghost function Reduced(f: Field, msg: Message): Datum
    requires f.Name() in msg
  {
    var d := msg[f.Name()];
    if f.MaxValue() == None then d
    else if d.Number? && d.n >= 0 && f.MaxValue().value > 0 then Number(d.n % f.MaxValue().value)
    else Opaque
  }

  /** The value of a variable, but for the length of a sized array. */
  ghost predicate Holds(f: Field, msg: Message, d: Datum) {
    var t := f.Target();
    if t.EmptyArray? then
      d.Vector? && (t.sizeGivenBy == None ==> t.fixedSize.Some? && d == Vector(Code(t.fixedSize.value)))
    else if t.Declared? then d == Opaque
    else f.Name() in msg && d == if t.Value? then Reduced(f, msg) else Made(Reduced(f, msg))
  }

  /** No expression divides by zero. */
  ghost predicate SafelyDivides(e: Expr) {
    match e
    case Var(_) => true
    case Accessor(_) => true
    case Mod(e, cap) => cap != 0 && SafelyDivides(e)
    case AddressOf(e) => SafelyDivides(e)
    case DataOf(e) => SafelyDivides(e)
    case SizeCall(e) => SafelyDivides(e)
    case Text(_) => true
    case Cast(_, e) => SafelyDivides(e)
  }

  lemma {:induction false} ScopedHasValue(rt: Runtime, e: Expr, msg: Message, env: Env)
    requires Uses(e) <= env.Keys && Reads(e) <= msg.Keys && SafelyDivides(e)
    ensures Eval(rt, e, msg, env).Some?
  {
    match e
    case Mod(e, _) => ScopedHasValue(rt, e, msg, env);
    case AddressOf(e) => ScopedHasValue(rt, e, msg, env);
    case DataOf(e) => ScopedHasValue(rt, e, msg, env);
    case SizeCall(e) => ScopedHasValue(rt, e, msg, env);
    case Cast(_, e) => ScopedHasValue(rt, e, msg, env);
    case _ =>
  }

  lemma {:induction false} CallerArgDivides(fields: seq<Field>, f: Field, hops: nat)
    requires CapsAreNonzero(fields) && f.MaxValue() != Some(0)
    ensures CallerArg(fields, f, hops).Ok? ==> SafelyDivides(CallerArg(fields, f, hops).value)
    ensures ValueExpr(fields, f, hops).Ok? ==> SafelyDivides(ValueExpr(fields, f, hops).value)
    ensures SizeExpr(fields, f, hops).Ok? ==> SafelyDivides(SizeExpr(fields, f, hops).value)
    decreases hops, f
  {
    if f.Ptr? {
      CallerArgDivides(fields, f.field, hops);
    } else {
      assert SafelyDivides(CommandField(f));
      if f.SizeOf? && hops > 0 && FieldByName(fields, f.container).Ok? {
        CallerArgDivides(fields, FieldByName(fields, f.container).value, hops - 1);
      }
    }
  }

  lemma {:induction false} SetupOfTarget(fields: seq<Field>, f: Field)
    ensures Setup(fields, f) == Setup(fields, f.Target())
    ensures !f.Target().Ptr? && f.Target().Name() == f.Name() && f.Target().MaxValue() == f.MaxValue()
    ensures f.Target().Target() == f.Target()
    decreases f
  {
    if f.Ptr? {
      SetupOfTarget(fields, f.field);
    }
  }

  /** Setting up one field that is ready declares its name with a good value. */
  lemma ExecSetup(rt: Runtime, fields: seq<Field>, f: Field, rest: seq<Stmt>, msg: Message,
      env: Env)
    returns (env': Env)
    requires AllDistinct(fields) && SizesAreCapped(fields) && CapsAreNonzero(fields) && IsMessage(fields, msg)
    requires f in fields && Setup(fields, f).Ok? && f.Name() !in env
    requires GoodEnv(fields, msg, env) && SetupUses(fields, f) <= env.Keys
    ensures Exec(rt, Setup(fields, f).value + rest, msg, env) == Exec(rt, rest, msg, env')
    ensures env'.Keys == env.Keys + DeclaredNames([f]) && GoodEnv(fields, msg, env')
  {
    SetupOfTarget(fields, f);
    OneDeclaredName(f);
    var t := f.Target();
    var setup := Setup(fields, f).value;
    if !f.Declares() {
      assert setup + rest == rest;
      env' := env;
    } else {
      assert (setup + rest)[0] == setup[0] && (setup + rest)[1..] == rest;
      var d := SetupValue(rt, fields, f, msg, env);
      env' := env[f.Name() := d];
      forall g | g in fields && g.Name() in env'
        ensures GoodVar(fields, msg, g, env'[g.Name()])
      {
        if g.Name() == f.Name() {
          SameNameSameField(fields, f, g);
        }
      }
    }
  }

  /** The statement declares the name with that value. */
  ghost predicate Gives(rt: Runtime, stmt: Stmt, name: string, d: Datum, msg: Message, env: Env) {
    match stmt
    case Declare(x) => x == name && d == Opaque
    case DeclareInit(x, e) => x == name && Eval(rt, e, msg, env) == Some(d)
    case DeclareFrom(x, e) => x == name && Eval(rt, e, msg, env).Some? && d == Made(Eval(rt, e, msg, env).value)
    case DeclareVector(x, e) => x == name && Eval(rt, e, msg, env).Some? && d == Vector(Eval(rt, e, msg, env).value)
    case _ => false
  }

  /** The value that the declaration of a field gives its variable. */
  lemma SetupValue(rt: Runtime, fields: seq<Field>, f: Field, msg: Message, env: Env) returns (d: Datum)
    requires SizesAreCapped(fields) && CapsAreNonzero(fields) && IsMessage(fields, msg)
    requires f in fields && f.Declares() && Setup(fields, f).Ok?
    requires GoodEnv(fields, msg, env) && SetupUses(fields, f) <= env.Keys
    ensures GoodVar(fields, msg, f, d)
    ensures |Setup(fields, f).value| == 1
    ensures Gives(rt, Setup(fields, f).value[0], f.Name(), d, msg, env)
  {
    SetupOfTarget(fields, f);
    FieldIsKnown(fields, f);
    var t := f.Target();
    d := Opaque;
    if t.EmptyArray? {
      var size := ArraySize(fields, t).value;
      if IsSizedArray(f) {
        CappedValue(fields, FieldByName(fields, t.sizeGivenBy.value).value, |fields|);
      }
      d := Vector(Eval(rt, size, msg, env).value);
    } else if !t.Declared? {
      CommandFieldNames(t);
      ScopedHasValue(rt, CommandField(t), msg, env);
      d := Eval(rt, CommandField(t), msg, env).value;
      if !t.Value? {
        d := Made(d);
      }
    }
  }

  lemma {:induction false} ExecSetups(rt: Runtime, fields: seq<Field>, order: seq<Field>, rest: seq<Stmt>,
      msg: Message, env: Env)
    returns (env': Env)
    requires AllDistinct(fields) && SizesAreCapped(fields) && CapsAreNonzero(fields) && IsMessage(fields, msg)
    requires (forall f :: f in order ==> f in fields && f.Name() !in env) && AllDistinct(order)
    requires Setups(fields, order).Ok? && GoodEnv(fields, msg, env) && Ready(fields, order, env.Keys)
    ensures Exec(rt, Setups(fields, order).value + rest, msg, env) == Exec(rt, rest, msg, env')
    ensures env'.Keys == env.Keys + DeclaredNames(order) && GoodEnv(fields, msg, env')
    decreases order
  {
    if order == [] {
      assert Setups(fields, order).value + rest == rest;
      env' := env;
    } else {
      hide Exec, Setup, GoodEnv, IsMessage, SizesAreCapped, CapsAreNonzero, SetupUses;
      var more := Setups(fields, order[1..]).value;
      assert Setups(fields, order).value + rest == Setup(fields, order[0]).value + (more + rest);
      var env1 := ExecSetup(rt, fields, order[0], more + rest, msg, env);
      OneDeclaredName(order[0]);
      env' := ExecSetups(rt, fields, order[1..], rest, msg, env1);
      DeclaredNamesSplit([order[0]], order[1..]);
      assert [order[0]] + order[1..] == order;
    }
  }

  lemma {:induction false} CallerArgsHaveValues(rt: Runtime, fields: seq<Field>, fs: seq<Field>, msg: Message, env: Env)
    requires (forall f :: f in fs ==> f in fields) && CallerArgs(fields, fs).Ok? && CapsAreNonzero(fields)
    requires DeclaredNames(fields) <= env.Keys && ProtoNames(fields) <= msg.Keys
    ensures EvalAll(rt, CallerArgs(fields, fs).value, msg, env).Some?
  {
    if fs != [] {
      var e := CallerArg(fields, fs[0], |fields|).value;
      FieldIsKnown(fields, fs[0]);
      CallerArgIsKnown(fields, fs[0], |fields|);
      CallerArgDivides(fields, fs[0], |fields|);
      ScopedHasValue(rt, e, msg, env);
      CallerArgsHaveValues(rt, fields, fs[1..], msg, env);
      var args := CallerArgs(fields, fs).value;
      assert args[1..] == CallerArgs(fields, fs[1..]).value;
    }
  }

  lemma {:induction false} CallerArgAt(fields: seq<Field>, fs: seq<Field>, j: nat)
    requires CallerArgs(fields, fs).Ok? && j < |fs|
    ensures CallerArg(fields, fs[j], |fields|).Ok?
    ensures CallerArgs(fields, fs).value[j] ==
      var e := CallerArg(fields, fs[j], |fields|).value; if fs[j].cast.Some? then Cast(fs[j].cast.value, e) else e
    decreases fs
  {
    if j > 0 {
      CallerArgAt(fields, fs[1..], j - 1);
    }
  }

  /** On every message the generated caller runs to its call. */
  lemma CallerRuns(rt: Runtime, fields: seq<Field>, msg: Message) returns (env: Env, args: seq<Datum>)
    requires DistinctNames(fields) && SizesAreCapped(fields) && CapsAreNonzero(fields) && PointedArraysFirst(fields)
    requires CallerBlock(fields).Ok? && IsMessage(fields, msg)
    ensures Exec(rt, CallerBlock(fields).value, msg, map[]) == Some((env, args))
    ensures CallerArgs(fields, fields).Ok? && EvalAll(rt, CallerArgs(fields, fields).value, msg, env) == Some(args)
    ensures GoodEnv(fields, msg, env) && DeclaredNames(fields) <= env.Keys
  {
    var call := [Call(CallerArgs(fields, fields).value)];
    var block := CallerBlock(fields).value;
    var env0: Env := map["args" := Opaque];
    assert block[1..] == Setups(fields, Order(fields)).value + call && map[]["args" := Opaque] == env0;
    assert env0.Keys == {"args"};
    OrderIsDistinct(fields);
    OrderIsReady(fields);
    env := ExecSetups(rt, fields, Order(fields), call, msg, env0);
    CallIsInScope(fields);
    CallerArgsHaveValues(rt, fields, fields, msg, env);
    args := EvalAll(rt, CallerArgs(fields, fields).value, msg, env).value;
  }
}
