/** Which generated callers are well formed: names are declared once and before
    their use, and only fields of the proto message are read. */
module CallerScope {
  import opened Wrappers
  import opened CallerCodegen

  // ----- Names: declared once, before use, and read only where the message has them

  ghost function Uses(e: Expr): set<string> {
    match e
    case Var(x) => {x}
    case Accessor(_) => {}
    case Mod(e, _) => Uses(e)
    case AddressOf(e) => Uses(e)
    case DataOf(e) => Uses(e)
    case SizeCall(e) => Uses(e)
    case Text(_) => {}
    case Cast(_, e) => Uses(e)
  }

  ghost function Reads(e: Expr): set<string> {
    match e
    case Var(_) => {}
    case Accessor(x) => {x}
    case Mod(e, _) => Reads(e)
    case AddressOf(e) => Reads(e)
    case DataOf(e) => Reads(e)
    case SizeCall(e) => Reads(e)
    case Text(_) => {}
    case Cast(_, e) => Reads(e)
  }

  /** Names are in scope, and accessors are fields of the message. */
  ghost predicate InScope(e: Expr, declared: set<string>, proto: set<string>) {
    Uses(e) <= declared && Reads(e) <= proto && (Reads(e) != {} ==> "args" in declared)
  }

  ghost predicate WellFormed(stmts: seq<Stmt>, declared: set<string>, proto: set<string>) {
    stmts != [] ==>
      match stmts[0]
      case BindArgs => "args" !in declared && WellFormed(stmts[1..], declared + {"args"}, proto)
      case Declare(x) => x !in declared && WellFormed(stmts[1..], declared + {x}, proto)
      case DeclareInit(x, e) =>
        x !in declared && InScope(e, declared, proto) && WellFormed(stmts[1..], declared + {x}, proto)
      case DeclareFrom(x, e) =>
        x !in declared && InScope(e, declared, proto) && WellFormed(stmts[1..], declared + {x}, proto)
      case DeclareVector(x, e) =>
        x !in declared && InScope(e, declared, proto) && WellFormed(stmts[1..], declared + {x}, proto)
      case Call(args) =>
        (forall e :: e in args ==> InScope(e, declared, proto)) && WellFormed(stmts[1..], declared, proto)
  }

  ghost function ProtoNames(fields: seq<Field>): set<string> {
    set f | f in fields && f.InProto() :: f.Name()
  }

  ghost function DeclaredNames(fields: seq<Field>): set<string> {
    set f | f in fields && f.Declares() :: f.Name()
  }

  ghost predicate DistinctNames(fields: seq<Field>) {
    && (forall i, j :: 0 <= i < j < |fields| ==> fields[i].Name() != fields[j].Name())
    && (forall f :: f in fields ==> f.Name() != "args")
  }

  /** What a field may mention: the variables and accessors of all fields. */
  ghost predicate Known(fields: seq<Field>, f: Field) {
    && (f.Declares() ==> f.Name() in DeclaredNames(fields))
    && (f.InProto() ==> f.Name() in ProtoNames(fields))
  }

  ghost predicate KnownExpr(fields: seq<Field>, e: Expr) {
    Uses(e) <= DeclaredNames(fields) && Reads(e) <= ProtoNames(fields)
  }

  lemma FieldIsKnown(fields: seq<Field>, f: Field)
    requires f in fields
    ensures Known(fields, f)
  {
  }

  lemma CommandFieldNames(f: Field)
    requires !f.Ptr?
    ensures Uses(CommandField(f)) == {} && Reads(CommandField(f)) == {f.name}
    ensures f.Target() == f && f.Name() == f.name
  {
  }

  lemma {:induction false} CallerArgIsKnown(fields: seq<Field>, f: Field, hops: nat)
    requires Known(fields, f)
    ensures CallerArg(fields, f, hops).Ok? ==> KnownExpr(fields, CallerArg(fields, f, hops).value)
    ensures ValueExpr(fields, f, hops).Ok? ==> KnownExpr(fields, ValueExpr(fields, f, hops).value)
    ensures SizeExpr(fields, f, hops).Ok? ==> KnownExpr(fields, SizeExpr(fields, f, hops).value)
    decreases hops, f
  {
    if !f.Ptr? {
      CommandFieldNames(f);
    }
    if f.Ptr? {
      CallerArgIsKnown(fields, f.field, hops);
    } else if f.SizeOf? && hops > 0 && FieldByName(fields, f.container).Ok? {
      var g := FieldByName(fields, f.container).value;
      FieldIsKnown(fields, g);
      CallerArgIsKnown(fields, g, hops - 1);
    }
  }

  /** The variables that the setup of a field mentions. */
  ghost function SetupUses(fields: seq<Field>, f: Field): set<string> {
    var t := f.Target();
    if t.EmptyArray? && ArraySize(fields, t).Ok? then Uses(ArraySize(fields, t).value) else {}
  }

  /** The setup of a field is one declaration of its name, or nothing. */
  lemma {:induction false} SetupIsOneDeclaration(fields: seq<Field>, f: Field, rest: seq<Stmt>, declared: set<string>)
    requires Known(fields, f) && Setup(fields, f).Ok? && "args" in declared
    ensures WellFormed(Setup(fields, f).value + rest, declared, ProtoNames(fields)) <==>
            if f.Declares() then
              f.Name() !in declared && SetupUses(fields, f) <= declared &&
              WellFormed(rest, declared + {f.Name()}, ProtoNames(fields))
            else WellFormed(rest, declared, ProtoNames(fields))
  {
    var setup := Setup(fields, f).value;
    if f.Ptr? {
      SetupIsOneDeclaration(fields, f.field, rest, declared);
    } else if !f.Declares() {
      assert setup + rest == rest;
    } else {
      CommandFieldNames(f);
      if f.EmptyArray? {
        ArraySizeIsKnown(fields, f);
      }
      assert (setup + rest)[0] == setup[0] && (setup + rest)[1..] == rest;
    }
  }

  lemma ArraySizeIsKnown(fields: seq<Field>, f: Field)
    requires f.EmptyArray? && ArraySize(fields, f).Ok?
    ensures KnownExpr(fields, ArraySize(fields, f).value)
  {
    if f.sizeGivenBy.Some? {
      var sizeField := FieldByName(fields, f.sizeGivenBy.value).value;
      FieldIsKnown(fields, sizeField);
      CallerArgIsKnown(fields, sizeField, |fields|);
    }
  }

  // ----- The order of the declarations

  /** In this order every setup mentions only what is declared before it. */
  ghost predicate Ready(fields: seq<Field>, order: seq<Field>, declared: set<string>) {
    order != [] ==>
      && SetupUses(fields, order[0]) <= declared
      && Ready(fields, order[1..], declared + DeclaredNames([order[0]]))
  }

  ghost predicate AllDistinct(order: seq<Field>) {
    forall i, j :: 0 <= i < j < |order| ==> order[i].Name() != order[j].Name()
  }

  lemma DeclaredNamesSplit(a: seq<Field>, b: seq<Field>)
    ensures DeclaredNames(a + b) == DeclaredNames(a) + DeclaredNames(b)
  {
    assert forall f :: f in a + b <==> f in a || f in b;
  }

  lemma {:induction false} ReadyBoth(fields: seq<Field>, a: seq<Field>, b: seq<Field>, declared: set<string>)
    ensures Ready(fields, a + b, declared) <==>
            Ready(fields, a, declared) && Ready(fields, b, declared + DeclaredNames(a))
    decreases a
  {
    if a == [] {
      assert a + b == b && declared + DeclaredNames(a) == declared;
    } else {
      var declared' := declared + DeclaredNames([a[0]]);
      ReadyBoth(fields, a[1..], b, declared');
      assert (a + b)[1..] == a[1..] + b;
      DeclaredNamesSplit([a[0]], a[1..]);
      assert [a[0]] + a[1..] == a;
      assert declared' + DeclaredNames(a[1..]) == declared + DeclaredNames(a);
    }
  }

  lemma {:induction false} SetupsAreReady(fields: seq<Field>, order: seq<Field>, rest: seq<Stmt>, declared: set<string>)
    requires (forall f :: f in order ==> f in fields && f.Name() !in declared) && AllDistinct(order)
    requires Setups(fields, order).Ok? && "args" in declared
    ensures WellFormed(Setups(fields, order).value + rest, declared, ProtoNames(fields)) <==>
            Ready(fields, order, declared) && WellFormed(rest, declared + DeclaredNames(order), ProtoNames(fields))
    decreases order
  {
    if order == [] {
      assert Setups(fields, order).value + rest == rest && declared + DeclaredNames(order) == declared;
    } else {
      var f := order[0];
      var more := Setups(fields, order[1..]).value;
      var declared' := declared + DeclaredNames([f]);
      FieldIsKnown(fields, f);
      SetupIsOneDeclaration(fields, f, more + rest, declared);
      assert Setups(fields, order).value + rest == Setup(fields, f).value + (more + rest);
      OneDeclaredName(f);
      SetupsAreReady(fields, order[1..], rest, declared');
      DeclaredNamesSplit([f], order[1..]);
      assert [f] + order[1..] == order;
      assert declared' + DeclaredNames(order[1..]) == declared + DeclaredNames(order);
      assert declared' == if f.Declares() then declared + {f.Name()} else declared;
    }
  }

  lemma OneDeclaredName(f: Field)
    ensures DeclaredNames([f]) == if f.Declares() then {f.Name()} else {}
    ensures !f.Declares() ==> forall fields :: SetupUses(fields, f) == {}
  {
    assert f in [f];
  }

  lemma {:induction false} PassMembers(fields: seq<Field>, dependent: bool)
    ensures forall f :: f in Pass(fields, dependent) <==> f in fields && f.HasDependency() == dependent
  {
    if fields != [] {
      PassMembers(fields[1..], dependent);
    }
  }

  lemma DistinctBoth(a: seq<Field>, b: seq<Field>)
    requires AllDistinct(a) && AllDistinct(b)
    requires forall f, g :: f in a && g in b ==> f.Name() != g.Name()
    ensures AllDistinct(a + b)
  {
    forall i, j | 0 <= i < j < |a + b|
      ensures (a + b)[i].Name() != (a + b)[j].Name()
    {
      if i < |a| <= j {
        assert (a + b)[i] in a && (a + b)[j] in b;
      }
    }
  }

  lemma SameNameSameField(fields: seq<Field>, f: Field, g: Field)
    requires AllDistinct(fields) && f in fields && g in fields && f.Name() == g.Name()
    ensures f == g
  {
    var i :| 0 <= i < |fields| && fields[i] == f;
    var j :| 0 <= j < |fields| && fields[j] == g;
  }

  lemma {:induction false} PassIsDistinct(fields: seq<Field>, dependent: bool)
    requires AllDistinct(fields)
    ensures AllDistinct(Pass(fields, dependent))
  {
    if fields != [] {
      PassIsDistinct(fields[1..], dependent);
      PassMembers(fields[1..], dependent);
      forall f | f in fields[1..]
        ensures f.Name() != fields[0].Name()
      {
      }
      DistinctBoth(Pass(fields[1..], dependent), if fields[0].HasDependency() == dependent then [fields[0]] else []);
    }
  }

  lemma OrderIsDistinct(fields: seq<Field>)
    requires AllDistinct(fields)
    ensures AllDistinct(Order(fields))
    ensures forall f :: f in Order(fields) <==> f in fields
  {
    PassIsDistinct(fields, false);
    PassIsDistinct(fields, true);
    PassMembers(fields, false);
    PassMembers(fields, true);
    forall f, g | f in Pass(fields, false) && g in Pass(fields, true)
      ensures f.Name() != g.Name()
    {
      if f.Name() == g.Name() {
        SameNameSameField(fields, f, g);
      }
    }
    DistinctBoth(Pass(fields, false), Pass(fields, true));
  }

  /** In one pass a field is set up after exactly the later ones of that pass. */
  lemma {:induction false} PassIsReady(fields: seq<Field>, fs: seq<Field>, dependent: bool, declared: set<string>)
    ensures Ready(fields, Pass(fs, dependent), declared) <==>
            forall i :: 0 <= i < |fs| && fs[i].HasDependency() == dependent ==>
              SetupUses(fields, fs[i]) <= declared + DeclaredNames(Pass(fs[i + 1..], dependent))
    decreases fs
  {
    hide SetupUses, DeclaredNames;
    if fs != [] {
      var first := if fs[0].HasDependency() == dependent then [fs[0]] else [];
      var later := Pass(fs[1..], dependent);
      ReadyBoth(fields, later, first, declared);
      PassIsReady(fields, fs[1..], dependent, declared);
      assert forall i :: 1 <= i < |fs| ==> fs[i] == fs[1..][i - 1] && fs[i + 1..] == fs[1..][i..];
      assert forall i :: 0 <= i < |fs| - 1 ==> fs[1..][i] == fs[i + 1] && fs[1..][i + 1..] == fs[i + 2..];
    }
  }

  // ----- When the generated caller is well formed

  ghost predicate IsSizedArray(f: Field) {
    f.Target().EmptyArray? && f.Target().sizeGivenBy.Some?
  }

  /** The size of every sized array is given by a capped unsigned field, or a pointer to one. */
  ghost predicate SizesAreCapped(fields: seq<Field>) {
    forall f :: f in fields && IsSizedArray(f) ==>
      var size := FieldByName(fields, f.Target().sizeGivenBy.value);
      size.Ok? && size.value.Target().Capped()
  }

  lemma {:induction false} CappedValue(fields: seq<Field>, f: Field, hops: nat)
    requires f.Target().Capped()
    ensures ValueExpr(fields, f, hops) == Ok(Var(f.Name()))
    ensures f.Declares() && f.InProto() && !f.HasDependency() && f.MaxValue() == f.Target().maxValue
    decreases f
  {
    if f.Ptr? {
      CappedValue(fields, f.field, hops);
    }
  }

  lemma SizedArrayUses(fields: seq<Field>, f: Field)
    requires SizesAreCapped(fields) && f in fields
    ensures SetupUses(fields, f) == if IsSizedArray(f) then {f.Target().sizeGivenBy.value} else {}
  {
    if IsSizedArray(f) {
      CappedValue(fields, FieldByName(fields, f.Target().sizeGivenBy.value).value, |fields|);
    }
  }

  /** Behind a pointer, a sized array is set up among the fields without
      dependency; its size must then come later in the list. */
  ghost predicate PointedArraysFirst(fields: seq<Field>) {
    forall i, j :: 0 <= i < |fields| && 0 <= j < |fields| && SizesPointed(fields[i], fields[j]) ==> i < j
  }

  /** `size` gives the size of the array `f`, or of the one `f` points to. */
  ghost predicate Sizes(f: Field, size: Field) {
    IsSizedArray(f) && f.Target().sizeGivenBy == Some(size.Name())
  }

  ghost predicate SizesPointed(f: Field, size: Field) {
    f.Ptr? && Sizes(f, size)
  }

  /** In the first pass, a field is ready if it needs no size, or a later one. */
  lemma FirstPassField(fields: seq<Field>, i: nat)
    requires DistinctNames(fields) && SizesAreCapped(fields) && i < |fields| && !fields[i].HasDependency()
    ensures SetupUses(fields, fields[i]) <= {"args"} + DeclaredNames(Pass(fields[i + 1..], false)) <==>
            forall j :: 0 <= j < |fields| && SizesPointed(fields[i], fields[j]) ==> i < j
  {
    SizedArrayUses(fields, fields[i]);
    PassMembers(fields[i + 1..], false);
    if IsSizedArray(fields[i]) {
      var s := fields[i].Target().sizeGivenBy.value;
      var g := FieldByName(fields, s).value;
      CappedValue(fields, g, 0);
      var k :| 0 <= k < |fields| && fields[k] == g;
      assert forall j :: 0 <= j < |fields| && fields[j].Name() == s ==> j == k;
      if i < k {
        assert g == fields[i + 1..][k - i - 1];
        assert g in Pass(fields[i + 1..], false);
      } else {
        forall f | f in fields[i + 1..]
          ensures f.Name() != s
        {
          var j :| i + 1 <= j < |fields| && fields[j] == f;
        }
      }
      assert s != "args";
    }
  }

  lemma FirstPassIsReady(fields: seq<Field>)
    requires DistinctNames(fields) && SizesAreCapped(fields)
    ensures Ready(fields, Pass(fields, false), {"args"}) <==> PointedArraysFirst(fields)
  {
    PassIsReady(fields, fields, false, {"args"});
    forall i: nat | i < |fields| && !fields[i].HasDependency()
      ensures SetupUses(fields, fields[i]) <= {"args"} + DeclaredNames(Pass(fields[i + 1..], false)) <==>
              forall j :: 0 <= j < |fields| && SizesPointed(fields[i], fields[j]) ==> i < j
    {
      FirstPassField(fields, i);
    }
  }

  lemma SecondPassIsReady(fields: seq<Field>)
    requires DistinctNames(fields) && SizesAreCapped(fields)
    ensures Ready(fields, Pass(fields, true), {"args"} + DeclaredNames(Pass(fields, false)))
  {
    var declared := {"args"} + DeclaredNames(Pass(fields, false));
    PassMembers(fields, false);
    forall i | 0 <= i < |fields| && fields[i].HasDependency()
      ensures SetupUses(fields, fields[i]) <= declared
    {
      SizedArrayUses(fields, fields[i]);
      var g := FieldByName(fields, fields[i].sizeGivenBy.value).value;
      CappedValue(fields, g, 0);
      assert g in Pass(fields, false);
    }
    PassIsReady(fields, fields, true, declared);
  }

  lemma {:induction false} CallerArgsAreKnown(fields: seq<Field>, fs: seq<Field>)
    requires (forall f :: f in fs ==> f in fields) && CallerArgs(fields, fs).Ok?
    ensures forall e :: e in CallerArgs(fields, fs).value ==> KnownExpr(fields, e)
  {
    if fs != [] {
      FieldIsKnown(fields, fs[0]);
      CallerArgIsKnown(fields, fs[0], |fields|);
      CallerArgsAreKnown(fields, fs[1..]);
    }
  }

  /** The generated block declares every name once and before its use, and reads
      only fields that the proto message declares, exactly if every sized array
      behind a pointer comes before the field that gives its size. */
  lemma CallerIsWellFormed(fields: seq<Field>)
    requires DistinctNames(fields) && SizesAreCapped(fields) && CallerBlock(fields).Ok?
    ensures WellFormed(CallerBlock(fields).value, {}, ProtoNames(fields)) <==> PointedArraysFirst(fields)
  {
    var call := [Call(CallerArgs(fields, fields).value)];
    var block := CallerBlock(fields).value;
    assert block[1..] == Setups(fields, Order(fields)).value + call && {} + {"args"} == {"args"};
    OrderIsDistinct(fields);
    SetupsAreReady(fields, Order(fields), call, {"args"});
    OrderIsReady(fields);
    CallIsInScope(fields);
  }

  lemma OrderIsReady(fields: seq<Field>)
    requires DistinctNames(fields) && SizesAreCapped(fields)
    ensures Ready(fields, Order(fields), {"args"}) <==> PointedArraysFirst(fields)
  {
    ReadyBoth(fields, Pass(fields, false), Pass(fields, true), {"args"});
    FirstPassIsReady(fields);
    SecondPassIsReady(fields);
  }

  lemma CallIsInScope(fields: seq<Field>)
    requires DistinctNames(fields) && CallerArgs(fields, fields).Ok?
    ensures var declared := {"args"} + DeclaredNames(Order(fields));
      WellFormed([Call(CallerArgs(fields, fields).value)], declared, ProtoNames(fields))
    ensures DeclaredNames(Order(fields)) == DeclaredNames(fields)
  {
    CallerArgsAreKnown(fields, fields);
    OrderIsDistinct(fields);
    assert [Call(CallerArgs(fields, fields).value)][1..] == [];
  }

  // ----- What the generator refuses

  /** Why a field cannot be generated: nothing has the name of its size or of its
      container, or it is an array whose size has no cap or that has no size. */
  function Fault(fields: seq<Field>, f: Field): Option<GenError> {
    var t := f.Target();
    if t.EmptyArray? && t.sizeGivenBy.Some? then
      (if forall g | g in fields :: g.Name() != t.sizeGivenBy.value then Some(KeyError)
       else if forall g | g in fields :: g.Name() == t.sizeGivenBy.value ==> g.MaxValue() == None then Some(ValueError)
       else None)
    else if t.EmptyArray? && t.fixedSize == None then Some(ValueError)
    else if t.SizeOf? && forall g | g in fields :: g.Name() != t.container then Some(KeyError)
    else None
  }

  /** No array is sized by, and no `SizeOf` is of, a field that is a `SizeOf`. */
  ghost predicate NoChains(fields: seq<Field>) {
    forall f, g :: f in fields && g in fields && g.Target().SizeOf? ==> !Refers(f, g)
  }

  ghost predicate Refers(f: Field, g: Field) {
    var t := f.Target();
    (t.EmptyArray? && t.sizeGivenBy == Some(g.Name())) || (t.SizeOf? && t.container == g.Name())
  }

  lemma {:induction false} PlainArgWorks(fields: seq<Field>, f: Field, hops: nat)
    requires !f.Target().SizeOf?
    ensures CallerArg(fields, f, hops).Ok? && ValueExpr(fields, f, hops).Ok? && SizeExpr(fields, f, hops).Ok?
    decreases f
  {
    if f.Ptr? {
      PlainArgWorks(fields, f.field, hops);
    }
  }

  lemma {:induction false} SizeArgFails(fields: seq<Field>, f: Field, hops: nat)
    requires f.Target().SizeOf? && hops > 0
    requires forall g :: g in fields && g.Name() == f.Target().container ==> !g.Target().SizeOf?
    ensures CallerArg(fields, f, hops).Err? <==> Fault(fields, f).Some?
    ensures CallerArg(fields, f, hops).Err? ==> CallerArg(fields, f, hops).error == Fault(fields, f).value
    decreases f
  {
    if f.Ptr? {
      SizeArgFails(fields, f.field, hops);
    } else if FieldByName(fields, f.container).Ok? {
      PlainArgWorks(fields, FieldByName(fields, f.container).value, hops - 1);
    }
  }

  lemma {:induction false} SetupFails(fields: seq<Field>, f: Field)
    requires AllDistinct(fields) && forall g :: g in fields && Refers(f, g) ==> !g.Target().SizeOf?
    ensures Setup(fields, f).Err? <==> Fault(fields, f).Some? && !f.Target().SizeOf?
    ensures Setup(fields, f).Err? ==> Setup(fields, f).error == Fault(fields, f).value
    decreases f
  {
    if f.Ptr? {
      SetupFails(fields, f.field);
    } else if f.EmptyArray? && f.sizeGivenBy.Some? && FieldByName(fields, f.sizeGivenBy.value).Ok? {
      var g := FieldByName(fields, f.sizeGivenBy.value).value;
      PlainArgWorks(fields, g, |fields|);
      forall h | h in fields && h.Name() == g.Name() ensures h == g {
        SameNameSameField(fields, g, h);
      }
    }
  }

  lemma {:induction false} SetupsFail(fields: seq<Field>, order: seq<Field>)
    requires AllDistinct(fields) && NoChains(fields) && forall f :: f in order ==> f in fields
    ensures Setups(fields, order).Ok? <==> forall f :: f in order && Fault(fields, f).Some? ==> f.Target().SizeOf?
    ensures Setups(fields, order).Err? ==>
      exists i :: 0 <= i < |order| && FirstFault(fields, order, i)
        && Setups(fields, order).error == Fault(fields, order[i]).value
    decreases order
  {
    if order != [] {
      SetupFails(fields, order[0]);
      SetupsFail(fields, order[1..]);
      if Setup(fields, order[0]).Err? {
        assert FirstFault(fields, order, 0);
      } else if Setups(fields, order[1..]).Err? {
        var i :| 0 <= i < |order| - 1 && FirstFault(fields, order[1..], i)
          && Setups(fields, order[1..]).error == Fault(fields, order[1..][i]).value;
        assert FirstFault(fields, order, i + 1);
      }
    }
  }

  /** The first field in the order of the setups whose own setup fails. */
  ghost predicate FirstFault(fields: seq<Field>, order: seq<Field>, i: nat)
    requires i < |order|
  {
    SetupFault(fields, order[i]) && forall j :: 0 <= j < i ==> !SetupFault(fields, order[j])
  }

  ghost predicate SetupFault(fields: seq<Field>, f: Field) {
    Fault(fields, f).Some? && !f.Target().SizeOf?
  }

  lemma {:induction false} ArgsFail(fields: seq<Field>, fs: seq<Field>)
    requires NoChains(fields) && forall f :: f in fs ==> f in fields
    ensures CallerArgs(fields, fs).Ok? <==> forall f :: f in fs && f.Target().SizeOf? ==> Fault(fields, f) == None
    ensures CallerArgs(fields, fs).Err? ==> CallerArgs(fields, fs).error == KeyError
    decreases fs
  {
    if fs != [] {
      if fs[0].Target().SizeOf? {
        assert forall g :: g in fields && g.Name() == fs[0].Target().container ==> Refers(fs[0], g);
        SizeArgFails(fields, fs[0], |fields|);
      } else {
        PlainArgWorks(fields, fs[0], |fields|);
      }
      ArgsFail(fields, fs[1..]);
    }
  }

  /** The generator fails exactly if some field cannot be generated, with the error
      of the first such field in the order of the setups, or else, for a `SizeOf`,
      with a KeyError. */
  lemma BlockFails(fields: seq<Field>)
    requires AllDistinct(fields) && NoChains(fields)
    ensures CallerBlock(fields).Ok? <==> forall f :: f in fields ==> Fault(fields, f) == None
    ensures CallerBlock(fields).Err? ==>
      || (exists i :: 0 <= i < |Order(fields)| && FirstFault(fields, Order(fields), i)
           && CallerBlock(fields).error == Fault(fields, Order(fields)[i]).value)
      || ((forall f :: f in fields ==> !SetupFault(fields, f)) && CallerBlock(fields).error == KeyError)
  {
    hide Fault, NoChains;
    OrderIsDistinct(fields);
    SetupsFail(fields, Order(fields));
    ArgsFail(fields, fields);
  }

  /** A `SizeOf` of itself is never resolved. */
  lemma {:induction false} OwnSizeNeverEnds(fields: seq<Field>, f: Field, hops: nat)
    requires f.SizeOf? && FieldByName(fields, f.container) == Ok(f)
    ensures CallerArg(fields, f, hops) == Err(RecursionError)
    decreases hops
  {
    if hops > 0 {
      OwnSizeNeverEnds(fields, f, hops - 1);
      assert SizeExpr(fields, f, hops - 1) == ValueExpr(fields, f, hops - 1);
    }
  }

  /** A pointer to an array after the count that sizes it: the vector is set up
      before the count is declared. */
  lemma PointedArrayTooLate(cap: int)
    requires cap > 0
    ensures
      var size := Value("n", None, Some(cap), Unsigned);
      var fields := [size, Ptr(None, EmptyArray("a", None, None, Some("n"), None))];
      CallerBlock(fields).Ok? && !WellFormed(CallerBlock(fields).value, {}, ProtoNames(fields))
  {
    var size := Value("n", None, Some(cap), Unsigned);
    var sized := EmptyArray("a", None, None, Some("n"), None);
    var fields := [size, Ptr(None, sized)];
    assert FieldByName(fields, "n") == Ok(size);
    assert SizesAreCapped(fields) && DistinctNames(fields);
    assert fields[1..] == [Ptr(None, sized)] && fields[1..][1..] == [];
    CappedValue(fields, size, |fields|);
    assert ArraySize(fields, sized) == Ok(Var("n"));
    LatePasses(fields);
    assert SizesPointed(fields[1], fields[0]) && !PointedArraysFirst(fields);
    CallerIsWellFormed(fields);
  }

  /** Two fields that are both set up in the first pass, the second one first. */
  lemma LatePasses(fields: seq<Field>)
    requires |fields| == 2 && fields[0].Value? && fields[1].Ptr? && fields[1].field.EmptyArray?
    requires ArraySize(fields, fields[1].field).Ok?
    ensures CallerBlock(fields).Ok?
  {
    assert fields[1..] == [fields[1]] && fields[1..][1..] == [];
    assert Pass([fields[1]], false) == [fields[1]] && Pass([fields[1]], true) == [];
    assert Pass(fields, false) == [fields[1], fields[0]] && Pass(fields, true) == [];
    assert Order(fields) == [fields[1], fields[0]];
    assert Order(fields)[1..] == [fields[0]] && Order(fields)[1..][1..] == [];
    assert Setup(fields, fields[1].field).Ok? && Setup(fields, fields[1]) == Setup(fields, fields[1].field);
    assert Setups(fields, [fields[0]]).Ok?;
    assert Setups(fields, Order(fields)).Ok?;
    assert CallerArg(fields, fields[1].field, 2).Ok? && CallerArg(fields, fields[1], 2).Ok?;
    assert CallerArg(fields, fields[0], 2).Ok? && CallerArgs(fields, []).Ok?;
    assert CallerArgs(fields, [fields[1]]).Ok? && CallerArgs(fields, fields).Ok?;
  }

  // ----- The proto message

  datatype ProtoEntry = ProtoEntry(name: string, number: nat)

  /** The names of the fields that have an entry in the proto message, in order. */
  function ProtoList(fields: seq<Field>): seq<string> {
    if fields == [] then []
    else
      var last := fields[|fields| - 1];
      ProtoList(fields[..|fields| - 1]) + (if last.InProto() then [last.Name()] else [])
  }

  /** They are the names that the callers may read, and without repetition. */
  lemma {:induction false} ProtoListNames(fields: seq<Field>)
    ensures forall x :: x in ProtoList(fields) <==> x in ProtoNames(fields)
    ensures AllDistinct(fields) ==>
              forall i, j :: 0 <= i < j < |ProtoList(fields)| ==> ProtoList(fields)[i] != ProtoList(fields)[j]
  {
    if fields != [] {
      var init, last := fields[..|fields| - 1], fields[|fields| - 1];
      ProtoListNames(init);
      assert forall f :: f in fields <==> f in init || f == last;
      if AllDistinct(fields) {
        assert forall f :: f in init ==> f.Name() != last.Name();
        assert last.Name() !in ProtoList(init);
        assert forall i :: 0 <= i < |ProtoList(init)| ==> ProtoList(init)[i] in ProtoList(init);
      }
    }
  }

  /** How many of the first fields have an entry. */
  function EntriesBefore(fields: seq<Field>, i: nat): nat
    requires i <= |fields|
  {
    if i == 0 then 0 else EntriesBefore(fields, i - 1) + if fields[i - 1].InProto() then 1 else 0
  }

  /** The entry of a field comes after those of the fields before it. */
  lemma {:induction false} ProtoListOrder(fields: seq<Field>, i: nat)
    requires i < |fields| && fields[i].InProto()
    ensures EntriesBefore(fields, i) < |ProtoList(fields)|
    ensures ProtoList(fields)[EntriesBefore(fields, i)] == fields[i].Name()
    decreases |fields|
  {
    var n := |fields| - 1;
    ProtoListLength(fields, n);
    EntriesOfPrefix(fields, n, i);
    if i < n {
      ProtoListOrder(fields[..n], i);
    }
  }

  lemma {:induction false} EntriesOfPrefix(fields: seq<Field>, n: nat, i: nat)
    requires i <= n <= |fields|
    ensures EntriesBefore(fields[..n], i) == EntriesBefore(fields, i)
  {
    if i > 0 {
      EntriesOfPrefix(fields, n, i - 1);
    }
  }

  lemma {:induction false} ProtoListLength(fields: seq<Field>, n: nat)
    requires n <= |fields|
    ensures |ProtoList(fields[..n])| == EntriesBefore(fields, n)
  {
    if n > 0 {
      ProtoListLength(fields, n - 1);
      assert fields[..n][..n - 1] == fields[..n - 1];
    }
  }

  /** The entries of the proto message, numbered from one without gaps. */
  method ProtoMessageBody(fields: seq<Field>) returns (body: seq<ProtoEntry>)
    ensures |body| == |ProtoList(fields)|
    ensures forall k :: 0 <= k < |body| ==> body[k] == ProtoEntry(ProtoList(fields)[k], k + 1)
  {
    body := [];
    var number := 1;
    for i := 0 to |fields|
      invariant |body| == |ProtoList(fields[..i])| && number == |body| + 1
      invariant forall k :: 0 <= k < |body| ==> body[k] == ProtoEntry(ProtoList(fields[..i])[k], k + 1)
    {
      assert fields[..i + 1][..i] == fields[..i];
      if fields[i].InProto() {
        body := body + [ProtoEntry(fields[i].Name(), number)];
        number := number + 1;
      }
    }
    assert fields[..|fields|] == fields;
  }
}
