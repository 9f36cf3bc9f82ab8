/** Writing the proto file: every definition is looked up in the index of the
    kernel's list, and the messages and oneof fields come out by number. */
module ProtoOrder {
  import opened Wrappers
  import opened UpstreamFilter

  /** A definition, and the text of its message where it can be generated. */
  datatype Definition = Definition(name: string, message: Option<string>)

  datatype Field = Field(name: string, number: int)

  datatype Protos = Protos(messages: seq<string>, fields: seq<Field>)

  datatype WriteError = NotFound(missing: nat) | NotGenerated(name: string)

  type Index = map<string, Syscall>

  // ----- The index of the kernel's list

  function LastNamed(syscalls: seq<Syscall>, name: string): Option<Syscall> {
    if syscalls == [] then None
    else if syscalls[|syscalls| - 1].name == name then Some(syscalls[|syscalls| - 1])
    else LastNamed(syscalls[..|syscalls| - 1], name)
  }

  predicate Indexes(index: Index, syscalls: seq<Syscall>) {
    && (forall name :: name in index ==> LastNamed(syscalls, name) == Some(index[name]))
    && (forall s :: s in syscalls ==> s.name in index)
  }

  /** An entry that comes later replaces one of the same name. */
  method BuildIndex(syscalls: seq<Syscall>) returns (index: Index)
    ensures Indexes(index, syscalls)
  {
    index := map[];
    for i := 0 to |syscalls|
      invariant Indexes(index, syscalls[..i])
    {
      assert syscalls[..i + 1][..i] == syscalls[..i];
      index := index[syscalls[i].name := syscalls[i]];
    }
    assert syscalls[..|syscalls|] == syscalls;
  }

  // ----- Sorting by number

  function Number(d: Definition, index: Index): int {
    if d.name in index then index[d.name].number else 0
  }

  /** Python's stable sort, by insertion from the right. */
  function Sort(list: seq<Definition>, index: Index): (r: seq<Definition>)
    ensures |r| == |list|
  {
    if list == [] then [] else Insert(list[0], Sort(list[1..], index), index)
  }

  function Insert(d: Definition, list: seq<Definition>, index: Index): (r: seq<Definition>)
    ensures |r| == |list| + 1
  {
    if list == [] || Number(d, index) <= Number(list[0], index) then [d] + list
    else [list[0]] + Insert(d, list[1..], index)
  }

  predicate Ordered(list: seq<Definition>, index: Index) {
    forall i, j :: 0 <= i < j < |list| ==> Number(list[i], index) <= Number(list[j], index)
  }

  function WithNumber(list: seq<Definition>, index: Index, n: int): seq<Definition> {
    if list == [] then []
    else if Number(list[0], index) == n then [list[0]] + WithNumber(list[1..], index, n)
    else WithNumber(list[1..], index, n)
  }

  lemma {:induction false} InsertKeeps(d: Definition, list: seq<Definition>, index: Index)
    ensures multiset(Insert(d, list, index)) == multiset([d]) + multiset(list)
  {
    if !(list == [] || Number(d, index) <= Number(list[0], index)) {
      InsertKeeps(d, list[1..], index);
      assert list == [list[0]] + list[1..];
    }
  }

  lemma {:induction false} InsertOrdered(d: Definition, list: seq<Definition>, index: Index)
    requires Ordered(list, index)
    ensures Ordered(Insert(d, list, index), index)
  {
    if !(list == [] || Number(d, index) <= Number(list[0], index)) {
      InsertOrdered(d, list[1..], index);
      InsertKeeps(d, list[1..], index);
      var rest := Insert(d, list[1..], index);
      forall j | 0 <= j < |rest| ensures Number(list[0], index) <= Number(rest[j], index) {
        assert rest[j] in multiset(rest);
        assert rest[j] == d || rest[j] in list[1..];
      }
    }
  }

  lemma {:induction false} SortOrders(list: seq<Definition>, index: Index)
    ensures Ordered(Sort(list, index), index)
    ensures multiset(Sort(list, index)) == multiset(list)
  {
    if list != [] {
      SortOrders(list[1..], index);
      InsertOrdered(list[0], Sort(list[1..], index), index);
      InsertKeeps(list[0], Sort(list[1..], index), index);
      assert list == [list[0]] + list[1..];
    }
  }

  lemma {:induction false} InsertStable(d: Definition, list: seq<Definition>, index: Index, n: int)
    requires Ordered(list, index)
    ensures WithNumber(Insert(d, list, index), index, n) == WithNumber([d] + list, index, n)
  {
    assert ([d] + list)[1..] == list;
    if !(list == [] || Number(d, index) <= Number(list[0], index)) {
      InsertStable(d, list[1..], index, n);
      assert ([d] + list[1..])[1..] == list[1..];
      assert Insert(d, list, index)[1..] == Insert(d, list[1..], index);
    }
  }

  lemma {:induction false} SortStable(list: seq<Definition>, index: Index, n: int)
    ensures WithNumber(Sort(list, index), index, n) == WithNumber(list, index, n)
  {
    if list != [] {
      SortOrders(list[1..], index);
      SortStable(list[1..], index, n);
      var rest := Sort(list[1..], index);
      InsertStable(list[0], rest, index, n);
      assert ([list[0]] + rest)[1..] == rest;
    }
  }

  // ----- Rendering

  function Missing(list: seq<Definition>, index: Index): nat {
    if list == [] then 0 else (if list[0].name in index then 0 else 1) + Missing(list[1..], index)
  }

  function Render(sorted: seq<Definition>, index: Index): Result<Protos, WriteError> {
    if sorted == [] then Ok(Protos([], []))
    else if sorted[0].message.None? then Err(NotGenerated(sorted[0].name))
    else
      var rest :- Render(sorted[1..], index);
      Ok(Protos([sorted[0].message.value] + rest.messages,
                [Field(sorted[0].name, Number(sorted[0], index))] + rest.fields))
  }

  function Written(list: seq<Definition>, index: Index): Result<Protos, WriteError> {
    if Missing(list, index) > 0 then Err(NotFound(Missing(list, index))) else Render(Sort(list, index), index)
  }

  lemma {:induction false} MissingOne(list: seq<Definition>, index: Index, d: Definition)
    ensures Missing(list + [d], index) == Missing(list, index) + if d.name in index then 0 else 1
  {
    if list == [] {
      assert [d][1..] == [];
    } else {
      assert (list + [d])[1..] == list[1..] + [d];
      MissingOne(list[1..], index, d);
    }
  }

  lemma {:induction false} RenderOne(done: seq<Definition>, index: Index, d: Definition)
    requires Render(done, index).Ok? && d.message.Some?
    ensures Render(done + [d], index) ==
      Ok(Protos(Render(done, index).value.messages + [d.message.value],
                Render(done, index).value.fields + [Field(d.name, Number(d, index))]))
  {
    if done == [] {
      assert done + [d] == [d] && [d][1..] == [];
      var x, y := d.message.value, Field(d.name, Number(d, index));
      assert [] + [x] == [x] + [] && [] + [y] == [y] + [];
    } else {
      RenderOne(done[1..], index, d);
      assert (done + [d])[1..] == done[1..] + [d];
      var all, rest := Render(done, index).value, Render(done[1..], index).value;
      var x, y := d.message.value, Field(d.name, Number(d, index));
      assert all.messages + [x] == [all.messages[0]] + (rest.messages + [x]);
      assert all.fields + [y] == [all.fields[0]] + (rest.fields + [y]);
    }
  }

  lemma {:induction false} RenderStops(done: seq<Definition>, index: Index, d: Definition, rest: seq<Definition>)
    requires Render(done, index).Ok? && d.message.None?
    ensures Render(done + [d] + rest, index) == Err(NotGenerated(d.name))
  {
    if done == [] {
      assert done + [d] + rest == [d] + rest;
    } else {
      RenderStops(done[1..], index, d, rest);
      assert (done + [d] + rest)[1..] == done[1..] + [d] + rest;
    }
  }

  lemma {:induction false} SameNumbers(list: seq<Definition>, index: Index, other: Index)
    requires forall d :: d in list ==> Number(d, index) == Number(d, other)
    ensures Sort(list, index) == Sort(list, other)
  {
    if list != [] {
      SameNumbers(list[1..], index, other);
      SortOrders(list[1..], index);
      var rest := Sort(list[1..], index);
      forall d | d in rest ensures d in list {
        assert d in multiset(rest);
      }
      SameInsert(list[0], rest, index, other);
    }
  }

  lemma {:induction false} SameInsert(x: Definition, list: seq<Definition>, index: Index, other: Index)
    requires forall d :: d in [x] + list ==> Number(d, index) == Number(d, other)
    ensures Insert(x, list, index) == Insert(x, list, other)
  {
    assert x in [x] + list;
    if list != [] {
      assert list[0] in [x] + list;
      forall d | d in [x] + list[1..] ensures d in [x] + list {}
      SameInsert(x, list[1..], index, other);
    }
  }

  lemma {:induction false} SameRender(list: seq<Definition>, index: Index, other: Index)
    requires forall d :: d in list ==> Number(d, index) == Number(d, other)
    ensures Render(list, index) == Render(list, other)
  {
    if list != [] {
      SameRender(list[1..], index, other);
    }
  }

  /** The entries of the definitions, and the names that have none. */
  method LookUp(list: seq<Definition>, index: Index) returns (found: Index, missing: seq<string>)
    ensures |missing| == Missing(list, index)
    ensures forall d :: d in list ==> Number(d, found) == Number(d, index)
  {
    found, missing := map[], [];
    for i := 0 to |list|
      invariant |missing| == Missing(list[..i], index)
      invariant forall d :: d in list[..i] ==> (d.name in found <==> d.name in index)
      invariant forall name :: name in found ==> name in index && found[name] == index[name]
    {
      var d := list[i];
      assert list[..i + 1] == list[..i] + [d];
      MissingOne(list[..i], index, d);
      if d.name in index {
        found := found[d.name := index[d.name]];
      } else {
        missing := missing + [d.name];
      }
    }
    assert list[..|list|] == list;
  }

  method RenderAll(sorted: seq<Definition>, found: Index) returns (r: Result<Protos, WriteError>)
    ensures r == Render(sorted, found)
  {
    var messages, fields := [], [];
    for i := 0 to |sorted|
      invariant Render(sorted[..i], found) == Ok(Protos(messages, fields))
    {
      var d := sorted[i];
      assert sorted[..i + 1] == sorted[..i] + [d];
      assert sorted == sorted[..i] + [d] + sorted[i + 1..];
      if d.message.None? {
        RenderStops(sorted[..i], found, d, sorted[i + 1..]);
        return Err(NotGenerated(d.name));
      }
      RenderOne(sorted[..i], found, d);
      messages := messages + [d.message.value];
      fields := fields + [Field(d.name, Number(d, found))];
    }
    assert sorted[..|sorted|] == sorted;
    return Ok(Protos(messages, fields));
  }

  method WriteProtos(list: seq<Definition>, index: Index) returns (r: Result<Protos, WriteError>)
    ensures r == Written(list, index)
  {
    var found, missing := LookUp(list, index);
    if missing != [] {
      return Err(NotFound(|missing|));
    }
    SameNumbers(list, found, index);
    var sorted := Sort(list, found);
    r := RenderAll(sorted, found);
    SortOrders(list, found);
    forall d | d in sorted ensures Number(d, found) == Number(d, index) {
      assert d in multiset(sorted);
    }
    SameRender(sorted, found, index);
  }

  // ----- What the output depends on

  /** Definitions of the same number are the same definition. */
  predicate NumbersDistinguish(list: seq<Definition>, index: Index) {
    forall x, y :: x in list && y in list && Number(x, index) == Number(y, index) ==> x == y
  }

  lemma WithoutOne(a: seq<Definition>, i: nat)
    requires i < |a|
    ensures multiset(a[..i] + a[i + 1..]) == multiset(a) - multiset([a[i]])
  {
    assert a == a[..i] + [a[i]] + a[i + 1..];
    assert multiset(a) == multiset(a[..i]) + multiset([a[i]]) + multiset(a[i + 1..]);
  }

  lemma SameRests(a: seq<Definition>, b: seq<Definition>, i: nat)
    requires a != [] && i < |b| && multiset(a) == multiset(b) && a[0] == b[i]
    ensures multiset(a[1..]) == multiset(b[..i] + b[i + 1..])
  {
    assert a[..0] + a[1..] == a[1..];
    WithoutOne(a, 0);
    WithoutOne(b, i);
    calc {
      multiset(a[1..]);
      multiset(a) - multiset([a[0]]);
      multiset(b) - multiset([b[i]]);
      multiset(b[..i] + b[i + 1..]);
    }
  }

  lemma SameMembers(a: seq<Definition>, b: seq<Definition>)
    requires multiset(a) == multiset(b)
    ensures |a| == |b| && forall x :: x in a <==> x in b
  {
    assert |multiset(a)| == |a| && |multiset(b)| == |b|;
    forall x ensures x in a <==> x in b {
      assert x in multiset(a) <==> x in a;
    }
  }

  lemma {:induction false} OrderedUnique(a: seq<Definition>, b: seq<Definition>, index: Index)
    requires Ordered(a, index) && Ordered(b, index) && multiset(a) == multiset(b)
    requires NumbersDistinguish(a, index)
    ensures a == b
  {
    hide Ordered, NumbersDistinguish, Number;
    SameMembers(a, b);
    if a != [] {
      SameHeads(a, b, index);
      RestOrdered(a, index);
      RestOrdered(b, index);
      RestDistinguishes(a, index);
      SameRests(a, b, 0);
      assert b[..0] + b[1..] == b[1..];
      OrderedUnique(a[1..], b[1..], index);
      assert a == [a[0]] + a[1..] && b == [b[0]] + b[1..];
    }
  }

  lemma RestOrdered(a: seq<Definition>, index: Index)
    requires a != [] && Ordered(a, index)
    ensures Ordered(a[1..], index)
  {}

  lemma RestDistinguishes(a: seq<Definition>, index: Index)
    requires a != [] && NumbersDistinguish(a, index)
    ensures NumbersDistinguish(a[1..], index)
  {
    assert forall x :: x in a[1..] ==> x in a;
  }

  lemma SameHeads(a: seq<Definition>, b: seq<Definition>, index: Index)
    requires Ordered(a, index) && Ordered(b, index) && a != [] && b != []
    requires forall x :: x in a <==> x in b
    requires NumbersDistinguish(a, index)
    ensures a[0] == b[0]
  {
    assert a[0] in b && b[0] in a;
  }

  lemma {:induction false} MissingAdds(a: seq<Definition>, b: seq<Definition>, index: Index)
    ensures Missing(a + b, index) == Missing(a, index) + Missing(b, index)
  {
    if a == [] {
      assert a + b == b;
    } else {
      assert (a + b)[1..] == a[1..] + b;
      MissingAdds(a[1..], b, index);
    }
  }

  lemma {:induction false} MissingSame(a: seq<Definition>, b: seq<Definition>, index: Index)
    requires multiset(a) == multiset(b)
    ensures Missing(a, index) == Missing(b, index)
  {
    SameMembers(a, b);
    if a != [] {
      assert a[0] in b;
      var i: nat :| i < |b| && b[i] == a[0];
      MissingWithout(b, i, index);
      SameRests(a, b, i);
      MissingSame(a[1..], b[..i] + b[i + 1..], index);
    }
  }

  lemma MissingWithout(b: seq<Definition>, i: nat, index: Index)
    requires i < |b|
    ensures Missing(b, index) == Missing(b[..i] + b[i + 1..], index) + if b[i].name in index then 0 else 1
  {
    assert b == b[..i] + [b[i]] + b[i + 1..];
    MissingAdds(b[..i] + [b[i]], b[i + 1..], index);
    MissingOne(b[..i], index, b[i]);
    MissingAdds(b[..i], b[i + 1..], index);
  }

  /** Where a name is missing, or a number stands for one definition, the order
      of the list is lost. */
  lemma OrderIndependent(p: seq<Definition>, q: seq<Definition>, index: Index)
    requires multiset(p) == multiset(q) && (Missing(p, index) > 0 || NumbersDistinguish(p, index))
    ensures Written(p, index) == Written(q, index)
  {
    MissingSame(p, q, index);
    if Missing(p, index) == 0 {
      SortOrders(p, index);
      SortOrders(q, index);
      SameMembers(p, Sort(p, index));
      OrderedUnique(Sort(p, index), Sort(q, index), index);
    }
  }

  /** Every message can be generated. */
  predicate Complete(list: seq<Definition>) {
    forall d :: d in list ==> d.message.Some?
  }

  lemma {:induction false} MissingNone(list: seq<Definition>, index: Index)
    ensures Missing(list, index) == 0 <==> forall d :: d in list ==> d.name in index
  {
    if list != [] {
      assert list == [list[0]] + list[1..];
      assert list[0] in list && forall d :: d in list <==> d == list[0] || d in list[1..];
      MissingNone(list[1..], index);
    }
  }

  lemma {:induction false} Rendered(a: seq<Definition>, index: Index)
    requires forall d :: d in a ==> d.message.Some?
    ensures Render(a, index).Ok?
    ensures var r := Render(a, index).value;
      |r.fields| == |r.messages| == |a|
      && forall i :: 0 <= i < |a| ==> r.messages[i] == a[i].message.value && r.fields[i].name == a[i].name
  {
    if a != [] {
      Rendered(a[1..], index);
    }
  }

  lemma RenderIsFaithful(a: seq<Definition>, b: seq<Definition>, index: Index)
    requires forall d :: d in a ==> d.message.Some?
    requires forall d :: d in b ==> d.message.Some?
    ensures Render(a, index).Ok? && Render(b, index).Ok?
    ensures Render(a, index) == Render(b, index) ==> a == b
  {
    Rendered(a, index);
    Rendered(b, index);
    if Render(a, index) == Render(b, index) {
      forall i | 0 <= i < |a| ensures a[i] == b[i] {
        assert a[i] in a && b[i] in b;
        assert a[i].message.value == b[i].message.value && a[i].name == b[i].name;
      }
    }
  }

  /** Moves a member to the front. */
  lemma ToFront(p: seq<Definition>, x: Definition) returns (q: seq<Definition>)
    requires x in p
    ensures multiset(q) == multiset(p) && q != [] && q[0] == x
  {
    var i: nat :| i < |p| && p[i] == x;
    q := [x] + p[..i] + p[i + 1..];
    assert p == p[..i] + [x] + p[i + 1..];
  }

  /** The sort is stable, so of two definitions with one number the one that is
      listed first is written first. */
  lemma FirstStaysFirst(p: seq<Definition>, x: Definition, index: Index)
    requires p != [] && p[0] == x
    ensures WithNumber(Sort(p, index), index, Number(x, index)) != []
    ensures WithNumber(Sort(p, index), index, Number(x, index))[0] == x
  {
    SortStable(p, index, Number(x, index));
  }

  lemma WrittenIsFaithful(p: seq<Definition>, q: seq<Definition>, index: Index)
    requires Complete(p) && Missing(p, index) == 0 && multiset(q) == multiset(p)
    ensures Written(p, index) == Written(q, index) <==> Sort(p, index) == Sort(q, index)
  {
    MissingSame(p, q, index);
    SortOrders(p, index);
    SortOrders(q, index);
    SameMembers(p, q);
    SameMembers(p, Sort(p, index));
    SameMembers(q, Sort(q, index));
    RenderIsFaithful(Sort(p, index), Sort(q, index), index);
  }

  ghost predicate SameForEveryOrder(p: seq<Definition>, index: Index) {
    forall q :: multiset(q) == multiset(p) ==> Written(q, index) == Written(p, index)
  }

  /** Every order of a complete list gives the same file or error exactly when a
      name is missing or each number stands for one definition. */
  lemma OrderIndependentIff(p: seq<Definition>, index: Index)
    requires Complete(p)
    ensures SameForEveryOrder(p, index) <==> Missing(p, index) > 0 || NumbersDistinguish(p, index)
  {
    if Missing(p, index) > 0 || NumbersDistinguish(p, index) {
      forall q | multiset(q) == multiset(p) ensures Written(q, index) == Written(p, index) {
        OrderIndependent(p, q, index);
      }
    } else {
      var x, y :| x in p && y in p && Number(x, index) == Number(y, index) && x != y;
      var a := ToFront(p, x);
      var b := ToFront(p, y);
      FirstStaysFirst(a, x, index);
      FirstStaysFirst(b, y, index);
      WrittenIsFaithful(p, a, index);
      WrittenIsFaithful(p, b, index);
      assert Sort(a, index) != Sort(b, index);
    }
  }

  // ----- The field numbers

  predicate Increasing(fields: seq<Field>) {
    forall i, j :: 0 <= i < j < |fields| ==> fields[i].number < fields[j].number
  }

  lemma {:induction false} RenderedNumbers(sorted: seq<Definition>, index: Index)
    requires Render(sorted, index).Ok?
    ensures |Render(sorted, index).value.fields| == |sorted|
    ensures forall i :: 0 <= i < |sorted| ==>
      Render(sorted, index).value.fields[i] == Field(sorted[i].name, Number(sorted[i], index))
  {
    if sorted != [] {
      RenderedNumbers(sorted[1..], index);
    }
  }

  /** No number is used twice in the list. */
  ghost predicate NumbersOnce(list: seq<Definition>, index: Index) {
    forall n :: |WithNumber(list, index, n)| <= 1
  }

  lemma {:induction false} WithNumberHas(list: seq<Definition>, index: Index, i: nat)
    requires i < |list|
    ensures list[i] in WithNumber(list, index, Number(list[i], index))
  {
    if i > 0 {
      WithNumberHas(list[1..], index, i - 1);
      assert list[1..][i - 1] == list[i];
    }
  }

  lemma {:induction false} WithNumberTwice(list: seq<Definition>, index: Index, i: nat, j: nat)
    requires i < j < |list| && Number(list[i], index) == Number(list[j], index)
    ensures |WithNumber(list, index, Number(list[i], index))| >= 2
  {
    if i > 0 {
      WithNumberTwice(list[1..], index, i - 1, j - 1);
    } else {
      WithNumberHas(list[1..], index, j - 1);
    }
  }

  lemma {:induction false} TwiceFound(list: seq<Definition>, index: Index, n: int) returns (i: nat, j: nat)
    requires |WithNumber(list, index, n)| >= 2
    ensures i < j < |list| && Number(list[i], index) == Number(list[j], index) == n
  {
    if Number(list[0], index) == n {
      j := OnceFound(list[1..], index, n);
      i, j := 0, j + 1;
    } else {
      i, j := TwiceFound(list[1..], index, n);
      i, j := i + 1, j + 1;
    }
  }

  lemma {:induction false} OnceFound(list: seq<Definition>, index: Index, n: int) returns (i: nat)
    requires WithNumber(list, index, n) != []
    ensures i < |list| && Number(list[i], index) == n
  {
    if Number(list[0], index) == n {
      i := 0;
    } else {
      i := OnceFound(list[1..], index, n);
      i := i + 1;
    }
  }

  lemma NotIncreasing(fields: seq<Field>, i: nat, j: nat)
    requires i < j < |fields| && fields[i].number == fields[j].number
    ensures !Increasing(fields)
  {}

  /** The oneof fields are a permutation of the definitions, numbered as the
      index says; their numbers rise, and rise strictly exactly when no number
      is used twice. */
  lemma FieldNumbers(list: seq<Definition>, index: Index)
    requires Written(list, index).Ok?
    ensures var fields := Written(list, index).value.fields;
      |fields| == |list|
      && multiset(Sort(list, index)) == multiset(list)
      && (forall i :: 0 <= i < |fields| ==>
            fields[i] == Field(Sort(list, index)[i].name, Number(Sort(list, index)[i], index)))
      && (forall i, j :: 0 <= i < j < |fields| ==> fields[i].number <= fields[j].number)
      && (Increasing(fields) <==> NumbersOnce(list, index))
  {
    var sorted, fields := Sort(list, index), Written(list, index).value.fields;
    SortOrders(list, index);
    RenderedNumbers(sorted, index);
    if Increasing(fields) {
      forall n ensures |WithNumber(list, index, n)| <= 1 {
        SortStable(list, index, n);
        if |WithNumber(sorted, index, n)| >= 2 {
          var i, j := TwiceFound(sorted, index, n);
          NotIncreasing(fields, i, j);
        }
      }
    }
    if NumbersOnce(list, index) {
      forall i, j | 0 <= i < j < |fields| ensures fields[i].number < fields[j].number {
        if fields[i].number == fields[j].number {
          WithNumberTwice(sorted, index, i, j);
          SortStable(list, index, Number(sorted[i], index));
        }
      }
    }
  }

  /** The last entry of a name has that name, and no later entry has it. */
  lemma {:induction false} LastNamedIs(syscalls: seq<Syscall>, name: string, i: nat)
    requires i < |syscalls| && syscalls[i].name == name
    requires forall j :: i < j < |syscalls| ==> syscalls[j].name != name
    ensures LastNamed(syscalls, name) == Some(syscalls[i])
    decreases |syscalls|
  {
    if i < |syscalls| - 1 {
      LastNamedIs(syscalls[..|syscalls| - 1], name, i);
    }
  }

  /** The number that the kernel's list has, last, for the name of a definition. */
  function ListedNumber(syscalls: seq<Syscall>, d: Definition): int
    requires LastNamed(syscalls, d.name).Some?
  {
    LastNamed(syscalls, d.name).value.number
  }

  lemma {:induction false} RenderedMessages(sorted: seq<Definition>, index: Index)
    requires Render(sorted, index).Ok?
    ensures |Render(sorted, index).value.messages| == |sorted|
    ensures forall i :: 0 <= i < |sorted| ==> Some(Render(sorted, index).value.messages[i]) == sorted[i].message
  {
    if sorted != [] {
      RenderedMessages(sorted[1..], index);
    }
  }

  /** What is written: for each definition, in an order of rising numbers, its
      message and its field with the number that the kernel's list has for it. */
  lemma FileIs(list: seq<Definition>, index: Index, syscalls: seq<Syscall>) returns (sorted: seq<Definition>)
    requires Indexes(index, syscalls) && Written(list, index).Ok?
    ensures multiset(sorted) == multiset(list)
    ensures forall d :: d in sorted ==> LastNamed(syscalls, d.name).Some?
    ensures forall i, j :: 0 <= i < j < |sorted| ==>
      ListedNumber(syscalls, sorted[i]) <= ListedNumber(syscalls, sorted[j])
    ensures var file := Written(list, index).value;
      && |file.fields| == |sorted| && |file.messages| == |sorted|
      && forall i :: 0 <= i < |sorted| ==>
           file.fields[i] == Field(sorted[i].name, ListedNumber(syscalls, sorted[i]))
           && Some(file.messages[i]) == sorted[i].message
  {
    sorted := Sort(list, index);
    SortOrders(list, index);
    SameMembers(list, sorted);
    MissingNone(list, index);
    RenderedNumbers(sorted, index);
    RenderedMessages(sorted, index);
    forall d | d in sorted
      ensures LastNamed(syscalls, d.name).Some? && Number(d, index) == ListedNumber(syscalls, d)
    {
      assert d in list && d.name in index;
    }
    forall i | 0 <= i < |sorted| ensures sorted[i] in sorted {}
  }

  /** Where no name is missing, writing fails exactly if a message cannot be
      generated, and reports the first in the order of numbers. */
  lemma {:induction false} RenderFails(sorted: seq<Definition>, index: Index)
    ensures Render(sorted, index).Err? <==> exists i :: 0 <= i < |sorted| && sorted[i].message == None
    ensures Render(sorted, index).Err? ==>
      exists i :: 0 <= i < |sorted| && IsFirstFailure(sorted, i)
        && Render(sorted, index).error == NotGenerated(sorted[i].name)
  {
    if sorted != [] {
      RenderFails(sorted[1..], index);
      if sorted[0].message == None {
        assert IsFirstFailure(sorted, 0);
      } else {
        assert forall i :: 0 < i < |sorted| ==> sorted[1..][i - 1] == sorted[i];
        if Render(sorted[1..], index).Err? {
          var i :| 0 <= i < |sorted| - 1 && IsFirstFailure(sorted[1..], i)
            && Render(sorted[1..], index).error == NotGenerated(sorted[1..][i].name);
          assert IsFirstFailure(sorted, i + 1);
        }
      }
    }
  }

  predicate IsFirstFailure(sorted: seq<Definition>, i: nat)
    requires i < |sorted|
  {
    sorted[i].message == None && forall j :: 0 <= j < i ==> sorted[j].message.Some?
  }

  /** The definitions that have no entry in the kernel's list. */
  function Absent(list: seq<Definition>, syscalls: seq<Syscall>): seq<Definition> {
    if list == [] then []
    else (if LastNamed(syscalls, list[0].name).None? then [list[0]] else []) + Absent(list[1..], syscalls)
  }

  lemma {:induction false} MissingCounts(list: seq<Definition>, index: Index, syscalls: seq<Syscall>)
    requires Indexes(index, syscalls)
    ensures Missing(list, index) == |Absent(list, syscalls)|
  {
    if list != [] {
      MissingCounts(list[1..], index, syscalls);
      if list[0].name !in index {
        NeverNamed(syscalls, list[0].name, index);
      }
    }
  }

  /** The lookup fails exactly when some definition has no entry in the kernel's
      list, and reports how many have none. */
  lemma FailsIff(list: seq<Definition>, index: Index, syscalls: seq<Syscall>)
    requires Indexes(index, syscalls)
    ensures (Written(list, index).Err? && Written(list, index).error.NotFound?) <==>
      exists d :: d in list && LastNamed(syscalls, d.name).None?
    ensures Written(list, index).Err? && Written(list, index).error.NotFound? ==>
      Written(list, index).error.missing == |Absent(list, syscalls)|
  {
    MissingCounts(list, index, syscalls);
    MissingNone(list, index);
    RenderErrors(Sort(list, index), index);
    if Written(list, index).Err? && Written(list, index).error.NotFound? {
      var d :| d in list && d.name !in index;
      NeverNamed(syscalls, d.name, index);
    }
  }

  lemma {:induction false} RenderErrors(sorted: seq<Definition>, index: Index)
    ensures Render(sorted, index).Err? ==> Render(sorted, index).error.NotGenerated?
  {
    if sorted != [] {
      RenderErrors(sorted[1..], index);
    }
  }

  lemma {:induction false} NeverNamed(syscalls: seq<Syscall>, name: string, index: Index)
    requires name !in index && forall s :: s in syscalls ==> s.name in index
    ensures LastNamed(syscalls, name).None?
  {
    if syscalls != [] {
      NeverNamed(syscalls[..|syscalls| - 1], name, index);
    }
  }
}
