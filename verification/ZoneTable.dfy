/** Handing out zone IDs: reserved IDs are asked for by number, the others are
    taken in turn from the first dynamic one. */
module ZoneTable {
  import opened Wrappers
  import opened ZoneGeometry

  const MAX_ZONES: nat := 690

  /** What the kernel's headers fix. */
  datatype Config = Config(firstDynamic: nat, page: nat, cpus: nat)

  predicate GoodConfig(c: Config) {
    c.firstDynamic < MAX_ZONES && 0 < c.page <= MAX_ALLOC && MAX_ALLOC % c.page == 0
  }

  /** A call of zone_create_ext; no ID stands for ZONE_ID_ANY. */
  datatype Request = Request(size: nat, percpu: bool, readonly: bool, destructible: bool, id: Option<nat>)

  /** A slot holds a zone from the moment z_self is set. */
  datatype State = State(slots: seq<Option<Zone>>, numZones: nat, inUse: nat)

  datatype Reply = Panic | Created(id: nat) | Reused(id: nat)

  /** Nothing is in use before the first call. */
  predicate IsInitial(s: State) {
    |s.slots| == MAX_ZONES && s.numZones == 0 && s.inUse == 0 && forall z :: z in s.slots ==> z.None?
  }

  // ----- One call

  function Counted(c: Config, s: State): State {
    if s.numZones < c.firstDynamic then s.(numZones := c.firstDynamic) else s
  }

  /** The slot a request gets, or None for a panic. */
  function SlotFor(c: Config, s: State, q: Request): Option<(State, nat)>
    requires GoodConfig(c) && |s.slots| == MAX_ZONES
  {
    if !(s.inUse <= s.numZones < MAX_ZONES) then None
    else
      var s := Counted(c, s);
      match q.id
      case Some(id) =>
        if id >= c.firstDynamic || q.destructible || s.slots[id].Some? then None
        else Some((s.(inUse := s.inUse + 1), id))
      case None => Some((s.(numZones := s.numZones + 1, inUse := s.inUse + 1), s.numZones))
  }

  /** The fields of the new zone; None for the panic of a wasteful per-CPU zone. */
  ghost predicate MakesZone(c: Config, q: Request, z: Option<Zone>)
    requires GoodConfig(c)
  {
    exists r: Option<nat> ::
      IsGranule(c.page, c.cpus, AdjustSize(q.size), q.percpu, q.readonly, MAX_ALLOC, r)
      && z == (if r.Some? then ZoneOf(c.page, AdjustSize(q.size), r.value, q.percpu) else None)
  }

  /** One call of zone_create_ext; only a non-panic has a next state. */
  ghost predicate Step(c: Config, s: State, q: Request, reply: Reply, s': State)
    requires GoodConfig(c) && |s.slots| == MAX_ZONES
  {
    if q.size > MAX_ALLOC || SlotFor(c, s, q).None? then reply.Panic?
    else Initializes(c, SlotFor(c, s, q).value.0, SlotFor(c, s, q).value.1, q, reply, s')
  }

  /** A slot that holds a zone is returned as it is, an empty one is filled. */
  ghost predicate Initializes(c: Config, t: State, id: nat, q: Request, reply: Reply, s': State)
    requires GoodConfig(c) && id < |t.slots|
  {
    if t.slots[id].Some? then reply == Reused(id) && s' == t
    else exists z :: MakesZone(c, q, z) && Fills(t, id, z, reply, s')
  }

  predicate Fills(t: State, id: nat, z: Option<Zone>, reply: Reply, s': State)
    requires id < |t.slots|
  {
    if z.None? then reply.Panic? else reply == Created(id) && s' == t.(slots := t.slots[id := z])
  }

  /** The zone of an ID: none for ZONE_ID_ANY and for a slot not in use. */
  function ZoneById(s: State, id: Option<nat>): Result<Option<Zone>, ()>
    requires |s.slots| == MAX_ZONES
  {
    if id.None? then Ok(None) else if id.value >= MAX_ZONES then Err(()) else Ok(s.slots[id.value])
  }

  // ----- The invariant

  function Used(s: State): set<nat>
    requires |s.slots| == MAX_ZONES
  {
    set id: nat | id < MAX_ZONES && s.slots[id].Some?
  }

  predicate Inv(c: Config, s: State) {
    |s.slots| == MAX_ZONES
    && s.numZones <= MAX_ZONES
    && (forall id :: id in Used(s) ==> id < s.numZones)
    && s.inUse == |Used(s)|
    && (s.numZones == 0 || s.numZones >= c.firstDynamic)
  }

  lemma InitialInv(c: Config, s: State)
    requires IsInitial(s)
    ensures Inv(c, s) && Used(s) == {}
  {
    forall id: nat | id < MAX_ZONES ensures s.slots[id].None? {
      assert s.slots[id] in s.slots;
    }
    assert Used(s) == {};
  }

  lemma {:induction false} BelowCount(ids: set<nat>, n: nat)
    requires forall id :: id in ids ==> id < n
    ensures |ids| <= n
  {
    if n == 0 {
      assert ids == {};
    } else {
      BelowCount(ids - {n - 1}, n - 1);
    }
  }

  /** The assertion on the two counters can only fail for want of IDs. */
  lemma CountersAgree(c: Config, s: State)
    requires Inv(c, s)
    ensures s.inUse <= s.numZones
  {
    BelowCount(Used(s), s.numZones);
  }

  /** The next dynamic ID. */
  function NextDynamic(c: Config, s: State): nat {
    Counted(c, s).numZones
  }

  function IdFor(c: Config, s: State, q: Request): nat {
    if q.id.Some? then q.id.value else NextDynamic(c, s)
  }

  lemma {:induction false} SlotTaken(s: State, id: nat, z: Zone)
    requires |s.slots| == MAX_ZONES && id < MAX_ZONES && s.slots[id].None?
    ensures var s' := s.(slots := s.slots[id := Some(z)]);
      Used(s') == Used(s) + {id} && |Used(s')| == |Used(s)| + 1
  {
    var s' := s.(slots := s.slots[id := Some(z)]);
    assert Used(s') == Used(s) + {id} && id !in Used(s);
  }

  /** The early return for a slot that holds a zone is never taken. */
  lemma EmptySlot(c: Config, s: State, q: Request)
    requires GoodConfig(c) && Inv(c, s) && SlotFor(c, s, q).Some?
    ensures SlotFor(c, s, q).value.0.slots[SlotFor(c, s, q).value.1].None?
  {
    var id := SlotFor(c, s, q).value.1;
    if q.id.None? {
      assert id !in Used(s);
    }
  }

  /** What a call that does not panic does: it fills one empty slot, the one asked
      for or the next dynamic one, and never takes the early return. */
  lemma StepCreates(c: Config, s: State, q: Request, reply: Reply, s': State)
    requires GoodConfig(c) && Inv(c, s) && Step(c, s, q, reply, s') && !reply.Panic?
    ensures Inv(c, s')
    ensures reply == Created(IdFor(c, s, q)) && reply.id < MAX_ZONES
    ensures reply.id !in Used(s) && Used(s') == Used(s) + {reply.id}
    ensures s'.slots == s.slots[reply.id := s'.slots[reply.id]]
    ensures MakesZone(c, q, s'.slots[reply.id]) && q.size <= MAX_ALLOC
    ensures NextDynamic(c, s') == NextDynamic(c, s) + if q.id.Some? then 0 else 1
    ensures s'.inUse == s.inUse + 1
  {
    hide MakesZone;
    var (t, id) := SlotFor(c, s, q).value;
    assert t.slots == s.slots && id == IdFor(c, s, q);
    EmptySlot(c, s, q);
    if s.slots[id].None? {
      var z :| MakesZone(c, q, z) && Fills(t, id, z, reply, s');
      SlotTaken(t, id, z.value);
      assert Used(t) == Used(s);
    }
  }

  /** The calls that panic, in terms of what the caller can see. */
  predicate MustPanic(c: Config, s: State, q: Request)
    requires GoodConfig(c) && |s.slots| == MAX_ZONES
  {
    q.size > MAX_ALLOC
    || s.numZones == MAX_ZONES
    || (q.id.Some? && (q.id.value >= c.firstDynamic || q.destructible || s.slots[q.id.value].Some?))
    || (q.percpu && c.page % AdjustSize(q.size) > 256)
  }

  lemma PanicsIff(c: Config, s: State, q: Request, reply: Reply, s': State)
    requires GoodConfig(c) && Inv(c, s) && Step(c, s, q, reply, s')
    ensures reply.Panic? <==> MustPanic(c, s, q)
  {
    CountersAgree(c, s);
    if q.size <= MAX_ALLOC && SlotFor(c, s, q).Some? {
      var (t, id) := SlotFor(c, s, q).value;
      EmptySlot(c, s, q);
      if s.slots[id].None? {
        hide MakesZone, IsGranule;
        var z :| MakesZone(c, q, z) && Fills(t, id, z, reply, s');
        ZoneFails(c, q, z);
      }
    }
  }

  lemma ZoneFails(c: Config, q: Request, z: Option<Zone>)
    requires GoodConfig(c) && q.size <= MAX_ALLOC && MakesZone(c, q, z)
    ensures z.None? <==> q.percpu && c.page % AdjustSize(q.size) > 256
  {
    hide Best;
    assert AdjustSize(q.size) <= MAX_ALLOC;
    Fits(AdjustSize(q.size));
  }

  // ----- Every run

  ghost predicate IsRun(c: Config, states: seq<State>, qs: seq<Request>, replies: seq<Reply>)
    requires GoodConfig(c)
  {
    |states| == |qs| + 1 && |replies| == |qs| && IsInitial(states[0])
    && (forall i :: 0 <= i < |states| ==> |states[i].slots| == MAX_ZONES)
    && forall i :: 0 <= i < |qs| ==> Proceeds(c, states[i], qs[i], replies[i], states[i + 1])
  }

  ghost predicate Proceeds(c: Config, s: State, q: Request, reply: Reply, s': State)
    requires GoodConfig(c) && |s.slots| == MAX_ZONES
  {
    !reply.Panic? && Step(c, s, q, reply, s')
  }

  /** How many of the first n requests leave the ID open. */
  function Dynamic(qs: seq<Request>, n: nat): nat
    requires n <= |qs|
  {
    if n == 0 then 0 else Dynamic(qs, n - 1) + if qs[n - 1].id.None? then 1 else 0
  }

  function Given(replies: seq<Reply>, n: nat): set<nat>
    requires n <= |replies| && forall i :: 0 <= i < n ==> replies[i].Created?
  {
    set i | 0 <= i < n :: replies[i].id
  }

  /** After every prefix of a run the table has exactly the IDs given out, and
      the dynamic ones number on from the first. */
  lemma {:induction false} RunInv(c: Config, states: seq<State>, qs: seq<Request>, replies: seq<Reply>, n: nat)
    requires GoodConfig(c) && IsRun(c, states, qs, replies) && n <= |qs|
    ensures Inv(c, states[n]) && states[n].inUse == n <= states[n].numZones
    ensures NextDynamic(c, states[n]) == c.firstDynamic + Dynamic(qs, n)
    ensures (forall i :: 0 <= i < n ==> replies[i].Created?) && Used(states[n]) == Given(replies, n)
  {
    hide Step, Inv;
    if n == 0 {
      InitialInv(c, states[0]);
    } else {
      RunInv(c, states, qs, replies, n - 1);
      StepCreates(c, states[n - 1], qs[n - 1], replies[n - 1], states[n]);
      assert Given(replies, n) == Given(replies, n - 1) + {replies[n - 1].id};
      CountersAgree(c, states[n]);
    }
  }

  /** Each create returns its own ID: the one asked for, or the first dynamic ID
      plus the number of dynamic creates before it; no two are the same. */
  lemma IdsOfRun(c: Config, states: seq<State>, qs: seq<Request>, replies: seq<Reply>, i: nat)
    requires GoodConfig(c) && IsRun(c, states, qs, replies) && i < |qs|
    ensures replies[i] == Created(if qs[i].id.Some? then qs[i].id.value else c.firstDynamic + Dynamic(qs, i))
    ensures replies[i].id < MAX_ZONES
    ensures forall j :: 0 <= j < i ==> replies[j] != replies[i]
  {
    hide Step, MakesZone;
    RunInv(c, states, qs, replies, i);
    StepCreates(c, states[i], qs[i], replies[i], states[i + 1]);
    forall j | 0 <= j < i ensures replies[j] != replies[i] {
      assert replies[j].id in Given(replies, i);
    }
  }

  /** A zone keeps the fields it was created with. */
  lemma {:induction false} ZoneStays(c: Config, states: seq<State>, qs: seq<Request>, replies: seq<Reply>,
      i: nat, n: nat)
    requires GoodConfig(c) && IsRun(c, states, qs, replies) && i < n <= |qs|
    ensures replies[i].Created? && replies[i].id < MAX_ZONES
    ensures states[n].slots[replies[i].id] == states[i + 1].slots[replies[i].id]
    ensures MakesZone(c, qs[i], states[n].slots[replies[i].id]) && qs[i].size <= MAX_ALLOC
  {
    hide MakesZone, Step, Inv;
    IdsOfRun(c, states, qs, replies, i);
    RunInv(c, states, qs, replies, n - 1);
    StepCreates(c, states[n - 1], qs[n - 1], replies[n - 1], states[n]);
    if i < n - 1 {
      ZoneStays(c, states, qs, replies, i, n - 1);
      IdsOfRun(c, states, qs, replies, n - 1);
    }
  }

  /** The lookup finds a zone exactly for the IDs that creates have returned, and
      then the zone of that create; it finds none for no ID. */
  lemma LookupAfterRun(c: Config, states: seq<State>, qs: seq<Request>, replies: seq<Reply>, id: nat)
    requires GoodConfig(c) && IsRun(c, states, qs, replies)
    ensures id >= MAX_ZONES ==> ZoneById(states[|qs|], Some(id)).Err?
    ensures id < MAX_ZONES ==> ZoneById(states[|qs|], Some(id)).Ok?
    ensures id < MAX_ZONES ==>
      (ZoneById(states[|qs|], Some(id)).value.Some? <==> exists i :: 0 <= i < |qs| && replies[i] == Created(id))
    ensures ZoneById(states[|qs|], None) == Ok(None)
    ensures forall i :: 0 <= i < |qs| && replies[i] == Created(id) ==>
      id < MAX_ZONES && ZoneById(states[|qs|], Some(id)) == Ok(states[i + 1].slots[id])
      && MakesZone(c, qs[i], states[i + 1].slots[id])
  {
    hide Step, MakesZone;
    forall i | 0 <= i < |qs| && replies[i] == Created(id)
      ensures id < MAX_ZONES && ZoneById(states[|qs|], Some(id)) == Ok(states[i + 1].slots[id])
      ensures MakesZone(c, qs[i], states[i + 1].slots[id])
    {
      ZoneStays(c, states, qs, replies, i, |qs|);
    }
    RunInv(c, states, qs, replies, |qs|);
    if id < MAX_ZONES && ZoneById(states[|qs|], Some(id)).value.Some? {
      assert id in Used(states[|qs|]);
      assert id in Given(replies, |qs|);
    }
    if i :| 0 <= i < |qs| && replies[i] == Created(id) {
      assert replies[i].id in Given(replies, |qs|);
      assert id in Used(states[|qs|]);
    }
  }

  /** An ordinary zone has, to the end of the run, the geometry of its size. */
  lemma CreatedGeometry(c: Config, states: seq<State>, qs: seq<Request>, replies: seq<Reply>, i: nat)
    requires GoodConfig(c) && IsRun(c, states, qs, replies) && i < |qs|
    requires !qs[i].percpu && !qs[i].readonly
    ensures replies[i].Created? && replies[i].id < MAX_ZONES && states[|qs|].slots[replies[i].id].Some?
    ensures var z := states[|qs|].slots[replies[i].id].value;
      z.elemSize == AdjustSize(qs[i].size)
      && z.chunkElems >= 1 && z.elemOffs < z.elemSize
      && z.chunkElems * z.elemSize + z.elemOffs == z.chunkPages * c.page <= MAX_ALLOC
  {
    hide Best;
    hide Step;
    ZoneStays(c, states, qs, replies, i, |qs|);
    GeometryOf(c, qs[i], states[|qs|].slots[replies[i].id]);
  }

  lemma GeometryOf(c: Config, q: Request, z: Option<Zone>)
    requires GoodConfig(c) && MakesZone(c, q, z) && q.size <= MAX_ALLOC && !q.percpu && !q.readonly
    ensures z.Some? && z.value.elemSize == AdjustSize(q.size)
    ensures z.value.chunkElems >= 1 && z.value.elemOffs < z.value.elemSize
    ensures z.value.chunkElems * z.value.elemSize + z.value.elemOffs == z.value.chunkPages * c.page <= MAX_ALLOC
  {
    hide Best;
    var r: Option<nat> :| IsGranule(c.page, c.cpus, AdjustSize(q.size), q.percpu, q.readonly, MAX_ALLOC, r)
      && z == if r.Some? then ZoneOf(c.page, AdjustSize(q.size), r.value, q.percpu) else None;
    ZoneGeometryHolds(c.page, c.cpus, q.size, r.value);
  }

  // ----- The table itself

  class Table {
    const config: Config
    const zoneArray: array<Option<Zone>>
    var numZones: nat
    var inUse: nat

    ghost predicate Valid()
      reads this, zoneArray
    {
      GoodConfig(config) && zoneArray.Length == MAX_ZONES
    }

    ghost function Abs(): (s: State)
      reads this, zoneArray
      requires Valid()
      ensures |s.slots| == MAX_ZONES
    {
      State(zoneArray[..], numZones, inUse)
    }

    constructor (c: Config)
      requires GoodConfig(c)
      ensures Valid() && config == c && IsInitial(Abs()) && fresh(zoneArray)
    {
      config := c;
      zoneArray := new Option<Zone>[MAX_ZONES](_ => None);
      numZones, inUse := 0, 0;
    }

    /** The slot of a new zone; the reserved IDs are counted in on the way. */
    method Find(q: Request) returns (r: Option<nat>)
      requires Valid()
      modifies this
      ensures Valid() && zoneArray[..] == old(zoneArray[..])
      ensures r.None? <==> SlotFor(config, old(Abs()), q).None?
      ensures r.Some? ==> SlotFor(config, old(Abs()), q) == Some((Abs(), r.value))
    {
      var nzones := numZones;
      if !(inUse <= nzones < MAX_ZONES) {
        return None;
      }
      if nzones < config.firstDynamic {
        while nzones < config.firstDynamic
          invariant nzones <= config.firstDynamic
        {
          nzones := nzones + 1;
        }
        numZones := nzones;
      }
      var id;
      if q.id.Some? {
        id := q.id.value;
        if id >= config.firstDynamic || q.destructible || zoneArray[id].Some? {
          return None;
        }
      } else {
        id := nzones;
        nzones := nzones + 1;
        numZones := nzones;
      }
      inUse := inUse + 1;
      return Some(id);
    }

    method Create(q: Request) returns (reply: Reply)
      requires Valid()
      modifies this, zoneArray
      ensures Valid() && Step(config, old(Abs()), q, reply, Abs())
    {
      if q.size > MAX_ALLOC {
        return Panic;
      }
      var size := AdjustSize(q.size);
      var slot := Find(q);
      if slot.None? {
        return Panic;
      }
      ghost var t := Abs();
      var id := slot.value;
      if zoneArray[id].Some? {
        return Reused(id);
      }
      var alloc := MinAllocGranule(config.page, config.cpus, size, q.percpu, q.readonly, MAX_ALLOC);
      var zone := if alloc.Some? then ZoneOf(config.page, size, alloc.value, q.percpu) else None;
      assert MakesZone(config, q, zone);
      if zone.None? {
        return Panic;
      }
      zoneArray[id] := zone;
      assert Fills(t, id, zone, Created(id), Abs());
      return Created(id);
    }

    method ById(id: Option<nat>) returns (r: Result<Option<Zone>, ()>)
      requires Valid()
      ensures r == ZoneById(Abs(), id)
    {
      if id.None? {
        return Ok(None);
      }
      if id.value >= MAX_ZONES {
        return Err(());
      }
      return Ok(zoneArray[id.value]);
    }
  }
}
