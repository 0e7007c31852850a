/** What the instance table means: lists of instances per tool id, under any run of updates. */
module InstanceLists {
  import opened Sequences
  import opened Domain

  type Table = map<string, seq<ToolInstance>>

  /** The list of a tool id; an id never seen has the empty list. */
  function ListOf(t: Table, id: string): seq<ToolInstance> {
    if id in t then t[id] else []
  }

  /** Replaces the first entry with inst's endpoint, or appends inst. */
  function Upsert(list: seq<ToolInstance>, inst: ToolInstance): seq<ToolInstance> {
    if list == [] then [inst]
    else if list[0].endpoint == inst.endpoint then [inst] + list[1..]
    else [list[0]] + Upsert(list[1..], inst)
  }

  function OtherThan(endpoint: string): ToolInstance -> bool {
    (e: ToolInstance) => e.endpoint != endpoint
  }

  function Without(list: seq<ToolInstance>, endpoint: string): seq<ToolInstance> {
    Filter(list, OtherThan(endpoint))
  }

  datatype Update =
    | Put(id: string, inst: ToolInstance)
    | Remove(id: string, endpoint: string)

  function Apply(t: Table, u: Update): Table {
    match u
    case Put(id, inst) => t[id := Upsert(ListOf(t, id), inst)]
    case Remove(id, endpoint) => t[id := Without(ListOf(t, id), endpoint)]
  }

  /** The table after a run of updates. */
  function RunFrom(t: Table, us: seq<Update>): Table {
    if us == [] then t else Apply(RunFrom(t, us[..|us| - 1]), us[|us| - 1])
  }

  /** The table after a run of updates from the empty table. */
  function Run(us: seq<Update>): Table {
    RunFrom(map[], us)
  }

  // ----- the history of one endpoint, read off the updates alone -----

  /** The last value registered for the endpoint since it was last removed. */
  function Current(us: seq<Update>, id: string, endpoint: string): Option<ToolInstance> {
    if us == [] then None
    else
      var before := Current(us[..|us| - 1], id, endpoint);
      match us[|us| - 1]
      case Put(i, inst) => if i == id && inst.endpoint == endpoint then Some(inst) else before
      case Remove(i, e) => if i == id && e == endpoint then None else before
  }

  /** The place in the run of the endpoint's first registration since it was last removed. */
  function Arrival(us: seq<Update>, id: string, endpoint: string): nat {
    if us == [] then 0
    else
      var n := |us| - 1;
      match us[n]
      case Put(i, inst) =>
        if i == id && inst.endpoint == endpoint && Current(us[..n], id, endpoint).None? then n
        else Arrival(us[..n], id, endpoint)
      case Remove(_, _) => Arrival(us[..n], id, endpoint)
  }

  /** list holds exactly the current endpoints with their values, each once, in order of arrival. */
  ghost predicate Reflects(list: seq<ToolInstance>, us: seq<Update>, id: string) {
    && (forall i :: 0 <= i < |list| ==> Current(us, id, list[i].endpoint) == Some(list[i]))
    && (forall e :: Current(us, id, e).Some? ==> exists i :: 0 <= i < |list| && list[i].endpoint == e)
    && (forall i, j :: 0 <= i < j < |list| ==>
          Arrival(us, id, list[i].endpoint) < Arrival(us, id, list[j].endpoint))
  }

  lemma {:induction false} ArrivalBound(us: seq<Update>, id: string, endpoint: string)
    ensures Current(us, id, endpoint).Some? ==> Arrival(us, id, endpoint) < |us|
    ensures Current(us, id, endpoint).Some? ==> Current(us, id, endpoint).value.endpoint == endpoint
  {
    if us != [] { ArrivalBound(us[..|us| - 1], id, endpoint); }
  }

  /** Where the endpoint stands in the list, or the length of the list. */
  function Position(list: seq<ToolInstance>, endpoint: string): (p: nat)
    ensures p <= |list|
    ensures p < |list| ==> list[p].endpoint == endpoint
    ensures forall i :: 0 <= i < p ==> list[i].endpoint != endpoint
  {
    if list == [] || list[0].endpoint == endpoint then 0 else 1 + Position(list[1..], endpoint)
  }

  lemma {:induction false} UpsertAt(list: seq<ToolInstance>, inst: ToolInstance)
    ensures var p := Position(list, inst.endpoint);
      Upsert(list, inst) == if p < |list| then list[p := inst] else list + [inst]
  {
    if list != [] && list[0].endpoint != inst.endpoint {
      UpsertAt(list[1..], inst);
      assert list == [list[0]] + list[1..];
    }
  }

  ghost function ArrivesBefore(us: seq<Update>, id: string): (ToolInstance, ToolInstance) -> bool {
    (a: ToolInstance, b: ToolInstance) => Arrival(us, id, a.endpoint) < Arrival(us, id, b.endpoint)
  }

  lemma HistorySnoc(us: seq<Update>, u: Update, id: string, e: string)
    ensures Current(us + [u], id, e) ==
      if u.id != id then Current(us, id, e)
      else if u.Put? then (if u.inst.endpoint == e then Some(u.inst) else Current(us, id, e))
      else (if u.endpoint == e then None else Current(us, id, e))
    ensures Arrival(us + [u], id, e) ==
      if u.id == id && u.Put? && u.inst.endpoint == e && Current(us, id, e).None? then |us|
      else Arrival(us, id, e)
  {
    assert (us + [u])[..|us|] == us;
  }

  lemma RemoveReflects(list: seq<ToolInstance>, us: seq<Update>, id: string, endpoint: string)
    requires Reflects(list, us, id)
    ensures Reflects(Without(list, endpoint), us + [Remove(id, endpoint)], id)
  {
    var us', list' := us + [Remove(id, endpoint)], Without(list, endpoint);
    FilterMembers(list, OtherThan(endpoint));
    FilterPairwise(list, OtherThan(endpoint), ArrivesBefore(us, id));
    forall i, j | 0 <= i < j < |list'|
      ensures Arrival(us', id, list'[i].endpoint) < Arrival(us', id, list'[j].endpoint)
    {
      assert ArrivesBefore(us, id)(list'[i], list'[j]);
      HistorySnoc(us, Remove(id, endpoint), id, list'[i].endpoint);
      HistorySnoc(us, Remove(id, endpoint), id, list'[j].endpoint);
    }
    forall i | 0 <= i < |list'| ensures Current(us', id, list'[i].endpoint) == Some(list'[i]) {
      assert list'[i] in list' && list'[i] in list;
      HistorySnoc(us, Remove(id, endpoint), id, list'[i].endpoint);
    }
    forall e | Current(us', id, e).Some? ensures exists i :: 0 <= i < |list'| && list'[i].endpoint == e {
      HistorySnoc(us, Remove(id, endpoint), id, e);
      var k :| 0 <= k < |list| && list[k].endpoint == e;
      assert list[k] in list';
    }
  }

  // Entry i of the list after a put: its value and arrival.
  lemma PutEntry(list: seq<ToolInstance>, us: seq<Update>, id: string, inst: ToolInstance, i: nat)
    requires Reflects(list, us, id) && i < |Upsert(list, inst)|
    ensures i <= |list|
    ensures var e, us' := Upsert(list, inst)[i], us + [Put(id, inst)];
      && Current(us', id, e.endpoint) == Some(e)
      && Arrival(us', id, e.endpoint) == (if i == |list| then |us| else Arrival(us, id, list[i].endpoint))
      && (i < |list| ==> Arrival(us, id, list[i].endpoint) < |us|)
  {
    var p, list' := Position(list, inst.endpoint), Upsert(list, inst);
    UpsertAt(list, inst);
    HistorySnoc(us, Put(id, inst), id, list'[i].endpoint);
    ArrivalBound(us, id, list'[i].endpoint);
    if i < |list| && i != p { DistinctFrom(list, us, id, i, p); }
  }

  lemma PutReflects(list: seq<ToolInstance>, us: seq<Update>, id: string, inst: ToolInstance)
    requires Reflects(list, us, id)
    ensures Reflects(Upsert(list, inst), us + [Put(id, inst)], id)
  {
    var us', list' := us + [Put(id, inst)], Upsert(list, inst);
    forall i | 0 <= i < |list'|
      ensures Current(us', id, list'[i].endpoint) == Some(list'[i])
      ensures i <= |list|
      ensures Arrival(us', id, list'[i].endpoint) == if i == |list| then |us| else Arrival(us, id, list[i].endpoint)
      ensures i < |list| ==> Arrival(us, id, list[i].endpoint) < |us|
    {
      PutEntry(list, us, id, inst, i);
    }
    forall e | Current(us', id, e).Some? ensures exists i :: 0 <= i < |list'| && list'[i].endpoint == e {
      PutCovers(list, us, id, inst, e);
    }
  }

  lemma PutCovers(list: seq<ToolInstance>, us: seq<Update>, id: string, inst: ToolInstance, e: string)
    requires Reflects(list, us, id) && Current(us + [Put(id, inst)], id, e).Some?
    ensures exists i :: 0 <= i < |Upsert(list, inst)| && Upsert(list, inst)[i].endpoint == e
  {
    var p, list' := Position(list, inst.endpoint), Upsert(list, inst);
    UpsertAt(list, inst);
    HistorySnoc(us, Put(id, inst), id, e);
    if e == inst.endpoint {
      assert list'[p].endpoint == e;
    } else {
      var k :| 0 <= k < |list| && list[k].endpoint == e;
      assert list'[k] == list[k];
    }
  }

  lemma DistinctFrom(list: seq<ToolInstance>, us: seq<Update>, id: string, i: nat, p: nat)
    requires Reflects(list, us, id) && i < |list| && p <= |list| && i != p
    ensures p < |list| ==> list[i].endpoint != list[p].endpoint
  {
  }

  lemma OtherIdReflects(list: seq<ToolInstance>, us: seq<Update>, id: string, u: Update)
    requires Reflects(list, us, id) && u.id != id
    ensures Reflects(list, us + [u], id)
  {
    forall e
      ensures Current(us + [u], id, e) == Current(us, id, e)
      ensures Arrival(us + [u], id, e) == Arrival(us, id, e)
    {
      HistorySnoc(us, u, id, e);
    }
  }

  // After any run every list holds exactly the current registrations of its id, in order of arrival.
  lemma {:induction false} RunReflects(us: seq<Update>, id: string)
    ensures Reflects(ListOf(Run(us), id), us, id)
  {
    if us != [] {
      var n := |us| - 1;
      var before, u := us[..n], us[n];
      RunReflects(before, id);
      assert us == before + [u];
      if u.id != id {
        OtherIdReflects(ListOf(Run(before), id), before, id, u);
      } else if u.Put? {
        PutReflects(ListOf(Run(before), id), before, id, u.inst);
      } else {
        RemoveReflects(ListOf(Run(before), id), before, id, u.endpoint);
      }
    }
  }

  // In particular no endpoint is listed twice.
  lemma RunDistinctEndpoints(us: seq<Update>, id: string, i: nat, j: nat)
    requires i < j < |ListOf(Run(us), id)|
    ensures ListOf(Run(us), id)[i].endpoint != ListOf(Run(us), id)[j].endpoint
  {
    RunReflects(us, id);
  }

  // An instance is listed exactly when it is what its endpoint was last registered with.
  lemma ListedIsCurrent(us: seq<Update>, id: string, inst: ToolInstance)
    ensures inst in ListOf(Run(us), id) <==> Current(us, id, inst.endpoint) == Some(inst)
  {
    var list := ListOf(Run(us), id);
    RunReflects(us, id);
    if Current(us, id, inst.endpoint) == Some(inst) {
      var i :| 0 <= i < |list| && list[i].endpoint == inst.endpoint;
      assert Current(us, id, list[i].endpoint) == Some(list[i]);
    }
  }

  // The history leaves one possible list.
  lemma ReflectsUnique(a: seq<ToolInstance>, b: seq<ToolInstance>, us: seq<Update>, id: string)
    requires Reflects(a, us, id) && Reflects(b, us, id)
    ensures a == b
  {
    SameEntries(a, b, us, id);
    SameEntries(b, a, us, id);
    SortedUnique(a, b, ArrivesBefore(us, id));
  }

  lemma SameEntries(a: seq<ToolInstance>, b: seq<ToolInstance>, us: seq<Update>, id: string)
    requires Reflects(a, us, id) && Reflects(b, us, id)
    ensures forall x :: x in a ==> x in b
  {
    forall x | x in a ensures x in b {
      var i :| 0 <= i < |b| && b[i].endpoint == x.endpoint;
      assert Current(us, id, x.endpoint) == Some(x);
      assert Current(us, id, b[i].endpoint) == Some(b[i]);
    }
  }
}
