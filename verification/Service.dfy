/** The registry service over the in-memory store, the instance table and the recorder. */
module Service {
  import opened Sequences
  import opened Text
  import opened Domain
  import opened ToolTable
  import opened RegistrySpec
  import opened InstanceLists
  import opened Flights
  import Pick
  import Store
  import Discovery
  import Metering
  import Recorder

  method Contains(list: seq<string>, v: string) returns (found: bool)
    ensures found <==> v in list
  {
    for i := 0 to |list|
      invariant v !in list[..i]
    {
      if list[i] == v {
        return true;
      }
    }
    return false;
  }

  method PassesChecks(d: ToolDefinition) returns (ok: bool)
    ensures ok <==> Acceptable(d)
  {
    if d.name == "" || d.version == "" || d.tenant == "" {
      return false;
    }
    ok := Contains(KINDS, d.kind);
    if !ok {
      return;
    }
    ok := Contains(TRANSPORTS, d.transport);
    if !ok {
      return;
    }
    ok := Contains(AUTH_TYPES, d.auth.kind);
  }

  lemma CutAt(s: string, i: nat, sep: char)
    requires i < |s| && s[i] == sep && Free(s[..i], sep)
    ensures Split(s, sep) == [s[..i]] + Split(s[i + 1..], sep)
  {
    assert s == s[..i] + [sep] + s[i + 1..];
    SplitCons(s[..i], s[i + 1..], sep);
  }

  lemma Uncut(s: string, sep: char)
    requires Free(s[..|s|], sep)
    ensures Split(s, sep) == [s]
  {
    assert s[..|s|] == s;
    SplitFree(s, sep);
  }

  /** The tenant and the name of a key: the text before its first slash, and from there to the second. */
  method SplitKey(id: string) returns (parts: Option<(string, string)>)
    ensures parts.None? <==> |Split(id, '/')| == 1
    ensures parts.Some? ==> parts.value == (Split(id, '/')[0], Split(id, '/')[1])
  {
    for i := 0 to |id|
      invariant Free(id[..i], '/')
    {
      if id[i] == '/' {
        var rest := id[i + 1..];
        CutAt(id, i, '/');
        for j := 0 to |rest|
          invariant Free(rest[..j], '/')
        {
          if rest[j] == '/' {
            CutAt(rest, j, '/');
            return Some((id[..i], rest[..j]));
          }
        }
        Uncut(rest, '/');
        return Some((id[..i], rest));
      }
    }
    Uncut(id, '/');
    return None;
  }

  // ----- the table as Register and Deregister keep it -----

  /** Every definition sits under its own key and passed the checks of Register. */
  ghost predicate InGoodOrder(m: Tools) {
    && KeyedByFields(m)
    && forall k :: k in m ==> Acceptable(m[k])
  }

  lemma SaveKeepsOrder(m: Tools, d: ToolDefinition)
    requires InGoodOrder(m) && Acceptable(d)
    ensures InGoodOrder(Save(m, d))
    ensures Abstract(Save(m, d)) == Overwrite(Abstract(m), d)
  {
    SaveKeyed(m, d);
    SaveOverwrites(m, d);
  }

  // Among slash-free registrations there is never a clash.
  lemma SlashFreeStays(m: Tools, d: ToolDefinition)
    requires KeyedByFields(m) && AllSlashFree(m) && SlashFree(IdentOf(d))
    ensures AllSlashFree(Save(m, d)) && !Clash(m, IdentOf(d))
  {
    NoClash(m, IdentOf(d));
  }

  lemma DeleteKeepsOrder(m: Tools, tenant: string, name: string)
    requires InGoodOrder(m)
    ensures InGoodOrder(WithoutFamily(m, tenant, name))
    ensures Abstract(WithoutFamily(m, tenant, name)) == RemoveFamily(Abstract(m), tenant, name)
    ensures AllSlashFree(m) ==> AllSlashFree(WithoutFamily(m, tenant, name))
  {
    DeleteRefines(m, tenant, name);
  }

  // A registered version is not empty, so the store's scan finds the latest in any order.
  lemma RegisteredHarmless(m: Tools, tenant: string, name: string)
    requires InGoodOrder(m)
    ensures SentinelHarmless(Family(m.Values, tenant, name))
  {
  }

  // ----- the outcomes of Invoke, against the abstract registry -----

  lemma CandidatesHealthy(setup: Setup, d: ToolDefinition, instances: Table)
    ensures Pick.HealthyOf(setup.Candidates(d, instances)) == setup.Candidates(d, instances)
  {
    var list := ListOf(instances, KeyOf(IdentOf(d)));
    FilterMembers(list, Pick.IsHealthy);
    assert forall x :: x in setup.Candidates(d, instances) ==> Pick.IsHealthy(x);
    FilterAll(setup.Candidates(d, instances), Pick.IsHealthy);
  }

  /** d is a latest definition of the family, or none when the family is empty. */
  ghost predicate Consulted(reg: Reg, name: string, tenant: string, d: Option<ToolDefinition>) {
    var fam := Family(reg.tools.Values, tenant, name);
    && (d.None? <==> fam == {})
    && (d.Some? ==> Latest(d.value, fam) && d.value.transport in TRANSPORTS)
  }

  lemma ResolveOf(setup: Setup, reg: Reg, name: string, tenant: string, role: string,
                  d: Option<ToolDefinition>, tool: Result<ResolvedTool>)
    requires Consulted(reg, name, tenant, d)
    requires tool == if d.None? then Err(NotFound)
                     else if !setup.Allow(d.value, role) then Err(Forbidden)
                     else Ok(ResolvedTool(d.value, setup.Candidates(d.value, reg.instances)))
    ensures setup.ResolveAllows(reg, name, tenant, role, tool)
  {
  }

  lemma InvokeOf(setup: Setup, reg: Reg, req: Request, d: Option<ToolDefinition>,
                 output: Result<Object>, reg': Reg)
    requires Consulted(reg, req.name, req.tenant, d)
    requires if d.None? then output == Err(NotFound) && reg' == reg
             else setup.MayInvoke(reg, req, d.value, output, reg')
    ensures setup.InvokeAllows(reg, req, output, reg')
  {
  }

  lemma InvalidInvoke(setup: Setup, reg: Reg, req: Request, d: ToolDefinition, e: Error)
    requires setup.Allow(d, req.role) && setup.MayValidate(d, req.input, Err(e))
    ensures setup.MayInvoke(reg, req, d, Err(e), reg)
  {
    setup.ValidOrNot(d, req.input, Err(e));
  }

  lemma UnservedInvoke(setup: Setup, reg: Reg, req: Request, d: ToolDefinition)
    requires setup.Allow(d, req.role) && setup.MayValidate(d, req.input, Ok(()))
    requires setup.Candidates(d, reg.instances) == []
    ensures setup.MayInvoke(reg, req, d, Err(Upstream), reg)
  {
  }

  lemma CalledInvoke(setup: Setup, reg: Reg, req: Request, d: ToolDefinition, inst: ToolInstance,
                     output: Result<Object>, reg': Reg)
    requires setup.Allow(d, req.role) && setup.MayValidate(d, req.input, Ok(()))
    requires exists i: nat :: Pick.MayPick(setup.Candidates(d, reg.instances), req.world.rng, i)
                           && inst == setup.Candidates(d, reg.instances)[i]
    requires setup.Called(reg, req, d, inst, output, reg')
    ensures setup.MayInvoke(reg, req, d, output, reg')
  {
    var i: nat :| Pick.MayPick(setup.Candidates(d, reg.instances), req.world.rng, i)
               && inst == setup.Candidates(d, reg.instances)[i];
    assert setup.Called(reg, req, d, setup.Candidates(d, reg.instances)[i], output, reg');
  }

  // A step before a run.
  lemma RunCons(setup: Setup, before: Reg, ops: seq<Op>, reply: Reply,
                next: Reg, rest: seq<Reg>, later: seq<Reply>, after: Reg)
    requires ops != [] && setup.Performs(before, ops[0], reply, next)
    requires setup.IsPerformed(next, rest, ops[1..], later, after)
    ensures setup.IsPerformed(before, [before] + rest, ops, [reply] + later, after)
  {
    var trace, replies := [before] + rest, [reply] + later;
    forall i | 0 <= i < |ops| ensures setup.Performs(trace[i], ops[i], replies[i], trace[i + 1]) {
      if i > 0 {
        assert setup.Performs(rest[i - 1], ops[1..][i - 1], later[i - 1], rest[i]);
      }
    }
  }

  lemma RunOf(setup: Setup, before: Reg, trace: seq<Reg>, ops: seq<Op>, replies: seq<Reply>, after: Reg)
    requires setup.IsPerformed(before, trace, ops, replies, after)
    ensures setup.IsRun(before, trace, ops, replies, after) <==>
      forall i :: 0 <= i < |ops| ==> !setup.Collides(trace[i], ops[i])
    ensures (forall id :: id in before.tools.Keys + Registrations(ops) ==> SlashFree(id)) ==>
      setup.IsRun(before, trace, ops, replies, after)
  {
    setup.RunExactly(before, trace, ops, replies, after);
    if forall id :: id in before.tools.Keys + Registrations(ops) ==> SlashFree(id) {
      SlashFreeKeysDiffer(before.tools.Keys + Registrations(ops));
      setup.DistinctKeysRun(before, trace, ops, replies, after);
    }
  }

  /** The tool to be called next has a transport that is known. */
  predicate Callable(stage: Stage) {
    stage.Found? || stage.Picked? ==> stage.d.transport in TRANSPORTS
  }

  ghost predicate AllCallable(flights: map<nat, Flight>) {
    forall id :: id in flights ==> Callable(flights[id].stage)
  }

  /** What the scheduler may run next. */
  datatype Turn =
    | Arrive(id: nat, req: Request)
    | Resume(id: nat)
    | Handle(op: Op)

  predicate Ready(flights: map<nat, Flight>, turn: Turn) {
    match turn
    case Arrive(id, _) => id !in flights
    case Resume(id) => id in flights && !flights[id].stage.Finished?
    case Handle(_) => true
  }

  lemma BeginIsNext(setup: Setup, reg: Reg, flights: map<nat, Flight>, id: nat, req: Request)
    requires AllCallable(flights) && id !in flights
    ensures var after := flights[id := Flight(req, Started)];
      AllCallable(after) && Flights.Next(setup, System(reg, flights), Begin(id, req), System(reg, after))
  {
  }

  lemma AdvanceIsNext(setup: Setup, reg: Reg, flights: map<nat, Flight>, id: nat, next: Stage, reg': Reg)
    requires AllCallable(flights) && Callable(next) && id in flights
    requires Flights.MayAdvance(setup, reg, flights[id].req, flights[id].stage, next, reg')
    ensures var after := flights[id := Flight(flights[id].req, next)];
      && AllCallable(after)
      && Flights.Next(setup, System(reg, flights), Event.Advance(id), System(reg', after))
  {
  }

  class RegistryService {
    const store: Store.InMemory
    const disc: Discovery.InMemory
    const rec: Recorder.AsyncRecorder
    const setup: Setup
    /** The transport calls made so far. */
    ghost var calls: seq<Call>

    ghost predicate Valid()
      reads this, store, disc, disc.buffers, rec
    {
      && store.Valid() && disc.Valid() && rec.Valid()
      && store.equalFold == setup.equalFold
      && InGoodOrder(store.tools)
    }

    ghost function View(): Reg
      reads this, store, disc, rec
    {
      Reg(Abstract(store.tools), disc.contents, calls, Metering.Offered(rec.offers))
    }

    // The parts are objects of different classes, so an update of one leaves the others alone.
    lemma Apart()
      ensures (store as object) != disc && (store as object) != rec && (disc as object) != rec
      ensures (this as object) != store && (this as object) != disc && (this as object) != rec
      ensures forall b :: b in disc.buffers ==>
        (b as object) != store && (b as object) != disc && (b as object) != rec && (b as object) != this
    {
    }

    constructor (setup: Setup, store: Store.InMemory, disc: Discovery.InMemory, rec: Recorder.AsyncRecorder)
      requires store.Valid() && disc.Valid() && rec.Valid()
      requires store.equalFold == setup.equalFold && InGoodOrder(store.tools)
      ensures this.setup == setup && this.store == store && this.disc == disc && this.rec == rec
      ensures Valid()
      ensures View() == Reg(Abstract(store.tools), disc.contents, [], Metering.Offered(rec.offers))
    {
      this.setup, this.store, this.disc, this.rec, calls := setup, store, disc, rec, [];
    }

    /** Registers as the abstract registry does, unless the key is taken by another registration: then
        that one is lost. Slash-free tenants and names keep out of this. */
    method Register(def: ToolDefinition) returns (key: Result<string>)
      requires Valid()
      modifies store
      ensures Valid() && View() == old(View()).(tools := View().tools)
      ensures key == if Acceptable(Defaulted(def)) then Ok(KeyOf(IdentOf(def))) else Err(InvalidRequest)
      ensures store.tools ==
        if Acceptable(Defaulted(def)) then Save(old(store.tools), Defaulted(def)) else old(store.tools)
      ensures setup.RegisterPerforms(old(View()), def, key, View())
      ensures setup.RegisterAllows(old(View()), def, key, View()) <==>
        !(Acceptable(Defaulted(def)) && Clash(old(store.tools), IdentOf(def)))
      ensures AllSlashFree(old(store.tools)) && SlashFree(IdentOf(def)) ==>
        AllSlashFree(store.tools) && setup.RegisterAllows(old(View()), def, key, View())
    {
      Apart();
      ghost var reg := View();
      var d := def;
      if d.auth.kind == "" {
        d := d.(auth := d.auth.(kind := "none"));
      }
      var ok := PassesChecks(d);
      if !ok {
        assert View() == reg;
        key := Err(InvalidRequest);
      } else {
        SaveRefines(store.tools, d);
        if AllSlashFree(store.tools) && SlashFree(IdentOf(d)) { SlashFreeStays(store.tools, d); }
        StoreTool(d);
        key := Ok(ToolKey(d.tenant, d.name, d.version));
      }
    }

    method StoreTool(d: ToolDefinition)
      requires Valid() && Acceptable(d)
      modifies store
      ensures Valid() && store.tools == Save(old(store.tools), d)
      ensures View() == old(View()).(tools := Overwrite(old(View()).tools, d))
    {
      Apart();
      SaveKeepsOrder(store.tools, d);
      store.SaveTool(d);
    }

    method DropTools(tenant: string, name: string)
      requires Valid()
      modifies store
      ensures Valid() && View() == old(View()).(tools := RemoveFamily(old(View()).tools, tenant, name))
      ensures AllSlashFree(old(store.tools)) ==> AllSlashFree(store.tools)
    {
      Apart();
      DeleteKeepsOrder(store.tools, tenant, name);
      store.DeleteTool(tenant, name);
    }

    /** Removes every version of the family the key names; an unknown family is no error. */
    method Deregister(key: string) returns (done: Result<()>)
      requires Valid()
      modifies store
      ensures Valid() && setup.DeregisterAllows(old(View()), key, done, View())
      ensures AllSlashFree(old(store.tools)) ==> AllSlashFree(store.tools)
    {
      Apart();
      ghost var reg := View();
      var parts := SplitKey(key);
      if parts.None? {
        assert View() == reg;
        done := Err(InvalidRequest);
      } else {
        DropTools(parts.value.0, parts.value.1);
        done := Ok(());
      }
    }

    /** The latest definition, for every order in which the store may be visited. */
    method Latest(name: string, tenant: string) returns (def: Option<ToolDefinition>)
      requires Valid()
      ensures View() == old(View()) && Consulted(View(), name, tenant, def)
    {
      Apart();
      def := store.GetLatestTool(tenant, name);
      RegisteredHarmless(store.tools, tenant, name);
      AbstractValues(store.tools);
    }

    method Allow(d: ToolDefinition, role: string) returns (allowed: bool)
      requires Valid()
      ensures View() == old(View()) && allowed == setup.Allow(d, role)
    {
      Apart();
      var r := setup.normalize(role);
      if r == "admin" || |d.rbac| == 0 {
        return true;
      }
      allowed := Contains(d.rbac, r);
    }

    method ResolveInstances(d: ToolDefinition) returns (insts: seq<ToolInstance>)
      requires Valid()
      ensures View() == old(View()) && insts == setup.Candidates(d, View().instances)
    {
      Apart();
      if setup.conf.discoveryEnabled {
        var copy := disc.Instances(ToolKey(d.tenant, d.name, d.version));
        var healthy := Pick.Healthy(copy[..]);
        if |healthy| > 0 {
          return healthy;
        }
      }
      if d.endpoint != "" {
        return [ToolInstance(d.endpoint, true, 1)];
      }
      return [];
    }

    /** d is the definition consulted, if the family has one. */
    method Resolve(name: string, tenant: string, role: string)
      returns (tool: Result<ResolvedTool>, ghost d: Option<ToolDefinition>)
      requires Valid()
      ensures View() == old(View()) && setup.ResolveAllows(View(), name, tenant, role, tool)
      ensures Consulted(View(), name, tenant, d)
      ensures tool == if d.None? then Err(NotFound)
                      else if !setup.Allow(d.value, role) then Err(Forbidden)
                      else Ok(ResolvedTool(d.value, setup.Candidates(d.value, View().instances)))
    {
      ghost var reg := View();
      var def := Latest(name, tenant);
      d := def;
      if def.None? {
        tool := Err(NotFound);
      } else {
        var allowed := Allow(def.value, role);
        if !allowed {
          tool := Err(Forbidden);
        } else {
          var insts := ResolveInstances(def.value);
          tool := Ok(ResolvedTool(def.value, insts));
        }
      }
      ResolveOf(setup, reg, name, tenant, role, d, tool);
    }

    method CheckInput(d: ToolDefinition, input: Object) returns (valid: Result<()>)
      requires Valid()
      ensures View() == old(View()) && setup.MayValidate(d, input, valid)
    {
      Apart();
      if !setup.conf.schemaValidation {
        return Ok(());
      }
      var v := setup.validator.Validate(d.inputSchema, input);
      valid := Outcome(v);
    }

    method Validate(name: string, tenant: string, input: Object) returns (valid: Result<()>)
      requires Valid()
      ensures View() == old(View()) && setup.ValidateAllows(View(), name, tenant, input, valid)
    {
      Apart();
      var def := Latest(name, tenant);
      if def.None? {
        return Err(NotFound);
      }
      valid := CheckInput(def.value, input);
    }

    method List(tenant: string, f: ToolFilter) returns (tools: seq<ToolDefinition>)
      requires Valid()
      ensures View() == old(View()) && setup.ListAllows(View(), tenant, f, tools)
    {
      Apart();
      ghost var reg := View();
      tools := store.ListTools(tenant, f);
      assert View() == reg;
      AbstractValues(store.tools);
    }

    /** One call over an adapter. The answer is what the http adapter would return; the others only report
        delegation. */
    method CallTransport(a: Adapter, call: Call, answer: Option<Object>) returns (out: Option<Object>)
      modifies this`calls
      ensures out == if a.Http? then answer else None
      ensures calls == old(calls) + [call]
    {
      calls := calls + [call];
      out := if a.Http? then answer else None;
    }

    /** Offers one metric to the recorder. */
    method Meter(m: CallMetric)
      requires Valid()
      modifies rec
      ensures Valid() && View() == old(View()).(metrics := old(View()).metrics + [m])
    {
      Apart();
      ghost var offers := rec.offers;
      rec.Record(m);
      assert Metering.Offered(rec.offers) == Metering.Offered(offers) + [m];
    }

    method Invoke(req: Request) returns (output: Result<Object>)
      requires Valid()
      modifies this`calls, rec
      ensures Valid() && setup.InvokeAllows(old(View()), req, output, View())
    {
      ghost var reg := View();
      var resolved, d := Resolve(req.name, req.tenant, req.role);
      if resolved.Err? {
        output := Err(resolved.error);
      } else {
        output := InvokeTool(req, resolved.value.def, resolved.value.instances);
      }
      InvokeOf(setup, reg, req, d, output, View());
    }

    /** The part of Invoke after resolution: check the input, pick, call, meter. */
    method InvokeTool(req: Request, d: ToolDefinition, candidates: seq<ToolInstance>)
      returns (output: Result<Object>)
      requires Valid() && d.transport in TRANSPORTS && setup.Allow(d, req.role)
      requires candidates == setup.Candidates(d, View().instances)
      modifies this`calls, rec
      ensures Valid() && setup.MayInvoke(old(View()), req, d, output, View())
    {
      Apart();
      ghost var reg := View();
      var valid := CheckInput(d, req.input);
      setup.ValidOrNot(d, req.input, valid);
      assert View() == reg;
      if valid.Err? {
        InvalidInvoke(setup, reg, req, d, valid.error);
        output := Err(valid.error);
      } else {
        output := CallPicked(req, d, candidates);
      }
    }

    method CallPicked(req: Request, d: ToolDefinition, candidates: seq<ToolInstance>)
      returns (output: Result<Object>)
      requires Valid() && d.transport in TRANSPORTS
      requires setup.Allow(d, req.role) && setup.MayValidate(d, req.input, Ok(()))
      requires candidates == setup.Candidates(d, View().instances)
      modifies this`calls, rec
      ensures Valid() && setup.MayInvoke(old(View()), req, d, output, View())
    {
      Apart();
      ghost var reg := View();
      var inst := Pick.PickInstance(candidates, req.world.rng);
      assert View() == reg;
      CandidatesHealthy(setup, d, reg.instances);
      if inst.None? {
        UnservedInvoke(setup, reg, req, d);
        output := Err(Upstream);
      } else {
        output := CallAndMeter(req, d, inst.value);
        CalledInvoke(setup, reg, req, d, inst.value, output, View());
      }
    }

    method CallAndMeter(req: Request, d: ToolDefinition, inst: ToolInstance)
      returns (output: Result<Object>)
      requires Valid() && d.transport in TRANSPORTS
      modifies this`calls, rec
      ensures Valid() && setup.Called(old(View()), req, d, inst, output, View())
    {
      var reply := CallOut(req, d, inst);
      Meter(CallMetric(req.tenant, req.name, req.world.latency, reply.Some?));
      output := if reply.Some? then Ok(reply.value) else Err(Upstream);
    }

    /** The transport of a registered tool is known, so the call is made. */
    method CallOut(req: Request, d: ToolDefinition, inst: ToolInstance) returns (out: Option<Object>)
      requires Valid() && d.transport in TRANSPORTS
      modifies this`calls
      ensures Valid() && View() == old(View()).(calls := old(View()).calls + [Call(d.transport, inst, req.input)])
      ensures out == RegistrySpec.Answer(req, d)
    {
      Apart();
      var adapter := Selector(d.transport);
      if adapter.None? {
        assert false;
      }
      out := CallTransport(adapter.value, Call(d.transport, inst, req.input), req.world.answer);
    }

    // ----- Invoke in pieces, as it runs beside other requests -----

    /** One piece of the invocation of req: a read of the store, a read of the instances, the call, or the metric. */
    method Advance(req: Request, stage: Stage) returns (next: Stage)
      requires Valid() && !stage.Finished? && Callable(stage)
      modifies this`calls, rec
      ensures Valid() && Callable(next) && Flights.MayAdvance(setup, old(View()), req, stage, next, View())
    {
      ghost var reg := View();
      match stage {
        case Started => next := Find(req);
        case Found(d) => next := Choose(req, d);
        case Picked(d, inst) =>
          var out := CallOut(req, d, inst);
          next := Answered(d, inst, out);
        case Answered(_, _, out) =>
          next := Report(req, out);
      }
      assert Flights.MayAdvance(setup, reg, req, stage, next, View());
    }

    method Report(req: Request, out: Option<Object>) returns (next: Stage)
      requires Valid()
      modifies rec
      ensures Valid() && next == Finished(Reported(out))
      ensures View() == Metered(old(View()), req, out)
    {
      Meter(CallMetric(req.tenant, req.name, req.world.latency, out.Some?));
      next := Finished(if out.Some? then Ok(out.value) else Err(Upstream));
    }

    method Find(req: Request) returns (next: Stage)
      requires Valid()
      ensures View() == old(View()) && Flights.MayFind(setup, View(), req, next)
      ensures Callable(next)
    {
      var def := Latest(req.name, req.tenant);
      if def.None? {
        return Finished(Err(NotFound));
      }
      var allowed := Allow(def.value, req.role);
      next := if allowed then Found(def.value) else Finished(Err(Forbidden));
      assert next == Flights.Permitted(setup, req, def.value);
    }

    method Choose(req: Request, d: ToolDefinition) returns (next: Stage)
      requires Valid() && Callable(Found(d))
      ensures View() == old(View()) && Flights.MayChoose(setup, View(), req, d, next)
      ensures Callable(next)
    {
      ghost var reg := View();
      var candidates := ResolveInstances(d);
      var valid := CheckInput(d, req.input);
      setup.ValidOrNot(d, req.input, valid);
      if valid.Err? {
        return Finished(Err(valid.error));
      }
      var inst := Pick.PickInstance(candidates, req.world.rng);
      CandidatesHealthy(setup, d, reg.instances);
      assert View() == reg;
      next := if inst.None? then Finished(Err(Upstream)) else Picked(d, inst.value);
    }

    // ----- whole runs -----

    method UpdateInstances(u: Update)
      requires Valid()
      modifies disc, disc.buffers
      ensures Valid() && fresh(disc.buffers - old(disc.buffers))
      ensures View() == old(View()).(instances := Apply(old(View()).instances, u))
    {
      Apart();
      disc.Update(u);
    }

    /** A step of the recorder's worker, if it has one to take, which no operation can tell. */
    method WorkerStep()
      requires Valid()
      modifies rec
      ensures Valid() && View() == old(View())
    {
      Apart();
      var p := rec.phase;
      if !p.Done? && (rec.closed || rec.ch != [] || p.Holding? || p.Sinking?) {
        ghost var a := rec.Work();
      }
    }

    method Do(op: Op) returns (reply: Reply)
      requires Valid()
      modifies this`calls, store, disc, disc.buffers, rec
      ensures Valid()
      ensures forall b :: b in disc.buffers ==> b in old(disc.buffers) || fresh(b)
      ensures setup.Performs(old(View()), op, reply, View())
    {
      Apart();
      match op {
        case Register(def) =>
          var key := Register(def);
          reply := Registered(key);
        case Deregister(key) =>
          var done := Deregister(key);
          reply := Deregistered(done);
        case Instance(u) =>
          UpdateInstances(u);
          reply := Noted;
        case Resolve(name, tenant, role) =>
          var tool, d := Resolve(name, tenant, role);
          reply := Resolved(tool);
        case Validate(name, tenant, input) =>
          var valid := Validate(name, tenant, input);
          reply := Validated(valid);
        case List(tenant, f) =>
          var tools := List(tenant, f);
          reply := Listed(tools);
        case Invoke(req) =>
          var output := Invoke(req);
          reply := Invoked(output);
        case Background =>
          WorkerStep();
          reply := Noted;
      }
    }

    /** Every run of the service is one of taking keys over. It is one of the registry keyed by identity if and
        only if no registration on the way collides, which no slash-free one does. */
    method Run(ops: seq<Op>) returns (replies: seq<Reply>, ghost trace: seq<Reg>)
      requires Valid()
      modifies this`calls, store, disc, disc.buffers, rec
      ensures Valid()
      ensures forall b :: b in disc.buffers ==> b in old(disc.buffers) || fresh(b)
      ensures setup.IsPerformed(old(View()), trace, ops, replies, View())
      ensures setup.IsRun(old(View()), trace, ops, replies, View()) <==>
        forall i :: 0 <= i < |ops| ==> !setup.Collides(trace[i], ops[i])
      ensures (forall id :: id in old(View()).tools.Keys + Registrations(ops) ==> SlashFree(id)) ==>
        setup.IsRun(old(View()), trace, ops, replies, View())
      decreases |ops|
    {
      ghost var before := View();
      if |ops| == 0 {
        replies, trace := [], [before];
      } else {
        var reply := Do(ops[0]);
        ghost var next := View();
        var later, rest := Run(ops[1..]);
        replies, trace := [reply] + later, [before] + rest;
        RunCons(setup, before, ops, reply, next, rest, later, View());
      }
      RunOf(setup, before, trace, ops, replies, View());
    }

    // ----- interleaved runs -----

    /** Requests served side by side, whichever piece of whichever invocation the schedule runs next. A turn of
        an invocation that is finished or unknown, or a number already in use, is passed over. */
    method Serve(flights: map<nat, Flight>, schedule: seq<Turn>)
      returns (after: map<nat, Flight>, ghost trace: seq<System>, ghost events: seq<Event>)
      requires Valid() && AllCallable(flights)
      modifies this`calls, store, disc, disc.buffers, rec
      ensures Valid()
      ensures forall b :: b in disc.buffers ==> b in old(disc.buffers) || fresh(b)
      ensures Flights.Leads(setup, trace, events)
      ensures trace[0] == System(old(View()), flights) && trace[|events|] == System(View(), after)
      decreases |schedule|
    {
      ghost var here := System(View(), flights);
      if |schedule| == 0 {
        after, trace, events := flights, [here], [];
      } else if !Ready(flights, schedule[0]) {
        after, trace, events := Serve(flights, schedule[1..]);
      } else {
        ghost var e;
        after, e := TakeTurn(flights, schedule[0]);
        after, trace, events := Serve(after, schedule[1..]);
        Flights.LeadsCons(setup, here, e, trace, events);
        trace, events := [here] + trace, [e] + events;
      }
    }

    method AdvanceFlight(flights: map<nat, Flight>, id: nat) returns (after: map<nat, Flight>)
      requires Valid() && AllCallable(flights) && id in flights && !flights[id].stage.Finished?
      modifies this`calls, rec
      ensures Valid() && AllCallable(after)
      ensures Flights.Next(setup, System(old(View()), flights), Event.Advance(id), System(View(), after))
    {
      ghost var reg := View();
      var f := flights[id];
      var next := Advance(f.req, f.stage);
      after := flights[id := Flight(f.req, next)];
      AdvanceIsNext(setup, reg, flights, id, next, View());
    }

    method TakeTurn(flights: map<nat, Flight>, turn: Turn) returns (after: map<nat, Flight>, ghost e: Event)
      requires Valid() && AllCallable(flights) && Ready(flights, turn)
      modifies this`calls, store, disc, disc.buffers, rec
      ensures Valid() && AllCallable(after)
      ensures forall b :: b in disc.buffers ==> b in old(disc.buffers) || fresh(b)
      ensures Flights.Next(setup, System(old(View()), flights), e, System(View(), after))
    {
      Apart();
      ghost var reg := View();
      match turn {
        case Arrive(id, req) =>
          after, e := flights[id := Flight(req, Started)], Begin(id, req);
          BeginIsNext(setup, reg, flights, id, req);
        case Resume(id) =>
          after := AdvanceFlight(flights, id);
          e := Event.Advance(id);
        case Handle(op) =>
          var reply := Do(op);
          after, e := flights, Other(op, reply);
      }
    }
  }

  lemma NothingRegistered()
    ensures Abstract(map[]) == map[] && Metering.Offered([]) == []
  {
  }

  /** A service over an empty store, an empty instance table and a new recorder. */
  method Bootstrap(setup: Setup, buffer: int, hasSink: bool) returns (s: RegistryService)
    ensures fresh(s) && fresh(s.store) && fresh(s.disc) && fresh(s.rec) && s.setup == setup
    ensures s.Valid() && AllSlashFree(s.store.tools)
    ensures s.View() == Reg(map[], map[], [], [])
  {
    var store := new Store.InMemory(setup.equalFold);
    var disc := new Discovery.InMemory();
    var rec := new Recorder.AsyncRecorder(buffer, hasSink);
    assert (store as object) != disc && (store as object) != rec && (disc as object) != rec;
    assert store.Valid() && disc.Valid() && InGoodOrder(store.tools);
    assert rec.View().offers == [];
    NothingRegistered();
    s := new RegistryService(setup, store, disc, rec);
  }
}
