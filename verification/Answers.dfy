/** What every operation answers, read off the operations before it and the fields of what they registered. */
module Answers {
  import opened Sequences
  import opened Text
  import opened Domain
  import opened ToolTable
  import opened InstanceLists
  import opened RegistrySpec
  import opened RegistryRuns
  import Versions
  import Pick
  import Schema
  import Int64

  // ----- what stands -----

  /** The family of tenant and name has a standing registration. */
  ghost predicate AnyStanding(ops: seq<Op>, tenant: string, name: string) {
    exists v: string :: Standing(ops, Ident(tenant, name, v)).Some?
  }

  /** d is a standing registration of the family, and no version that stands in it is greater. */
  ghost predicate GreatestStanding(ops: seq<Op>, tenant: string, name: string, d: ToolDefinition) {
    && OfFamily(d, tenant, name) && Standing(ops, IdentOf(d)) == Some(d)
    && forall v: string :: Standing(ops, Ident(tenant, name, v)).Some? ==> Versions.Order(v, d.version) <= 0
  }

  lemma FamilyIsStanding(tools: map<Ident, ToolDefinition>, ops: seq<Op>, tenant: string, name: string)
    requires forall id :: Lookup(tools, id) == Standing(ops, id)
    ensures forall d :: d in Family(tools.Values, tenant, name) <==>
      OfFamily(d, tenant, name) && Standing(ops, IdentOf(d)) == Some(d)
  {
    forall d
      ensures d in Family(tools.Values, tenant, name) <==>
        OfFamily(d, tenant, name) && Standing(ops, IdentOf(d)) == Some(d)
    {
      assert Lookup(tools, IdentOf(d)) == Standing(ops, IdentOf(d));
      if d in tools.Values {
        var id :| id in tools && tools[id] == d;
        StandingIsOwn(ops, id);
        assert Lookup(tools, id) == Some(d);
      }
    }
  }

  // The latest definitions are the greatest that stand.
  lemma LatestIsStanding(tools: map<Ident, ToolDefinition>, ops: seq<Op>, tenant: string, name: string)
    requires forall id :: Lookup(tools, id) == Standing(ops, id)
    ensures Family(tools.Values, tenant, name) == {} <==> !AnyStanding(ops, tenant, name)
    ensures forall d :: Latest(d, Family(tools.Values, tenant, name)) <==> GreatestStanding(ops, tenant, name, d)
  {
    var fam := Family(tools.Values, tenant, name);
    FamilyIsStanding(tools, ops, tenant, name);
    forall v: string | Standing(ops, Ident(tenant, name, v)).Some?
      ensures Standing(ops, Ident(tenant, name, v)).value in fam
      ensures Standing(ops, Ident(tenant, name, v)).value.version == v
    {
      StandingIsOwn(ops, Ident(tenant, name, v));
    }
    forall d | d in fam ensures Standing(ops, Ident(tenant, name, d.version)) == Some(d) {
      assert IdentOf(d) == Ident(tenant, name, d.version);
    }
  }

  // ----- who may use a tool, and where it runs, on the fields and updates alone -----

  /** The role, normalized, is the control plane's, or the tool lists no roles, or this one among others. */
  predicate Permits(setup: Setup, d: ToolDefinition, role: string) {
    |d.rbac| > 0 ==> setup.normalize(role) == "admin" || exists r :: r in d.rbac && r == setup.normalize(role)
  }

  function KeyText(d: ToolDefinition): string {
    d.tenant + "/" + d.name + "/" + d.version
  }

  /** e is an endpoint of the key whose last value says that it is healthy. */
  ghost predicate HealthyAt(us: seq<Update>, key: string, e: string) {
    Current(us, key, e).Some? && Current(us, key, e).value.healthy
  }

  /** Exactly the healthy current instances of the key, in order of arrival. */
  ghost predicate ListsHealthy(insts: seq<ToolInstance>, us: seq<Update>, key: string) {
    && (forall i :: 0 <= i < |insts| ==>
          HealthyAt(us, key, insts[i].endpoint) && Current(us, key, insts[i].endpoint) == Some(insts[i]))
    && (forall e :: HealthyAt(us, key, e) ==> exists i :: 0 <= i < |insts| && insts[i].endpoint == e)
    && (forall i, j :: 0 <= i < j < |insts| ==>
          Arrival(us, key, insts[i].endpoint) < Arrival(us, key, insts[j].endpoint))
  }

  /** With discovery on and something healthy, the healthy instances; else the tool's own endpoint, if any. */
  ghost predicate Serves(setup: Setup, us: seq<Update>, d: ToolDefinition, insts: seq<ToolInstance>) {
    if setup.conf.discoveryEnabled && exists e :: HealthyAt(us, KeyText(d), e)
    then ListsHealthy(insts, us, KeyText(d))
    else insts == if d.endpoint != "" then [ToolInstance(d.endpoint, true, 1)] else []
  }

  lemma HealthyOfRun(us: seq<Update>, key: string)
    ensures ListsHealthy(Pick.HealthyOf(ListOf(InstanceLists.Run(us), key)), us, key)
  {
    var list := ListOf(InstanceLists.Run(us), key);
    var insts := Pick.HealthyOf(list);
    RunReflects(us, key);
    FilterMembers(list, Pick.IsHealthy);
    FilterPairwise(list, Pick.IsHealthy, ArrivesBefore(us, key));
    forall i, j | 0 <= i < j < |insts|
      ensures Arrival(us, key, insts[i].endpoint) < Arrival(us, key, insts[j].endpoint)
    {
      assert ArrivesBefore(us, key)(insts[i], insts[j]);
    }
    forall i | 0 <= i < |insts| ensures insts[i].healthy && Current(us, key, insts[i].endpoint) == Some(insts[i]) {
      assert insts[i] in insts;
      var k :| 0 <= k < |list| && list[k] == insts[i];
    }
    forall e | HealthyAt(us, key, e) ensures exists i :: 0 <= i < |insts| && insts[i].endpoint == e {
      var k :| 0 <= k < |list| && list[k].endpoint == e;
      assert list[k] in insts;
    }
  }

  lemma ListsHealthyUnique(a: seq<ToolInstance>, b: seq<ToolInstance>, us: seq<Update>, key: string)
    requires ListsHealthy(a, us, key) && ListsHealthy(b, us, key)
    ensures a == b
  {
    SameHealthy(a, b, us, key);
    SameHealthy(b, a, us, key);
    SortedUnique(a, b, ArrivesBefore(us, key));
  }

  lemma SameHealthy(a: seq<ToolInstance>, b: seq<ToolInstance>, us: seq<Update>, key: string)
    requires ListsHealthy(a, us, key) && ListsHealthy(b, us, key)
    ensures forall x :: x in a ==> x in b
  {
    forall x | x in a ensures x in b {
      assert HealthyAt(us, key, x.endpoint);
      var i :| 0 <= i < |b| && b[i].endpoint == x.endpoint;
      assert Current(us, key, b[i].endpoint) == Some(b[i]);
    }
  }

  // That is what the registry offers, and it leaves one possible list.
  lemma CandidatesServe(setup: Setup, us: seq<Update>, d: ToolDefinition, insts: seq<ToolInstance>)
    ensures insts == setup.Candidates(d, InstanceLists.Run(us)) <==> Serves(setup, us, d, insts)
  {
    var healthy := Pick.HealthyOf(ListOf(InstanceLists.Run(us), KeyText(d)));
    assert KeyText(d) == KeyOf(IdentOf(d));
    HealthyOfRun(us, KeyText(d));
    if healthy != [] { assert HealthyAt(us, KeyText(d), healthy[0].endpoint); }
    if Serves(setup, us, d, insts) && ListsHealthy(insts, us, KeyText(d)) {
      ListsHealthyUnique(insts, healthy, us, KeyText(d));
    }
  }

  lemma AllowPermits(setup: Setup, d: ToolDefinition, role: string)
    ensures setup.Allow(d, role) <==> Permits(setup, d, role)
  {
  }

  // ----- Resolve and Validate -----

  /** Not found when nothing of the family stands, else a greatest standing registration with the instances that
      serve it, or forbidden when its roles say so; nothing else. */
  ghost predicate ResolveTells(setup: Setup, past: seq<Op>, name: string, tenant: string, role: string,
                               tool: Result<ResolvedTool>)
  {
    if !AnyStanding(past, tenant, name) then tool == Err(NotFound)
    else exists d ::
      && GreatestStanding(past, tenant, name, d)
      && if Permits(setup, d, role)
         then tool.Ok? && tool.value.def == d && Serves(setup, UpdatesOf(past), d, tool.value.instances)
         else tool == Err(Forbidden)
  }

  /** Where input is checked, an accepting verdict is a success, a rejecting one an invalid input, and a panic
      nothing else. */
  ghost predicate InputTells(setup: Setup, d: ToolDefinition, input: Object, valid: Result<()>) {
    if !setup.conf.schemaValidation then valid == Ok(())
    else if valid == Ok(()) then setup.validator.NodeMay(d.inputSchema, input, Schema.Accepted)
    else if valid == Err(SchemaInvalid) then setup.validator.NodeMay(d.inputSchema, input, Schema.Rejected)
    else valid == Err(Panic) && setup.validator.NodeMay(d.inputSchema, input, Schema.Panicked)
  }

  // A panic needs a schema that can panic.
  lemma ValidateTellsInput(setup: Setup, d: ToolDefinition, input: Object, valid: Result<()>)
    ensures setup.MayValidate(d, input, valid) <==> InputTells(setup, d, input, valid)
    ensures InputTells(setup, d, input, valid) && valid == Err(Panic) ==> setup.validator.NodeCanPanic(d.inputSchema)
  {
    if InputTells(setup, d, input, valid) && setup.conf.schemaValidation {
      var v := if valid == Ok(()) then Schema.Accepted
               else if valid.error == Panic then Schema.Panicked else Schema.Rejected;
      assert setup.validator.NodeMay(d.inputSchema, input, v) && valid == Outcome(v);
      if valid == Err(Panic) { setup.validator.PanicNeedsEnum(d.inputSchema, input); }
    }
  }

  /** Not found when nothing of the family stands, else what a greatest standing registration makes of input. */
  ghost predicate ValidateTells(setup: Setup, past: seq<Op>, name: string, tenant: string, input: Object,
                                valid: Result<()>)
  {
    if !AnyStanding(past, tenant, name) then valid == Err(NotFound)
    else exists d :: GreatestStanding(past, tenant, name, d) && InputTells(setup, d, input, valid)
  }

  lemma ResolveFollows(setup: Setup, reg: Reg, past: seq<Op>, name: string, tenant: string, role: string,
                       tool: Result<ResolvedTool>)
    requires Follows(reg, past) && setup.ResolveAllows(reg, name, tenant, role, tool)
    ensures ResolveTells(setup, past, name, tenant, role, tool)
  {
    LatestIsStanding(reg.tools, past, tenant, name);
    var fam := Family(reg.tools.Values, tenant, name);
    if fam != {} {
      var d :| Latest(d, fam) && tool ==
        if setup.Allow(d, role) then Ok(ResolvedTool(d, setup.Candidates(d, reg.instances))) else Err(Forbidden);
      AllowPermits(setup, d, role);
      CandidatesServe(setup, UpdatesOf(past), d, setup.Candidates(d, reg.instances));
      assert GreatestStanding(past, tenant, name, d);
    }
  }

  lemma ValidateFollows(setup: Setup, reg: Reg, past: seq<Op>, name: string, tenant: string, input: Object,
                        valid: Result<()>)
    requires Follows(reg, past) && setup.ValidateAllows(reg, name, tenant, input, valid)
    ensures ValidateTells(setup, past, name, tenant, input, valid)
  {
    LatestIsStanding(reg.tools, past, tenant, name);
    var fam := Family(reg.tools.Values, tenant, name);
    if fam != {} {
      var d :| Latest(d, fam) && setup.MayValidate(d, input, valid);
      ValidateTellsInput(setup, d, input, valid);
      assert GreatestStanding(past, tenant, name, d);
    }
  }

  // In every run from the empty registry Resolve answers from the standing registrations of its family.
  lemma ResolveAnswersStanding(setup: Setup, before: Reg, trace: seq<Reg>, ops: seq<Op>,
                               replies: seq<Reply>, after: Reg, i: nat)
    requires setup.IsPerformed(before, trace, ops, replies, after) && before == Reg(map[], map[], [], [])
    requires i < |ops| && ops[i].Resolve?
    ensures replies[i].Resolved?
    ensures ResolveTells(setup, ops[..i], ops[i].name, ops[i].tenant, ops[i].role, replies[i].tool)
  {
    RunFollows(setup, before, trace, ops, replies, after, i);
    assert setup.Performs(trace[i], ops[i], replies[i], trace[i + 1]);
    ResolveFollows(setup, trace[i], ops[..i], ops[i].name, ops[i].tenant, ops[i].role, replies[i].tool);
  }

  // So does Validate.
  lemma ValidateAnswersStanding(setup: Setup, before: Reg, trace: seq<Reg>, ops: seq<Op>,
                                replies: seq<Reply>, after: Reg, i: nat)
    requires setup.IsPerformed(before, trace, ops, replies, after) && before == Reg(map[], map[], [], [])
    requires i < |ops| && ops[i].Validate?
    ensures replies[i].Validated?
    ensures ValidateTells(setup, ops[..i], ops[i].name, ops[i].tenant, ops[i].input, replies[i].valid)
  {
    RunFollows(setup, before, trace, ops, replies, after, i);
    assert setup.Performs(trace[i], ops[i], replies[i], trace[i + 1]);
    ValidateFollows(setup, trace[i], ops[..i], ops[i].name, ops[i].tenant, ops[i].input, replies[i].valid);
  }

  // ----- Invoke -----

  /** No call is made, and e says why. */
  ghost predicate NotCalled(reg: Reg, output: Result<Object>, reg': Reg, e: Error) {
    output == Err(e) && reg' == reg
  }

  /** One call and one metric of the request; only an http tool has an answer to report. */
  ghost predicate CalledOn(reg: Reg, req: Request, d: ToolDefinition, inst: ToolInstance,
                           output: Result<Object>, reg': Reg)
  {
    && reg' == reg.(
         calls := reg.calls + [Call(d.transport, inst, req.input)],
         metrics := reg.metrics + [CallMetric(req.tenant, req.name, req.world.latency, output.Ok?)])
    && output == if d.transport == "http" && req.world.answer.Some? then Ok(req.world.answer.value)
                 else Err(Upstream)
  }

  /** What a greatest standing registration makes of an invocation: role, input, instances and weights in turn. */
  ghost predicate InvokeTells(setup: Setup, past: seq<Op>, reg: Reg, req: Request, d: ToolDefinition,
                              output: Result<Object>, reg': Reg)
  {
    if !Permits(setup, d, req.role) then NotCalled(reg, output, reg', Forbidden)
    else if !InputTells(setup, d, req.input, Ok(())) then
      exists e :: NotCalled(reg, output, reg', e) && InputTells(setup, d, req.input, Err(e))
    else exists insts ::
      && Serves(setup, UpdatesOf(past), d, insts)
      && if insts == [] then NotCalled(reg, output, reg', Upstream)
         else exists i: nat ::
           && i < |insts| && CalledOn(reg, req, d, insts[i], output, reg')
           && (Int64.Fits(Pick.Total(insts)) ==> i == Pick.ChosenIndex(insts, Pick.Target(insts, req.world.rng)))
  }

  lemma InvokeFollows(setup: Setup, reg: Reg, past: seq<Op>, req: Request, d: ToolDefinition,
                      output: Result<Object>, reg': Reg)
    requires Follows(reg, past) && setup.MayInvoke(reg, req, d, output, reg')
    ensures InvokeTells(setup, past, reg, req, d, output, reg')
  {
    AllowPermits(setup, d, req.role);
    ValidateTellsInput(setup, d, req.input, Ok(()));
    if setup.Allow(d, req.role) && !setup.MayValidate(d, req.input, Ok(())) {
      ValidateTellsInput(setup, d, req.input, Err(output.error));
      assert NotCalled(reg, output, reg', output.error);
    } else if setup.Allow(d, req.role) {
      var insts := setup.Candidates(d, reg.instances);
      CandidatesServe(setup, UpdatesOf(past), d, insts);
      if insts != [] {
        var i: nat :| Pick.MayPick(insts, req.world.rng, i) && setup.Called(reg, req, d, insts[i], output, reg');
        PickedIsChosen(insts, req.world.rng, i);
        assert CalledOn(reg, req, d, insts[i], output, reg');
      }
    }
  }

  lemma PickedIsChosen(insts: seq<ToolInstance>, r: Fraction, i: nat)
    requires Pick.MayPick(insts, r, i)
    ensures Int64.Fits(Pick.Total(insts)) ==> i == Pick.ChosenIndex(insts, Pick.Target(insts, r))
  {
    Pick.TotalPositive(insts);
    if Int64.Fits(Pick.Total(insts)) { Pick.ReachesFirstIsChosen(insts, Pick.Target(insts, r), i); }
  }

  // And Invoke acts on them.
  lemma InvokeAnswersStanding(setup: Setup, before: Reg, trace: seq<Reg>, ops: seq<Op>,
                              replies: seq<Reply>, after: Reg, i: nat)
    requires setup.IsPerformed(before, trace, ops, replies, after) && before == Reg(map[], map[], [], [])
    requires i < |ops| && ops[i].Invoke?
    ensures replies[i].Invoked?
    ensures var (past, req, output) := (ops[..i], ops[i].request, replies[i].output);
      if !AnyStanding(past, req.tenant, req.name) then NotCalled(trace[i], output, trace[i + 1], NotFound)
      else exists d ::
        && GreatestStanding(past, req.tenant, req.name, d)
        && InvokeTells(setup, past, trace[i], req, d, output, trace[i + 1])
  {
    var past, req, reg, reg' := ops[..i], ops[i].request, trace[i], trace[i + 1];
    RunFollows(setup, before, trace, ops, replies, after, i);
    assert setup.Performs(reg, ops[i], replies[i], reg');
    LatestIsStanding(reg.tools, past, req.tenant, req.name);
    var fam := Family(reg.tools.Values, req.tenant, req.name);
    if fam != {} {
      var d :| Latest(d, fam) && setup.MayInvoke(reg, req, d, replies[i].output, reg');
      InvokeFollows(setup, reg, past, req, d, replies[i].output, reg');
      assert GreatestStanding(past, req.tenant, req.name, d);
    }
  }

  // ----- Register -----

  /** A name, a version and a tenant, and a kind, transport and auth type that the registry knows. */
  predicate MayRegister(d: ToolDefinition) {
    && |d.name| > 0 && |d.version| > 0 && |d.tenant| > 0
    && (d.kind == "db" || d.kind == "api" || d.kind == "file" || d.kind == "code"
        || d.kind == "search" || d.kind == "business")
    && (d.transport == "stdio" || d.transport == "sse" || d.transport == "http" || d.transport == "local")
    && (d.auth.kind == "" || d.auth.kind == "none" || d.auth.kind == "apikey" || d.auth.kind == "oauth2")
  }

  // Register stores a definition that may be registered under its three parts, with auth type none for a missing
  // one and otherwise as given, at the cost of nothing but another holder of its key. It refuses all others.
  lemma RegisterStores(setup: Setup, reg: Reg, def: ToolDefinition, reply: Reply, reg': Reg, id: Ident)
    requires setup.Performs(reg, Register(def), reply, reg')
    ensures reply == Registered(if MayRegister(def) then Ok(KeyText(def)) else Err(InvalidRequest))
    ensures !MayRegister(def) ==> reg' == reg
    ensures var own := Ident(def.tenant, def.name, def.version);
      MayRegister(def) ==>
        && reg' == reg.(tools := reg'.tools)
        && Lookup(reg'.tools, own) ==
             Some(def.(auth := ToolAuth(if def.auth.kind == "" then "none" else def.auth.kind, def.auth.config)))
        && (id != own && KeyOf(id) != KeyText(def) ==> Lookup(reg'.tools, id) == Lookup(reg.tools, id))
        && (id != own && KeyOf(id) == KeyText(def) ==> Lookup(reg'.tools, id) == None)
  {
    assert KeyOf(IdentOf(def)) == KeyText(def);
    assert Acceptable(Defaulted(def)) <==> MayRegister(def);
  }

  // ----- List, end to end -----

  // In every run from the empty registry a listing shows standing registrations of the tenant, of the kind asked
  // for and with one of the tags asked for, each once and by name. None is left out but for the limit, and then
  // only names that are not less than those shown.
  lemma ListAnswersStanding(setup: Setup, before: Reg, trace: seq<Reg>, ops: seq<Op>,
                            replies: seq<Reply>, after: Reg, i: nat, d: ToolDefinition)
    requires setup.IsPerformed(before, trace, ops, replies, after) && before == Reg(map[], map[], [], [])
    requires i < |ops| && ops[i].List?
    ensures replies[i].Listed?
    ensures var (op, tools) := (ops[i], replies[i].tools);
      var due :=
        && Standing(ops[..i], IdentOf(d)) == Some(d)
        && d.tenant == op.tenant
        && (op.filter.kind == "" || d.kind == op.filter.kind)
        && (op.filter.tags == [] || exists h, w :: h in d.tags && w in op.filter.tags && setup.equalFold(h, w));
      && (forall j, k :: 0 <= j < k < |tools| ==> tools[j] != tools[k] && !Less(tools[k].name, tools[j].name))
      && (d in tools ==> due)
      && (due && d !in tools ==> 0 < op.filter.limit == |tools|)
      && (due && d !in tools ==> forall e :: e in tools ==> !Less(d.name, e.name))
  {
    var op, past, reg := ops[i], ops[..i], trace[i];
    assert setup.Performs(reg, op, replies[i], trace[i + 1]);
    RunFollows(setup, before, trace, ops, replies, after, i);
    FamilyIsStanding(reg.tools, past, d.tenant, d.name);
    var matches := Matching(reg.tools.Values, op.tenant, op.filter, setup.equalFold);
    assert d in matches <==>
      d in Family(reg.tools.Values, d.tenant, d.name) && Matches(d, op.tenant, op.filter, setup.equalFold);
    if |replies[i].tools| == |matches| && d in matches {
      FullListing(matches, replies[i].tools, d);
    }
  }

  // A list of distinct members as long as the set leaves none out.
  lemma FullListing(matches: set<ToolDefinition>, tools: seq<ToolDefinition>, d: ToolDefinition)
    requires Distinct(tools) && |tools| == |matches| && forall t :: t in tools ==> t in matches
    requires d in matches
    ensures d in tools
  {
    var listed := set t | t in tools;
    if d !in tools {
      EnumeratesExtend(tools, listed, d);
      DistinctSize(tools + [d], listed + {d});
      SubsetSize(listed + {d}, matches);
    }
  }

  // ----- Deregister -----

  /** Every tool is kept under its own identity. */
  ghost predicate WellKeyed(tools: map<Ident, ToolDefinition>) {
    forall id :: id in tools ==> IdentOf(tools[id]) == id
  }

  // Deregister refuses a text without a slash, and answers any other with success.
  lemma DeregisterAnswers(setup: Setup, reg: Reg, key: string, reply: Reply, reg': Reg)
    requires setup.Performs(reg, Deregister(key), reply, reg')
    ensures reply == Deregistered(if '/' in key then Ok(()) else Err(InvalidRequest))
    ensures '/' !in key ==> reg' == reg
    ensures reg' == reg.(tools := reg'.tools)
  {
    var parts := Split(key, '/');
    if Free(key, '/') { SplitFree(key, '/'); }
    JoinOfSplit(key, '/');
    assert |parts| == 1 ==> Join(parts, '/') == parts[0] && parts[0] in parts;
  }

  // Deregistering a key empties the family its first two parts name, and no other. A printed key names the
  // family of its own registration exactly when tenant and name are slash-free.
  lemma DeregisterEmptiesFamily(setup: Setup, reg: Reg, id: Ident, done: Result<()>, reg': Reg,
                                tenant: string, name: string)
    requires WellKeyed(reg.tools) && setup.DeregisterAllows(reg, KeyOf(id), done, reg')
    ensures done == Ok(()) && WellKeyed(reg'.tools)
    ensures Family(reg'.tools.Values, tenant, name) ==
      if [tenant, name] == Split(KeyOf(id), '/')[..2] then {} else Family(reg.tools.Values, tenant, name)
    ensures id in reg.tools ==> (Family(reg'.tools.Values, id.tenant, id.name) == {} <==> SlashFree(id))
  {
    SplitOfKey(id);
    var parts := Split(KeyOf(id), '/');
    assert parts[..2] == [parts[0], parts[1]];
    RemoveEmptiesFamily(reg.tools, parts[0], parts[1], tenant, name);
    RemoveEmptiesFamily(reg.tools, parts[0], parts[1], id.tenant, id.name);
    if id in reg.tools { assert reg.tools[id] in Family(reg.tools.Values, id.tenant, id.name); }
  }

  lemma RemoveEmptiesFamily(tools: map<Ident, ToolDefinition>, t: string, n: string, tenant: string, name: string)
    requires WellKeyed(tools)
    ensures WellKeyed(RemoveFamily(tools, t, n))
    ensures Family(RemoveFamily(tools, t, n).Values, tenant, name) ==
      if tenant == t && name == n then {} else Family(tools.Values, tenant, name)
  {
    var left := RemoveFamily(tools, t, n);
    forall d ensures d in Family(left.Values, tenant, name) <==>
      d in Family(tools.Values, tenant, name) && !(tenant == t && name == n)
    {
      if d in tools.Values {
        var k :| k in tools && tools[k] == d;
        assert k == IdentOf(d);
        if k in left { assert left[k] == d; }
      }
    }
  }
}
