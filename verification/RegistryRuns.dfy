/** What every run of the registry guarantees its callers. */
module RegistryRuns {
  import opened Sequences
  import opened Text
  import opened Domain
  import opened ToolTable
  import opened InstanceLists
  import opened RegistrySpec
  import Int64
  import Pick

  // ----- the history of one registration, read off the operations alone -----

  /** The definition last registered under id, if neither deregistered since nor its key taken by another. */
  function Standing(ops: seq<Op>, id: Ident): Option<ToolDefinition> {
    if ops == [] then None
    else
      var before := Standing(ops[..|ops| - 1], id);
      match ops[|ops| - 1]
      case Register(def) =>
        if !Acceptable(Defaulted(def)) || KeyOf(IdentOf(def)) != KeyOf(id) then before
        else if IdentOf(def) == id then Some(Defaulted(def)) else None
      case Deregister(key) =>
        if |Split(key, '/')| > 1 && Split(key, '/')[..2] == [id.tenant, id.name] then None else before
      case _ => before
  }

  /** The definition last registered under id and not deregistered since. */
  function LastRegistered(ops: seq<Op>, id: Ident): Option<ToolDefinition> {
    if ops == [] then None
    else
      var before := LastRegistered(ops[..|ops| - 1], id);
      match ops[|ops| - 1]
      case Register(def) =>
        if Acceptable(Defaulted(def)) && IdentOf(def) == id then Some(Defaulted(def)) else before
      case Deregister(key) =>
        if |Split(key, '/')| > 1 && Split(key, '/')[..2] == [id.tenant, id.name] then None else before
      case _ => before
  }

  // Where keys differ, nothing but deregistration ends a registration.
  lemma {:induction false} StandingIsLast(ops: seq<Op>, id: Ident)
    requires KeysDiffer(Registrations(ops) + {id})
    ensures Standing(ops, id) == LastRegistered(ops, id)
  {
    if ops != [] {
      var front, last := ops[..|ops| - 1], ops[|ops| - 1];
      assert Registrations(front) <= Registrations(ops);
      StandingIsLast(front, id);
      if last.Register? { assert IdentOf(last.def) in Registrations(ops); }
    }
  }

  /** The instance updates among the operations. */
  function UpdatesOf(ops: seq<Op>): seq<Update> {
    if ops == [] then []
    else
      var before, last := UpdatesOf(ops[..|ops| - 1]), ops[|ops| - 1];
      if last.Instance? then before + [last.update] else before
  }

  function Lookup(tools: map<Ident, ToolDefinition>, id: Ident): Option<ToolDefinition> {
    if id in tools then Some(tools[id]) else None
  }

  lemma StandingStep(setup: Setup, reg: Reg, op: Op, reply: Reply, reg': Reg, ops: seq<Op>, id: Ident)
    requires setup.Performs(reg, op, reply, reg') && Lookup(reg.tools, id) == Standing(ops, id)
    ensures Lookup(reg'.tools, id) == Standing(ops + [op], id)
  {
    assert (ops + [op])[..|ops|] == ops;
    match op
    case Deregister(key) =>
      var parts := Split(key, '/');
      if |parts| > 1 { assert parts[..2] == [parts[0], parts[1]]; }
    case Invoke(req) => InvokeKeepsTables(setup, reg, req, reply.output, reg');
    case _ =>
  }

  lemma InvokeKeepsTables(setup: Setup, reg: Reg, req: Request, output: Result<Object>, reg': Reg)
    requires setup.InvokeAllows(reg, req, output, reg')
    ensures reg'.tools == reg.tools && reg'.instances == reg.instances
  {
  }

  // At every point of a run from the empty registry the tools are the standing registrations.
  lemma {:induction false} ToolsAreStanding(setup: Setup, before: Reg, trace: seq<Reg>, ops: seq<Op>,
                                            replies: seq<Reply>, after: Reg, i: nat, id: Ident)
    requires setup.IsPerformed(before, trace, ops, replies, after) && before.tools == map[] && i <= |ops|
    ensures Lookup(trace[i].tools, id) == Standing(ops[..i], id)
  {
    if i > 0 {
      ToolsAreStanding(setup, before, trace, ops, replies, after, i - 1, id);
      assert ops[..i] == ops[..i - 1] + [ops[i - 1]];
      StandingStep(setup, trace[i - 1], ops[i - 1], replies[i - 1], trace[i], ops[..i - 1], id);
    }
  }

  // A standing registration is one of its own identity.
  lemma {:induction false} StandingIsOwn(ops: seq<Op>, id: Ident)
    ensures Standing(ops, id).Some? ==> IdentOf(Standing(ops, id).value) == id
  {
    if ops != [] { StandingIsOwn(ops[..|ops| - 1], id); }
  }

  lemma InstancesStep(setup: Setup, reg: Reg, op: Op, reply: Reply, reg': Reg, ops: seq<Op>)
    requires setup.Performs(reg, op, reply, reg') && reg.instances == InstanceLists.Run(UpdatesOf(ops))
    ensures reg'.instances == InstanceLists.Run(UpdatesOf(ops + [op]))
  {
    assert (ops + [op])[..|ops|] == ops;
    match op
    case Instance(u) =>
      var us := UpdatesOf(ops);
      assert (us + [u])[..|us|] == us;
    case Invoke(req) => InvokeKeepsTables(setup, reg, req, reply.output, reg');
    case _ =>
  }

  // And the instances are those of the updates among the operations.
  lemma {:induction false} InstancesAreUpdates(setup: Setup, before: Reg, trace: seq<Reg>, ops: seq<Op>,
                                               replies: seq<Reply>, after: Reg, i: nat)
    requires setup.IsPerformed(before, trace, ops, replies, after) && before.instances == map[] && i <= |ops|
    ensures trace[i].instances == InstanceLists.Run(UpdatesOf(ops[..i]))
  {
    if i > 0 {
      InstancesAreUpdates(setup, before, trace, ops, replies, after, i - 1);
      assert ops[..i] == ops[..i - 1] + [ops[i - 1]];
      InstancesStep(setup, trace[i - 1], ops[i - 1], replies[i - 1], trace[i], ops[..i - 1]);
    }
  }

  // ----- the tables after any run -----

  /** The tables of reg are those that the operations leave. */
  ghost predicate Follows(reg: Reg, ops: seq<Op>) {
    && (forall id :: Lookup(reg.tools, id) == Standing(ops, id))
    && reg.instances == InstanceLists.Run(UpdatesOf(ops))
  }

  lemma RunFollows(setup: Setup, before: Reg, trace: seq<Reg>, ops: seq<Op>, replies: seq<Reply>, after: Reg, i: nat)
    requires setup.IsPerformed(before, trace, ops, replies, after) && i <= |ops|
    requires before.tools == map[] && before.instances == map[]
    ensures Follows(trace[i], ops[..i])
  {
    forall id ensures Lookup(trace[i].tools, id) == Standing(ops[..i], id) {
      ToolsAreStanding(setup, before, trace, ops, replies, after, i, id);
    }
    InstancesAreUpdates(setup, before, trace, ops, replies, after, i);
  }

  // ----- Invoke -----

  /** A call of d on inst that role, input and the instance table justify. */
  ghost predicate Justified(setup: Setup, reg: Reg, req: Request, d: ToolDefinition, inst: ToolInstance) {
    && Latest(d, Family(reg.tools.Values, req.tenant, req.name))
    && setup.Allow(d, req.role)
    && (setup.conf.schemaValidation ==> setup.validator.NodeAccepts(d.inputSchema, req.input))
    && inst.healthy && Offers(reg.instances, d, inst)
  }

  /** inst is registered for d, or stands for its own endpoint. */
  predicate Offers(instances: Table, d: ToolDefinition, inst: ToolInstance) {
    inst in ListOf(instances, KeyOf(IdentOf(d))) || (inst.endpoint == d.endpoint && d.endpoint != "")
  }

  /** inst is the candidate that the weights and the random value choose; any, when their sum is no int. */
  ghost predicate Drawn(setup: Setup, instances: Table, req: Request, d: ToolDefinition, inst: ToolInstance) {
    var candidates := setup.Candidates(d, instances);
    && inst in candidates
    && (Int64.Fits(Pick.Total(candidates)) ==>
          inst == candidates[Pick.ChosenIndex(candidates, Pick.Target(candidates, req.world.rng))])
  }

  /** Exactly one call and one metric were added, both of this request. The reply and the metric tell the answer,
      which only an http tool can have. */
  ghost predicate OneCall(reg: Reg, req: Request, d: ToolDefinition, inst: ToolInstance,
                          output: Result<Object>, reg': Reg)
  {
    && reg'.calls == reg.calls + [Call(d.transport, inst, req.input)]
    && reg'.metrics == reg.metrics + [CallMetric(req.tenant, req.name, req.world.latency, output.Ok?)]
    && output == if d.transport == "http" && req.world.answer.Some? then Ok(req.world.answer.value)
                 else Err(Upstream)
  }

  ghost predicate JustifiedCall(setup: Setup, reg: Reg, req: Request, d: ToolDefinition, inst: ToolInstance,
                                output: Result<Object>, reg': Reg)
  {
    && Justified(setup, reg, req, d, inst) && Drawn(setup, reg.instances, req, d, inst)
    && OneCall(reg, req, d, inst, output, reg')
  }

  lemma PickedIsDrawn(setup: Setup, instances: Table, req: Request, d: ToolDefinition, i: nat)
    requires Pick.MayPick(setup.Candidates(d, instances), req.world.rng, i)
    ensures Drawn(setup, instances, req, d, setup.Candidates(d, instances)[i])
  {
    var candidates := setup.Candidates(d, instances);
    Pick.TotalPositive(candidates);
    if Int64.Fits(Pick.Total(candidates)) {
      Pick.ReachesFirstIsChosen(candidates, Pick.Target(candidates, req.world.rng), i);
    }
  }

  lemma CandidatesJustified(setup: Setup, d: ToolDefinition, instances: Table, inst: ToolInstance)
    requires inst in setup.Candidates(d, instances)
    ensures inst.healthy && Offers(instances, d, inst)
  {
    FilterMembers(ListOf(instances, KeyOf(IdentOf(d))), Pick.IsHealthy);
  }

  /** Role, input or lack of instances keep d from being called, and e says which. */
  ghost predicate Refused(setup: Setup, reg: Reg, req: Request, d: ToolDefinition, e: Error) {
    && Latest(d, Family(reg.tools.Values, req.tenant, req.name))
    && if !setup.Allow(d, req.role) then e == Forbidden
       else if setup.conf.schemaValidation && !setup.validator.NodeAccepts(d.inputSchema, req.input)
       then e == SchemaInvalid || e == Panic
       else setup.Candidates(d, reg.instances) == [] && e == Upstream
  }

  // Invoke makes one justified and metered call, or none: then there is no such tool, or a latest definition
  // that refuses it, and the error says why.
  lemma InvokeCallsJustified(setup: Setup, reg: Reg, req: Request, output: Result<Object>, reg': Reg)
    requires setup.InvokeAllows(reg, req, output, reg')
    ensures
      || (reg' == reg && output == Err(NotFound) && Family(reg.tools.Values, req.tenant, req.name) == {})
      || (reg' == reg && output.Err? && exists d :: Refused(setup, reg, req, d, output.error))
      || exists d, inst :: JustifiedCall(setup, reg, req, d, inst, output, reg')
  {
    var fam := Family(reg.tools.Values, req.tenant, req.name);
    if fam != {} {
      var d :| Latest(d, fam) && setup.MayInvoke(reg, req, d, output, reg');
      if !setup.Allow(d, req.role) {
        assert Refused(setup, reg, req, d, Forbidden);
      } else if !setup.MayValidate(d, req.input, Ok(())) {
        InvalidIsRefused(setup, reg, req, d, output.error);
      } else {
        setup.ValidOrNot(d, req.input, Ok(()));
        if setup.Candidates(d, reg.instances) == [] {
          assert Refused(setup, reg, req, d, Upstream);
        } else {
          CalledIsJustified(setup, reg, req, d, output, reg');
        }
      }
    }
  }

  lemma InvalidIsRefused(setup: Setup, reg: Reg, req: Request, d: ToolDefinition, e: Error)
    requires Latest(d, Family(reg.tools.Values, req.tenant, req.name)) && setup.Allow(d, req.role)
    requires setup.MayValidate(d, req.input, Err(e))
    ensures Refused(setup, reg, req, d, e)
  {
    setup.ValidOrNot(d, req.input, Err(e));
  }

  lemma CalledIsJustified(setup: Setup, reg: Reg, req: Request, d: ToolDefinition, output: Result<Object>, reg': Reg)
    requires Latest(d, Family(reg.tools.Values, req.tenant, req.name)) && setup.Allow(d, req.role)
    requires setup.MayValidate(d, req.input, Ok(())) && setup.Candidates(d, reg.instances) != []
    requires setup.MayInvoke(reg, req, d, output, reg')
    ensures exists inst :: JustifiedCall(setup, reg, req, d, inst, output, reg')
  {
    var candidates := setup.Candidates(d, reg.instances);
    var i: nat :|
      Pick.MayPick(candidates, req.world.rng, i) && setup.Called(reg, req, d, candidates[i], output, reg');
    CandidatesJustified(setup, d, reg.instances, candidates[i]);
    PickedIsDrawn(setup, reg.instances, req, d, i);
    setup.ValidOrNot(d, req.input, Ok(()));
    assert JustifiedCall(setup, reg, req, d, candidates[i], output, reg');
  }

  /** A justified call and its metric, for one request and its outcome. */
  ghost predicate CallAndMetric(setup: Setup, reg: Reg, req: Request, success: bool, call: Call, metric: CallMetric) {
    exists d, inst ::
      && Justified(setup, reg, req, d, inst) && Drawn(setup, reg.instances, req, d, inst)
      && call == Call(d.transport, inst, req.input)
      && metric == CallMetric(req.tenant, req.name, req.world.latency, success)
  }

  // No step but Invoke makes calls or offers metrics, and Invoke makes at most one of each.
  lemma AtMostOneCall(setup: Setup, reg: Reg, op: Op, reply: Reply, reg': Reg)
    requires setup.Performs(reg, op, reply, reg')
    ensures
      || (reg'.calls == reg.calls && reg'.metrics == reg.metrics)
      || (op.Invoke? && reply.Invoked? && exists call, metric ::
            && reg'.calls == reg.calls + [call] && reg'.metrics == reg.metrics + [metric]
            && CallAndMetric(setup, reg, op.request, reply.output.Ok?, call, metric))
  {
    if op.Invoke? {
      InvokeCallsJustified(setup, reg, op.request, reply.output, reg');
      var req, output := op.request, reply.output;
      if d, inst :| JustifiedCall(setup, reg, req, d, inst, output, reg') {
        assert CallAndMetric(setup, reg, req, output.Ok?, Call(d.transport, inst, req.input),
                             CallMetric(req.tenant, req.name, req.world.latency, output.Ok?));
      }
    }
  }

  /** A step adds at most one call and as many metrics, for a justified call of an Invoke. */
  ghost predicate GrowsLogs(setup: Setup, reg: Reg, op: Op, reply: Reply, reg': Reg) {
    && reg.calls <= reg'.calls && reg.metrics <= reg'.metrics
    && |reg'.calls| - |reg.calls| == |reg'.metrics| - |reg.metrics| <= 1
    && (|reg.calls| < |reg'.calls| ==>
          && op.Invoke? && reply.Invoked?
          && CallAndMetric(setup, reg, op.request, reply.output.Ok?,
                           reg'.calls[|reg.calls|], reg'.metrics[|reg.metrics|]))
  }

  ghost predicate AllGrowLogs(setup: Setup, trace: seq<Reg>, ops: seq<Op>, replies: seq<Reply>) {
    && |trace| == |ops| + 1 && |replies| == |ops|
    && forall i :: 0 <= i < |ops| ==> GrowsLogs(setup, trace[i], ops[i], replies[i], trace[i + 1])
  }

  lemma RunGrowsLogs(setup: Setup, before: Reg, trace: seq<Reg>, ops: seq<Op>, replies: seq<Reply>, after: Reg)
    requires setup.IsPerformed(before, trace, ops, replies, after)
    ensures AllGrowLogs(setup, trace, ops, replies)
  {
    forall i | 0 <= i < |ops| ensures GrowsLogs(setup, trace[i], ops[i], replies[i], trace[i + 1]) {
      LogStep(setup, trace[i], ops[i], replies[i], trace[i + 1]);
    }
  }

  lemma LogStep(setup: Setup, reg: Reg, op: Op, reply: Reply, reg': Reg)
    requires setup.Performs(reg, op, reply, reg')
    ensures GrowsLogs(setup, reg, op, reply, reg')
  {
    AtMostOneCall(setup, reg, op, reply, reg');
  }

  lemma {:induction false} LogsGrowTogether(setup: Setup, trace: seq<Reg>, ops: seq<Op>, replies: seq<Reply>, i: nat)
    requires AllGrowLogs(setup, trace, ops, replies) && i <= |ops|
    ensures trace[0].calls <= trace[i].calls && trace[0].metrics <= trace[i].metrics
    ensures |trace[i].calls| - |trace[0].calls| == |trace[i].metrics| - |trace[0].metrics| <= i
  {
    if i > 0 {
      LogsGrowTogether(setup, trace, ops, replies, i - 1);
      assert GrowsLogs(setup, trace[i - 1], ops[i - 1], replies[i - 1], trace[i]);
    }
  }

  lemma {:induction false} EntryBehind(setup: Setup, trace: seq<Reg>, ops: seq<Op>, replies: seq<Reply>,
                                       i: nat, c: nat, m: nat) returns (j: nat)
    requires AllGrowLogs(setup, trace, ops, replies) && i <= |ops|
    requires |trace[0].calls| <= c < |trace[i].calls| && c - |trace[0].calls| == m - |trace[0].metrics|
    ensures m < |trace[i].metrics|
    ensures j < i && ops[j].Invoke? && replies[j].Invoked? && |trace[j].calls| == c && |trace[j].metrics| == m
    ensures CallAndMetric(setup, trace[j], ops[j].request, replies[j].output.Ok?,
                          trace[i].calls[c], trace[i].metrics[m])
  {
    LogsGrowTogether(setup, trace, ops, replies, i - 1);
    assert GrowsLogs(setup, trace[i - 1], ops[i - 1], replies[i - 1], trace[i]);
    if c < |trace[i - 1].calls| {
      j := EntryBehind(setup, trace, ops, replies, i - 1, c, m);
    } else {
      j := i - 1;
    }
  }

  // Over a run there is one metric for every transport call, and calls and metrics are never lost.
  lemma OneMetricPerCall(setup: Setup, before: Reg, trace: seq<Reg>, ops: seq<Op>,
                         replies: seq<Reply>, after: Reg, i: nat)
    requires setup.IsPerformed(before, trace, ops, replies, after) && i <= |ops|
    ensures before.calls <= trace[i].calls && before.metrics <= trace[i].metrics
    ensures |trace[i].calls| - |before.calls| == |trace[i].metrics| - |before.metrics| <= i
  {
    RunGrowsLogs(setup, before, trace, ops, replies, after);
    LogsGrowTogether(setup, trace, ops, replies, i);
  }

  // The k-th new call c and the k-th new metric m are those of one Invoke, with its request and outcome.
  lemma MetricTellsCall(setup: Setup, before: Reg, trace: seq<Reg>, ops: seq<Op>,
                        replies: seq<Reply>, after: Reg, i: nat, c: nat, m: nat) returns (j: nat)
    requires setup.IsPerformed(before, trace, ops, replies, after) && i <= |ops|
    requires |before.calls| <= c < |trace[i].calls| && c - |before.calls| == m - |before.metrics|
    ensures m < |trace[i].metrics|
    ensures j < i && ops[j].Invoke? && replies[j].Invoked? && |trace[j].calls| == c && |trace[j].metrics| == m
    ensures CallAndMetric(setup, trace[j], ops[j].request, replies[j].output.Ok?,
                          trace[i].calls[c], trace[i].metrics[m])
  {
    RunGrowsLogs(setup, before, trace, ops, replies, after);
    j := EntryBehind(setup, trace, ops, replies, i, c, m);
  }
}
