/** What every interleaving of invocations with each other and with other requests guarantees. */
module FlightRuns {
  import opened Sequences
  import opened Text
  import opened Domain
  import opened ToolTable
  import opened InstanceLists
  import opened RegistrySpec
  import opened RegistryRuns
  import opened Answers
  import opened Flights
  import Pick
  import Schema
  import Versions

  /** The flights whose call is made and not metered yet. */
  function Unmetered(flights: map<nat, Flight>): set<nat> {
    set id | id in flights && flights[id].stage.Answered?
  }

  // In every interleaving the calls without a metric are those of the flights between call and metric.
  lemma {:induction false} CallsAwaitMetrics(setup: Setup, trace: seq<System>, events: seq<Event>, i: nat)
    requires Interleaves(setup, trace, events) && i <= |events|
    ensures |trace[i].reg.calls| - |trace[0].reg.calls|
         == |trace[i].reg.metrics| - |trace[0].reg.metrics| + |Unmetered(trace[i].flights)|
  {
    if i > 0 {
      CallsAwaitMetrics(setup, trace, events, i - 1);
      StepAwaits(setup, trace[i - 1], events[i - 1], trace[i]);
    }
  }

  lemma StepAwaits(setup: Setup, s: System, e: Event, s': System)
    requires Next(setup, s, e, s')
    ensures |s'.reg.calls| - |s.reg.calls|
         == |s'.reg.metrics| - |s.reg.metrics| + |Unmetered(s'.flights)| - |Unmetered(s.flights)|
  {
    match e
    case Begin(id, req) => assert Unmetered(s'.flights) == Unmetered(s.flights);
    case Advance(id) => AdvanceAwaits(setup, s, id, s');
    case Other(op, reply) => AtMostOneCall(setup, s.reg, op, reply, s'.reg);
  }

  lemma AdvanceAwaits(setup: Setup, s: System, id: nat, s': System)
    requires Next(setup, s, Advance(id), s')
    ensures |s'.reg.calls| - |s.reg.calls|
         == |s'.reg.metrics| - |s.reg.metrics| + |Unmetered(s'.flights)| - |Unmetered(s.flights)|
  {
    var before, after := Unmetered(s.flights), Unmetered(s'.flights);
    match s.flights[id].stage
    case Picked(_, _) => assert after == before + {id};
    case Answered(_, _, _) => assert before == after + {id};
    case Started | Found(_) => assert after == before;
  }

  lemma {:induction false} LogsGrow(setup: Setup, trace: seq<System>, events: seq<Event>, j: nat, i: nat)
    requires Interleaves(setup, trace, events) && j <= i <= |events|
    ensures trace[j].reg.calls <= trace[i].reg.calls && trace[j].reg.metrics <= trace[i].reg.metrics
    decreases i
  {
    if j < i {
      LogsGrow(setup, trace, events, j, i - 1);
      StepGrows(setup, trace[i - 1], events[i - 1], trace[i]);
    }
  }

  lemma StepGrows(setup: Setup, s: System, e: Event, s': System)
    requires Next(setup, s, e, s')
    ensures s.reg.calls <= s'.reg.calls && s.reg.metrics <= s'.reg.metrics
  {
    if e.Other? { AtMostOneCall(setup, s.reg, e.op, e.reply, s'.reg); }
  }

  // ----- what a flight has behind it -----

  // The step that brought a flight where it is.
  lemma {:induction false} LastAdvance(setup: Setup, trace: seq<System>, events: seq<Event>, i: nat, id: nat)
    returns (j: nat)
    requires Interleaves(setup, trace, events) && i <= |events|
    requires id in trace[i].flights && !trace[i].flights[id].stage.Started?
    ensures j < i && events[j] == Advance(id) && id in trace[j].flights
    ensures trace[j].flights[id].req == trace[i].flights[id].req
    ensures MayAdvance(setup, trace[j].reg, trace[i].flights[id].req,
                       trace[j].flights[id].stage, trace[i].flights[id].stage, trace[j + 1].reg)
    decreases i
  {
    j := i - 1;
    assert Next(setup, trace[j], events[j], trace[i]);
    if events[j] != Advance(id) {
      j := LastAdvance(setup, trace, events, i - 1, id);
    }
  }

  /** d was a latest definition for the request, and permitted. */
  ghost predicate LookedUp(setup: Setup, reg: Reg, req: Request, d: ToolDefinition) {
    Latest(d, Family(reg.tools.Values, req.tenant, req.name)) && setup.Allow(d, req.role)
  }

  /** The input passes for d, where input is checked. */
  ghost predicate InputPasses(setup: Setup, req: Request, d: ToolDefinition) {
    setup.conf.schemaValidation ==> setup.validator.NodeAccepts(d.inputSchema, req.input)
  }

  /** At t flight id looked d up, and at u, before j, it drew inst; at j it is about to call inst. */
  ghost predicate Grounded(setup: Setup, trace: seq<System>, events: seq<Event>, id: nat, t: nat, u: nat, j: nat) {
    && t < u < j < |trace| == |events| + 1 && events[t] == events[u] == Advance(id)
    && id in trace[j].flights && trace[j].flights[id].stage.Picked?
    && var Flight(req, Picked(d, inst)) := trace[j].flights[id];
       && LookedUp(setup, trace[t].reg, req, d) && InputPasses(setup, req, d)
       && Drawn(setup, trace[u].reg.instances, req, d, inst)
  }

  lemma FoundBehind(setup: Setup, trace: seq<System>, events: seq<Event>, i: nat, id: nat) returns (t: nat)
    requires Interleaves(setup, trace, events) && i <= |events|
    requires id in trace[i].flights && trace[i].flights[id].stage.Found?
    ensures t < i && events[t] == Advance(id)
    ensures LookedUp(setup, trace[t].reg, trace[i].flights[id].req, trace[i].flights[id].stage.d)
  {
    t := LastAdvance(setup, trace, events, i, id);
  }

  // A flight about to call has behind it one moment at which its definition was a latest one and permitted, and
  // a later one at which its instance was drawn from the candidates.
  lemma PickedBehind(setup: Setup, trace: seq<System>, events: seq<Event>, i: nat, id: nat) returns (t: nat, u: nat)
    requires Interleaves(setup, trace, events) && i <= |events|
    requires id in trace[i].flights && trace[i].flights[id].stage.Picked?
    ensures Grounded(setup, trace, events, id, t, u, i)
  {
    u := LastAdvance(setup, trace, events, i, id);
    t := FoundBehind(setup, trace, events, u, id);
    var Flight(req, Picked(d, inst)) := trace[i].flights[id];
    ChosenWhenPicked(setup, trace[u].reg, req, d, inst);
  }

  lemma ChosenWhenPicked(setup: Setup, reg: Reg, req: Request, d: ToolDefinition, inst: ToolInstance)
    requires MayChoose(setup, reg, req, d, Picked(d, inst))
    ensures InputPasses(setup, req, d) && Drawn(setup, reg.instances, req, d, inst)
  {
    var candidates := setup.Candidates(d, reg.instances);
    var i: nat :| Pick.MayPick(candidates, req.world.rng, i) && inst == candidates[i];
    PickedIsDrawn(setup, reg.instances, req, d, i);
    setup.ValidOrNot(d, req.input, Ok(()));
  }

  function CallOf(f: Flight): Call
    requires f.stage.Picked?
  {
    Call(f.stage.d.transport, f.stage.inst, f.req.input)
  }

  // Whatever runs in between, a flight that has called was grounded when it did, and entry |trace[v].reg.calls|
  // of the log is its call.
  lemma CallBehind(setup: Setup, trace: seq<System>, events: seq<Event>, i: nat, id: nat)
    returns (t: nat, u: nat, v: nat)
    requires Interleaves(setup, trace, events) && i <= |events|
    requires id in trace[i].flights && trace[i].flights[id].stage.Answered?
    ensures v < i && events[v] == Advance(id) && Grounded(setup, trace, events, id, t, u, v)
    ensures var Flight(req, Answered(d, inst, _)) := trace[i].flights[id];
      && trace[v].flights[id] == Flight(req, Picked(d, inst))
      && trace[i].flights[id].stage.out == if d.transport == "http" then req.world.answer else None
    ensures |trace[v].reg.calls| < |trace[i].reg.calls|
    ensures trace[i].reg.calls[|trace[v].reg.calls|] == CallOf(trace[v].flights[id])
  {
    v := LastAdvance(setup, trace, events, i, id);
    t, u := PickedBehind(setup, trace, events, v, id);
    LogsGrow(setup, trace, events, v + 1, i);
  }

  // A success has such a call behind it, and after it a metric.
  lemma SuccessBehind(setup: Setup, trace: seq<System>, events: seq<Event>, i: nat, id: nat)
    returns (t: nat, u: nat, v: nat, w: nat)
    requires Interleaves(setup, trace, events) && i <= |events|
    requires id in trace[i].flights && trace[i].flights[id].stage.Finished? && trace[i].flights[id].stage.output.Ok?
    ensures v < w < i && events[v] == events[w] == Advance(id) && Grounded(setup, trace, events, id, t, u, v)
    ensures var req := trace[i].flights[id].req;
      && trace[v].flights[id].req == req && trace[v].flights[id].stage.d.transport == "http"
      && req.world.answer == Some(trace[i].flights[id].stage.output.value)
    ensures |trace[v].reg.calls| < |trace[i].reg.calls|
    ensures trace[i].reg.calls[|trace[v].reg.calls|] == CallOf(trace[v].flights[id])
    ensures MetersAt(trace, events, w) && MetricAt(trace, i, w, trace[i].flights[id].req, true)
  {
    w := LastAdvance(setup, trace, events, i, id);
    t, u, v := CallBehind(setup, trace, events, w, id);
    LogsGrow(setup, trace, events, w, i);
    AnswerIsMetered(setup, trace, events, i, id, w);
  }

  /** The metric that step w offered, as it stands in the log at i. */
  ghost predicate MetricAt(trace: seq<System>, i: nat, w: nat, req: Request, success: bool)
    requires w < i < |trace|
  {
    && |trace[w].reg.metrics| < |trace[i].reg.metrics|
    && trace[i].reg.metrics[|trace[w].reg.metrics|] == CallMetric(req.tenant, req.name, req.world.latency, success)
  }

  lemma AnswerIsMetered(setup: Setup, trace: seq<System>, events: seq<Event>, i: nat, id: nat, w: nat)
    requires Interleaves(setup, trace, events) && w < i <= |events|
    requires id in trace[w].flights && trace[w].flights[id].stage.Answered? && events[w] == Advance(id)
    ensures MetricAt(trace, i, w, trace[w].flights[id].req, trace[w].flights[id].stage.out.Some?)
  {
    var f := trace[w].flights[id];
    assert Next(setup, trace[w], events[w], trace[w + 1]);
    LogsGrow(setup, trace, events, w + 1, i);
  }

  /** Step j is the call of a flight. */
  predicate CallsAt(trace: seq<System>, events: seq<Event>, j: nat)
    requires |trace| == |events| + 1 && j < |events|
  {
    events[j].Advance? && events[j].id in trace[j].flights && trace[j].flights[events[j].id].stage.Picked?
  }

  /** Step j is the metric of a flight. */
  predicate MetersAt(trace: seq<System>, events: seq<Event>, j: nat)
    requires |trace| == |events| + 1 && j < |events|
  {
    events[j].Advance? && events[j].id in trace[j].flights && trace[j].flights[events[j].id].stage.Answered?
  }

  // No two steps share an entry of a log, so no two flights do.
  lemma OwnEntries(setup: Setup, trace: seq<System>, events: seq<Event>, j: nat, k: nat)
    requires Interleaves(setup, trace, events) && j < k < |events|
    ensures CallsAt(trace, events, j) ==> |trace[j].reg.calls| < |trace[k].reg.calls|
    ensures MetersAt(trace, events, j) ==> |trace[j].reg.metrics| < |trace[k].reg.metrics|
  {
    assert Next(setup, trace[j], events[j], trace[j + 1]);
    LogsGrow(setup, trace, events, j + 1, k);
  }

  lemma RefusedWhenChosen(setup: Setup, reg: Reg, req: Request, d: ToolDefinition, output: Result<Object>)
    requires MayChoose(setup, reg, req, d, Finished(output))
    ensures output.Err?
    ensures var e := output.error;
      if InputPasses(setup, req, d) then e == Upstream && setup.Candidates(d, reg.instances) == []
      else (e == SchemaInvalid || e == Panic) && setup.MayValidate(d, req.input, Err(e))
  {
    if setup.MayValidate(d, req.input, Ok(())) {
      setup.ValidOrNot(d, req.input, Ok(()));
    } else {
      setup.ValidOrNot(d, req.input, Err(output.error));
    }
  }

  // A failure has a step w behind it that explains it: no such tool or no permission when it looked, an input that
  // does not pass or no candidate when it chose, or else a call, metered as a failure.
  lemma FailureBehind(setup: Setup, trace: seq<System>, events: seq<Event>, i: nat, id: nat) returns (w: nat)
    requires Interleaves(setup, trace, events) && i <= |events|
    requires id in trace[i].flights && trace[i].flights[id].stage.Finished? && trace[i].flights[id].stage.output.Err?
    ensures w < i && events[w] == Advance(id) && id in trace[w].flights
    ensures var (reg, req, e) := (trace[w].reg, trace[i].flights[id].req, trace[i].flights[id].stage.output.error);
      match trace[w].flights[id].stage
      case Started =>
        || (e == NotFound && Family(reg.tools.Values, req.tenant, req.name) == {})
        || (e == Forbidden && exists d ::
              Latest(d, Family(reg.tools.Values, req.tenant, req.name)) && !setup.Allow(d, req.role))
      case Found(d) =>
        && (exists t :: 0 <= t < w && events[t] == Advance(id) && LookedUp(setup, trace[t].reg, req, d))
        && if InputPasses(setup, req, d) then e == Upstream && setup.Candidates(d, reg.instances) == []
           else (e == SchemaInvalid || e == Panic) && setup.MayValidate(d, req.input, Err(e))
      case Answered(d, inst, out) =>
        && e == Upstream && (d.transport == "http" ==> req.world.answer.None?) && MetricAt(trace, i, w, req, false)
        && exists t: nat, u: nat, v: nat ::
             && v < w && Grounded(setup, trace, events, id, t, u, v) && events[v] == Advance(id)
             && trace[v].flights[id] == Flight(req, Picked(d, inst))
      case _ => false
  {
    w := LastAdvance(setup, trace, events, i, id);
    match trace[w].flights[id].stage
    case Started =>
    case Found(d) =>
      var t := FoundBehind(setup, trace, events, w, id);
      RefusedWhenChosen(setup, trace[w].reg, trace[i].flights[id].req, d, trace[i].flights[id].stage.output);
    case Answered(_, _, _) =>
      var t, u, v := CallBehind(setup, trace, events, w, id);
      AnswerIsMetered(setup, trace, events, i, id, w);
  }

  // ----- what an entry of the logs has behind it -----

  /** Step j is the call of a grounded flight. */
  ghost predicate FlightCall(setup: Setup, trace: seq<System>, events: seq<Event>, j: nat, call: Call)
    requires |trace| == |events| + 1 && j < |events|
  {
    && CallsAt(trace, events, j) && call == CallOf(trace[j].flights[events[j].id])
    && exists t: nat, u: nat :: Grounded(setup, trace, events, events[j].id, t, u, j)
  }

  /** Step j is an uninterrupted Invoke that made and metered the call. */
  ghost predicate InvokeCall(setup: Setup, s: System, e: Event, call: Call, metric: CallMetric) {
    && e.Other? && e.op.Invoke? && e.reply.Invoked?
    && CallAndMetric(setup, s.reg, e.op.request, e.reply.output.Ok?, call, metric)
  }

  // Every call of the log was made by a grounded flight or by an uninterrupted Invoke.
  lemma {:induction false} CallsAreJustified(setup: Setup, trace: seq<System>, events: seq<Event>, i: nat, c: nat)
    returns (j: nat)
    requires Interleaves(setup, trace, events) && i <= |events|
    requires |trace[0].reg.calls| <= c < |trace[i].reg.calls|
    ensures j < i && |trace[j].reg.calls| == c
    ensures var call := trace[i].reg.calls[c];
      || FlightCall(setup, trace, events, j, call)
      || exists metric :: InvokeCall(setup, trace[j], events[j], call, metric)
    decreases i
  {
    j := i - 1;
    StepGrows(setup, trace[j], events[j], trace[i]);
    if c < |trace[j].reg.calls| {
      j := CallsAreJustified(setup, trace, events, i - 1, c);
    } else {
      StepCalls(setup, trace[j], events[j], trace[i]);
      if CallsAt(trace, events, j) {
        var t, u := PickedBehind(setup, trace, events, j, events[j].id);
      }
    }
  }

  lemma StepCalls(setup: Setup, s: System, e: Event, s': System)
    requires Next(setup, s, e, s') && s'.reg.calls != s.reg.calls
    ensures
      || (e.Advance? && s.flights[e.id].stage.Picked? && s'.reg.calls == s.reg.calls + [CallOf(s.flights[e.id])])
      || exists call, metric :: s'.reg.calls == s.reg.calls + [call] && InvokeCall(setup, s, e, call, metric)
  {
    if e.Other? {
      var call, metric := StepInvokes(setup, s, e, s');
      assert s'.reg.calls == s.reg.calls + [call] && InvokeCall(setup, s, e, call, metric);
    }
  }

  lemma StepInvokes(setup: Setup, s: System, e: Event, s': System) returns (call: Call, metric: CallMetric)
    requires Next(setup, s, e, s') && e.Other?
    requires s'.reg.calls != s.reg.calls || s'.reg.metrics != s.reg.metrics
    ensures s'.reg.calls == s.reg.calls + [call] && s'.reg.metrics == s.reg.metrics + [metric]
    ensures InvokeCall(setup, s, e, call, metric)
  {
    AtMostOneCall(setup, s.reg, e.op, e.reply, s'.reg);
    call, metric :| s'.reg.calls == s.reg.calls + [call] && s'.reg.metrics == s.reg.metrics + [metric]
      && CallAndMetric(setup, s.reg, e.op.request, e.reply.output.Ok?, call, metric);
  }

  /** The metric of a flight that was answered. */
  ghost predicate FlightMetric(f: Flight, metric: CallMetric) {
    && f.stage.Answered?
    && metric == CallMetric(f.req.tenant, f.req.name, f.req.world.latency, f.stage.out.Some?)
  }

  /** The event offers the metric: for the answer of a flight, or within an uninterrupted Invoke. */
  ghost predicate OffersMetric(setup: Setup, s: System, e: Event, metric: CallMetric) {
    || (e.Advance? && e.id in s.flights && FlightMetric(s.flights[e.id], metric))
    || exists call :: InvokeCall(setup, s, e, call, metric)
  }

  // Every metric of the log is that of an answered flight or of an uninterrupted Invoke.
  lemma {:induction false} MetricsAreOfCalls(setup: Setup, trace: seq<System>, events: seq<Event>, i: nat, m: nat)
    returns (j: nat)
    requires Interleaves(setup, trace, events) && i <= |events|
    requires |trace[0].reg.metrics| <= m < |trace[i].reg.metrics|
    ensures j < i && |trace[j].reg.metrics| == m
    ensures OffersMetric(setup, trace[j], events[j], trace[i].reg.metrics[m])
    decreases i
  {
    j := i - 1;
    StepGrows(setup, trace[j], events[j], trace[i]);
    if m < |trace[j].reg.metrics| {
      j := MetricsAreOfCalls(setup, trace, events, i - 1, m);
    } else {
      var metric := StepMeters(setup, trace[j], events[j], trace[i]);
    }
  }

  lemma StepMeters(setup: Setup, s: System, e: Event, s': System) returns (metric: CallMetric)
    requires Next(setup, s, e, s') && s'.reg.metrics != s.reg.metrics
    ensures s'.reg.metrics == s.reg.metrics + [metric] && OffersMetric(setup, s, e, metric)
  {
    if e.Other? {
      var call;
      call, metric := StepInvokes(setup, s, e, s');
    } else {
      var f := s.flights[e.id];
      metric := CallMetric(f.req.tenant, f.req.name, f.req.world.latency, f.stage.out.Some?);
    }
  }

  // ----- justified when made -----

  /** An invocation that looks and chooses now may call inst. */
  ghost predicate MayCallNow(setup: Setup, reg: Reg, req: Request, d: ToolDefinition, inst: ToolInstance) {
    LookedUp(setup, reg, req, d) && InputPasses(setup, req, d) && inst in setup.Candidates(d, reg.instances)
  }

  // When a flight is about to call, role, input and health are as they were. The call is justified exactly when
  // its definition is still a latest one and its instance still offered, and an invocation could make it afresh
  // exactly when the instance is still a candidate.
  lemma JustifiedExactly(setup: Setup, trace: seq<System>, events: seq<Event>, i: nat, id: nat)
    requires Interleaves(setup, trace, events) && i <= |events|
    requires id in trace[i].flights && trace[i].flights[id].stage.Picked?
    ensures var Flight(req, Picked(d, inst)) := trace[i].flights[id];
      var reg := trace[i].reg;
      var fam := Family(reg.tools.Values, req.tenant, req.name);
      && (Justified(setup, reg, req, d, inst) <==> Latest(d, fam) && Offers(reg.instances, d, inst))
      && (MayCallNow(setup, reg, req, d, inst) <==> Latest(d, fam) && inst in setup.Candidates(d, reg.instances))
  {
    var t, u := PickedBehind(setup, trace, events, i, id);
    var Flight(_, Picked(d, inst)) := trace[i].flights[id];
    CandidatesJustified(setup, d, trace[u].reg.instances, inst);
  }

  /** The operations among the events. */
  function OpsOf(events: seq<Event>): seq<Op> {
    if events == [] then []
    else
      var before, last := OpsOf(events[..|events| - 1]), events[|events| - 1];
      if last.Other? then before + [last.op] else before
  }

  // The tables are those of the operations among the events, whatever flights there are.
  lemma {:induction false} TablesFollow(setup: Setup, trace: seq<System>, events: seq<Event>, i: nat)
    requires Interleaves(setup, trace, events) && i <= |events|
    requires trace[0].reg.tools == map[] && trace[0].reg.instances == map[]
    ensures Follows(trace[i].reg, OpsOf(events[..i]))
  {
    if i > 0 {
      var e, past := events[i - 1], OpsOf(events[..i - 1]);
      TablesFollow(setup, trace, events, i - 1);
      assert events[..i][..i - 1] == events[..i - 1];
      assert Next(setup, trace[i - 1], e, trace[i]);
      if e.Other? {
        FollowsStep(setup, trace[i - 1].reg, e.op, e.reply, trace[i].reg, past);
      } else {
        SameTables(trace[i - 1].reg, trace[i].reg, past);
      }
    }
  }

  lemma SameTables(reg: Reg, reg': Reg, past: seq<Op>)
    requires Follows(reg, past) && reg'.tools == reg.tools && reg'.instances == reg.instances
    ensures Follows(reg', past)
  {
  }

  lemma FollowsStep(setup: Setup, reg: Reg, op: Op, reply: Reply, reg': Reg, past: seq<Op>)
    requires setup.Performs(reg, op, reply, reg') && Follows(reg, past)
    ensures Follows(reg', past + [op])
  {
    forall id ensures Lookup(reg'.tools, id) == Standing(past + [op], id) {
      StandingStep(setup, reg, op, reply, reg', past, id);
    }
    InstancesStep(setup, reg, op, reply, reg', past);
  }

  // From the empty registry the condition can be read off the operations: d is still a greatest standing
  // registration, and inst still what its endpoint was last registered with.
  lemma JustifiedByHistory(setup: Setup, trace: seq<System>, events: seq<Event>, i: nat, id: nat)
    requires Interleaves(setup, trace, events) && i <= |events|
    requires trace[0].reg.tools == map[] && trace[0].reg.instances == map[]
    requires id in trace[i].flights && trace[i].flights[id].stage.Picked?
    ensures var Flight(req, Picked(d, inst)) := trace[i].flights[id];
      var past := OpsOf(events[..i]);
      Justified(setup, trace[i].reg, req, d, inst) <==>
        && GreatestStanding(past, req.tenant, req.name, d)
        && (Current(UpdatesOf(past), KeyOf(IdentOf(d)), inst.endpoint) == Some(inst)
            || (inst.endpoint == d.endpoint && d.endpoint != ""))
  {
    var Flight(req, Picked(d, inst)) := trace[i].flights[id];
    var past := OpsOf(events[..i]);
    JustifiedExactly(setup, trace, events, i, id);
    TablesFollow(setup, trace, events, i);
    LatestIsStanding(trace[i].reg.tools, past, req.tenant, req.name);
    ListedIsCurrent(UpdatesOf(past), KeyOf(IdentOf(d)), inst);
  }

  /** The operation may change which tools there are. */
  predicate ChangesTools(e: Event) {
    e.Other? && (e.op.Register? || e.op.Deregister?)
  }

  predicate ChangesInstances(e: Event) {
    e.Other? && e.op.Instance?
  }

  /** No tools change after t nor instances after u, up to i. */
  predicate Undisturbed(events: seq<Event>, t: nat, u: nat, i: nat)
    requires i <= |events|
  {
    && (forall k :: t < k < i ==> !ChangesTools(events[k]))
    && forall k :: u < k < i ==> !ChangesInstances(events[k])
  }

  lemma {:induction false} ToolsStay(setup: Setup, trace: seq<System>, events: seq<Event>, j: nat, i: nat)
    requires Interleaves(setup, trace, events) && j <= i <= |events|
    requires forall k :: j <= k < i ==> !ChangesTools(events[k])
    ensures trace[i].reg.tools == trace[j].reg.tools
    decreases i
  {
    if j < i {
      ToolsStay(setup, trace, events, j, i - 1);
      assert Next(setup, trace[i - 1], events[i - 1], trace[i]);
      assert !ChangesTools(events[i - 1]);
    }
  }

  lemma {:induction false} InstancesStay(setup: Setup, trace: seq<System>, events: seq<Event>, j: nat, i: nat)
    requires Interleaves(setup, trace, events) && j <= i <= |events|
    requires forall k :: j <= k < i ==> !ChangesInstances(events[k])
    ensures trace[i].reg.instances == trace[j].reg.instances
    decreases i
  {
    if j < i {
      InstancesStay(setup, trace, events, j, i - 1);
      assert Next(setup, trace[i - 1], events[i - 1], trace[i]);
      assert !ChangesInstances(events[i - 1]);
    }
  }

  // So it is when no registration or deregistration came after the lookup, and no instance update after the choice.
  lemma UndisturbedIsJustified(setup: Setup, trace: seq<System>, events: seq<Event>, i: nat, id: nat)
    returns (t: nat, u: nat)
    requires Interleaves(setup, trace, events) && i <= |events|
    requires id in trace[i].flights && trace[i].flights[id].stage.Picked?
    ensures Grounded(setup, trace, events, id, t, u, i)
    ensures var Flight(req, Picked(d, inst)) := trace[i].flights[id];
      Undisturbed(events, t, u, i) ==> Justified(setup, trace[i].reg, req, d, inst)
  {
    t, u := PickedBehind(setup, trace, events, i, id);
    var Flight(_, Picked(d, inst)) := trace[i].flights[id];
    CandidatesJustified(setup, d, trace[u].reg.instances, inst);
    if Undisturbed(events, t, u, i) {
      ToolsStay(setup, trace, events, t, i);
      InstancesStay(setup, trace, events, u, i);
    }
  }

  // Otherwise a call may be made though its tool is gone: a deregistration in between does not stop it.
  lemma CallOutlivesDeregistration(setup: Setup, s: System, id: nat, key: string) returns (s': System, s'': System)
    requires id in s.flights && s.flights[id].stage.Picked?
    requires |Split(key, '/')| > 1 && Split(key, '/')[..2] == [s.flights[id].req.tenant, s.flights[id].req.name]
    ensures Next(setup, s, Other(Deregister(key), Deregistered(Ok(()))), s') && Next(setup, s', Advance(id), s'')
    ensures var Flight(req, Picked(d, inst)) := s.flights[id];
      && (forall k :: k in s'.reg.tools ==> !(k.tenant == req.tenant && k.name == req.name))
      && s''.reg.calls == s.reg.calls + [Call(d.transport, inst, req.input)]
  {
    var Flight(req, Picked(d, inst)) := s.flights[id];
    assert Split(key, '/')[..2] == [Split(key, '/')[0], Split(key, '/')[1]];
    s' := s.(reg := s.reg.(tools := RemoveFamily(s.reg.tools, req.tenant, req.name)));
    s'' := System(s'.reg.(calls := s.reg.calls + [Call(d.transport, inst, req.input)]),
                  s.flights[id := Flight(req, Answered(d, inst, Answer(req, d)))]);
  }

  // ----- a stale call, from the empty registry on -----

  /** An http tool that admits every role and every input, and its own endpoint. */
  function SampleTool(): ToolDefinition {
    ToolDefinition("n", "1", "api", "t", map[], map[], "http", "e", ToolAuth("none", map[]), [], [])
  }

  function SampleInstance(): ToolInstance {
    ToolInstance("e", true, 1)
  }

  function SampleRequest(): Request {
    Request("n", "t", "", map[], World(0.0, None, 0))
  }

  function SampleTools(): map<Ident, ToolDefinition> {
    map[IdentOf(SampleTool()) := SampleTool()]
  }

  /** Register, begin, look up, choose; then deregister, and call. */
  function StaleEvents(): seq<Event> {
    var key := KeyOf(IdentOf(SampleTool()));
    [Other(Register(SampleTool()), Registered(Ok(key))), Begin(0, SampleRequest()), Advance(0), Advance(0),
     Other(Deregister(key), Deregistered(Ok(()))), Advance(0)]
  }

  function SampleSystem(tools: map<Ident, ToolDefinition>, calls: seq<Call>, stage: Stage): System {
    System(Reg(tools, map[], calls, []), map[0 := Flight(SampleRequest(), stage)])
  }

  function StaleTrace(): seq<System> {
    var d, inst := SampleTool(), SampleInstance();
    [System(Reg(map[], map[], [], []), map[]), System(Reg(SampleTools(), map[], [], []), map[]),
     SampleSystem(SampleTools(), [], Started), SampleSystem(SampleTools(), [], Found(d)),
     SampleSystem(SampleTools(), [], Picked(d, inst)), SampleSystem(map[], [], Picked(d, inst)),
     SampleSystem(map[], [Call("http", inst, map[])], Answered(d, inst, None))]
  }

  // Whatever the setup, the call of this interleaving is justified before the deregistration and not when made.
  lemma StaleCall(setup: Setup)
    ensures Interleaves(setup, StaleTrace(), StaleEvents())
    ensures StaleTrace()[0] == System(Reg(map[], map[], [], []), map[])
    ensures Justified(setup, StaleTrace()[4].reg, SampleRequest(), SampleTool(), SampleInstance())
    ensures !Justified(setup, StaleTrace()[5].reg, SampleRequest(), SampleTool(), SampleInstance())
    ensures StaleTrace()[5].reg.calls == [] && StaleTrace()[6].reg.calls == [Call("http", SampleInstance(), map[])]
  {
    StaleOps(setup);
    StaleLookup(setup);
    StaleChoice(setup);
    SampleJustified(setup);
  }

  lemma StaleOps(setup: Setup)
    ensures Next(setup, StaleTrace()[0], StaleEvents()[0], StaleTrace()[1])
    ensures Next(setup, StaleTrace()[4], StaleEvents()[4], StaleTrace()[5])
  {
    SampleTabled(setup);
  }

  lemma StaleLookup(setup: Setup)
    ensures Next(setup, StaleTrace()[1], StaleEvents()[1], StaleTrace()[2])
    ensures Next(setup, StaleTrace()[2], StaleEvents()[2], StaleTrace()[3])
  {
    SampleFound(setup);
  }

  lemma StaleChoice(setup: Setup)
    ensures Next(setup, StaleTrace()[3], StaleEvents()[3], StaleTrace()[4])
    ensures Next(setup, StaleTrace()[5], StaleEvents()[5], StaleTrace()[6])
  {
    SamplePicked(setup);
  }

  lemma SampleJustified(setup: Setup)
    ensures Justified(setup, StaleTrace()[4].reg, SampleRequest(), SampleTool(), SampleInstance())
    ensures !Justified(setup, StaleTrace()[5].reg, SampleRequest(), SampleTool(), SampleInstance())
  {
    SampleFound(setup);
    SamplePicked(setup);
    setup.ValidOrNot(SampleTool(), map[], Ok(()));
  }

  lemma SampleFound(setup: Setup)
    ensures Latest(SampleTool(), Family(SampleTools().Values, "t", "n"))
    ensures MayFind(setup, SampleSystem(SampleTools(), [], Started).reg, SampleRequest(), Found(SampleTool()))
  {
    Versions.OrderReflexive("1");
    assert SampleTools()[IdentOf(SampleTool())] == SampleTool();
    assert Family(SampleTools().Values, "t", "n") == {SampleTool()};
  }

  lemma SamplePicked(setup: Setup)
    ensures setup.MayValidate(SampleTool(), map[], Ok(()))
    ensures setup.Candidates(SampleTool(), map[]) == [SampleInstance()]
    ensures MayChoose(setup, SampleSystem(SampleTools(), [], Started).reg, SampleRequest(), SampleTool(),
                      Picked(SampleTool(), SampleInstance()))
  {
    assert setup.validator.NodeMay(map[], map[], Schema.Accepted);
    assert Outcome(Schema.Accepted) == Ok(());
    Pick.OnlyOneToPick(SampleInstance());
  }

  // Registering the tool in an empty table and deregistering it again.
  lemma SampleTabled(setup: Setup)
    ensures Acceptable(Defaulted(SampleTool())) && Defaulted(SampleTool()) == SampleTool()
    ensures Overwrite(map[], SampleTool()) == SampleTools()
    ensures var parts := Split(KeyOf(IdentOf(SampleTool())), '/');
      |parts| > 1 && RemoveFamily(SampleTools(), parts[0], parts[1]) == map[]
  {
    var parts := Split(KeyOf(IdentOf(SampleTool())), '/');
    SplitOfKey(IdentOf(SampleTool()));
    assert parts[0] == "t" && parts[1] == "n" by { assert parts[..2] == [parts[0], parts[1]]; }
  }

  // ----- other requests among flights -----

  // Resolve and Validate answer from the operations before them, whatever flights there are.
  lemma AnswersAmidFlights(setup: Setup, trace: seq<System>, events: seq<Event>, i: nat)
    requires Interleaves(setup, trace, events) && i < |events| && events[i].Other?
    requires trace[0].reg.tools == map[] && trace[0].reg.instances == map[]
    ensures var (past, op, reply) := (OpsOf(events[..i]), events[i].op, events[i].reply);
      && (op.Resolve? ==>
            reply.Resolved? && ResolveTells(setup, past, op.name, op.tenant, op.role, reply.tool))
      && (op.Validate? ==>
            reply.Validated? && ValidateTells(setup, past, op.name, op.tenant, op.input, reply.valid))
  {
    var past, op, reply := OpsOf(events[..i]), events[i].op, events[i].reply;
    TablesFollow(setup, trace, events, i);
    assert Next(setup, trace[i], events[i], trace[i + 1]);
    match op
    case Resolve(name, tenant, role) => ResolveFollows(setup, trace[i].reg, past, name, tenant, role, reply.tool);
    case Validate(name, tenant, input) => ValidateFollows(setup, trace[i].reg, past, name, tenant, input, reply.valid);
    case _ =>
  }
}
