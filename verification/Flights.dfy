/** Invocations in flight: Invoke taken apart at the points where other requests may run in between. */
module Flights {
  import opened Sequences
  import opened Domain
  import opened ToolTable
  import opened RegistrySpec
  import Pick

  datatype Stage =
    | Started
    | Found(d: ToolDefinition)                      // looked up in the store and permitted
    | Picked(d: ToolDefinition, inst: ToolInstance) // input accepted, instances read, one picked
    | Answered(d: ToolDefinition, inst: ToolInstance, out: Option<Object>) // called, not yet metered
    | Finished(output: Result<Object>)

  datatype Flight = Flight(req: Request, stage: Stage)

  /** One step of the invocation of req, which reads the registry as it is now. */
  ghost predicate MayAdvance(setup: Setup, reg: Reg, req: Request, stage: Stage, stage': Stage, reg': Reg) {
    match stage
    case Started => MayFind(setup, reg, req, stage') && reg' == reg
    case Found(d) => MayChoose(setup, reg, req, d, stage') && reg' == reg
    case Picked(d, inst) =>
      && stage' == Answered(d, inst, Answer(req, d))
      && reg' == reg.(calls := reg.calls + [Call(d.transport, inst, req.input)])
    case Answered(d, inst, out) =>
      stage' == Finished(Reported(out)) && reg' == Metered(reg, req, out)
    case Finished(_) => false
  }

  ghost predicate MayFind(setup: Setup, reg: Reg, req: Request, stage: Stage) {
    var fam := Family(reg.tools.Values, req.tenant, req.name);
    if fam == {} then stage == Finished(Err(NotFound))
    else exists d :: Latest(d, fam) && stage == Permitted(setup, req, d)
  }

  ghost function Permitted(setup: Setup, req: Request, d: ToolDefinition): Stage {
    if setup.Allow(d, req.role) then Found(d) else Finished(Err(Forbidden))
  }

  ghost predicate MayChoose(setup: Setup, reg: Reg, req: Request, d: ToolDefinition, stage: Stage) {
    if !setup.MayValidate(d, req.input, Ok(())) then
      && stage.Finished? && stage.output.Err?
      && setup.MayValidate(d, req.input, Err(stage.output.error))
    else
      var candidates := setup.Candidates(d, reg.instances);
      if candidates == [] then stage == Finished(Err(Upstream))
      else exists i: nat :: Pick.MayPick(candidates, req.world.rng, i) && stage == Picked(d, candidates[i])
  }

  function Metered(reg: Reg, req: Request, out: Option<Object>): Reg {
    reg.(metrics := reg.metrics + [CallMetric(req.tenant, req.name, req.world.latency, out.Some?)])
  }

  // ----- a flight alone -----

  function Ahead(stage: Stage): nat {
    match stage
    case Started => 4
    case Found(_) => 3
    case Picked(_, _) => 2
    case Answered(_, _, _) => 1
    case Finished(_) => 0
  }

  /** From this stage the invocation may end with output and reg' when nothing runs in between. */
  ghost predicate EndsAlone(setup: Setup, reg: Reg, req: Request, stage: Stage, output: Result<Object>, reg': Reg)
    decreases Ahead(stage)
  {
    if stage.Finished? then output == stage.output && reg' == reg
    else exists next, mid ::
      && Ahead(next) < Ahead(stage) && MayAdvance(setup, reg, req, stage, next, mid)
      && EndsAlone(setup, mid, req, next, output, reg')
  }

  lemma AnsweredAlone(setup: Setup, reg: Reg, req: Request, d: ToolDefinition, inst: ToolInstance,
                      out: Option<Object>, output: Result<Object>, reg': Reg)
    ensures EndsAlone(setup, reg, req, Answered(d, inst, out), output, reg') <==>
      output == Reported(out) && reg' == Metered(reg, req, out)
  {
    var stage, end := Answered(d, inst, out), Finished(Reported(out));
    if output == Reported(out) && reg' == Metered(reg, req, out) {
      assert MayAdvance(setup, reg, req, stage, end, reg') && EndsAlone(setup, reg', req, end, output, reg');
    }
  }

  lemma PickedAlone(setup: Setup, reg: Reg, req: Request, d: ToolDefinition, inst: ToolInstance,
                    output: Result<Object>, reg': Reg)
    ensures EndsAlone(setup, reg, req, Picked(d, inst), output, reg') <==>
      setup.Called(reg, req, d, inst, output, reg')
  {
    var stage, next := Picked(d, inst), Answered(d, inst, Answer(req, d));
    var mid := reg.(calls := reg.calls + [Call(d.transport, inst, req.input)]);
    AnsweredAlone(setup, mid, req, d, inst, Answer(req, d), output, reg');
    assert MayAdvance(setup, reg, req, stage, next, mid);
    if EndsAlone(setup, reg, req, stage, output, reg') {
      var n, m :| MayAdvance(setup, reg, req, stage, n, m) && EndsAlone(setup, m, req, n, output, reg');
      assert MayAdvance(setup, reg, req, Picked(d, inst), n, m);
    }
  }

  lemma FoundAlone(setup: Setup, reg: Reg, req: Request, d: ToolDefinition, output: Result<Object>, reg': Reg)
    requires setup.Allow(d, req.role)
    ensures EndsAlone(setup, reg, req, Found(d), output, reg') <==> setup.MayInvoke(reg, req, d, output, reg')
  {
    if EndsAlone(setup, reg, req, Found(d), output, reg') {
      FoundAllowed(setup, reg, req, d, output, reg');
    }
    if setup.MayInvoke(reg, req, d, output, reg') {
      AllowedFound(setup, reg, req, d, output, reg');
    }
  }

  lemma FoundAllowed(setup: Setup, reg: Reg, req: Request, d: ToolDefinition, output: Result<Object>, reg': Reg)
    requires setup.Allow(d, req.role) && EndsAlone(setup, reg, req, Found(d), output, reg')
    ensures setup.MayInvoke(reg, req, d, output, reg')
  {
    var candidates := setup.Candidates(d, reg.instances);
    var next, mid :| MayAdvance(setup, reg, req, Found(d), next, mid) && EndsAlone(setup, mid, req, next, output, reg');
    assert MayAdvance(setup, reg, req, Found(d), next, mid);
    assert MayChoose(setup, reg, req, d, next) && mid == reg;
    if next.Picked? {
      PickedAlone(setup, reg, req, next.d, next.inst, output, reg');
      var i: nat :| Pick.MayPick(candidates, req.world.rng, i) && next == Picked(d, candidates[i]);
    }
  }

  lemma AllowedFound(setup: Setup, reg: Reg, req: Request, d: ToolDefinition, output: Result<Object>, reg': Reg)
    requires setup.Allow(d, req.role) && setup.MayInvoke(reg, req, d, output, reg')
    ensures EndsAlone(setup, reg, req, Found(d), output, reg')
  {
    var candidates := setup.Candidates(d, reg.instances);
    var next := Finished(output);
    if setup.MayValidate(d, req.input, Ok(())) && candidates != [] {
      var i: nat :|
        Pick.MayPick(candidates, req.world.rng, i) && setup.Called(reg, req, d, candidates[i], output, reg');
      next := Picked(d, candidates[i]);
      PickedAlone(setup, reg, req, d, candidates[i], output, reg');
    }
    assert MayAdvance(setup, reg, req, Found(d), next, reg);
  }

  // An invocation with nothing in between is exactly an Invoke of the abstract registry.
  lemma AloneIsInvoke(setup: Setup, reg: Reg, req: Request, output: Result<Object>, reg': Reg)
    ensures EndsAlone(setup, reg, req, Started, output, reg') <==> setup.InvokeAllows(reg, req, output, reg')
  {
    if EndsAlone(setup, reg, req, Started, output, reg') {
      AloneAllowed(setup, reg, req, output, reg');
    }
    if setup.InvokeAllows(reg, req, output, reg') {
      AllowedAlone(setup, reg, req, output, reg');
    }
  }

  lemma AloneAllowed(setup: Setup, reg: Reg, req: Request, output: Result<Object>, reg': Reg)
    requires EndsAlone(setup, reg, req, Started, output, reg')
    ensures setup.InvokeAllows(reg, req, output, reg')
  {
    var next, mid :| MayAdvance(setup, reg, req, Started, next, mid) && EndsAlone(setup, mid, req, next, output, reg');
    assert MayAdvance(setup, reg, req, Started, next, mid);
    assert MayFind(setup, reg, req, next) && mid == reg;
    var fam := Family(reg.tools.Values, req.tenant, req.name);
    if fam != {} {
      var d :| Latest(d, fam) && next == Permitted(setup, req, d);
      PermittedAlone(setup, reg, req, d, output, reg');
    }
  }

  lemma AllowedAlone(setup: Setup, reg: Reg, req: Request, output: Result<Object>, reg': Reg)
    requires setup.InvokeAllows(reg, req, output, reg')
    ensures EndsAlone(setup, reg, req, Started, output, reg')
  {
    var fam := Family(reg.tools.Values, req.tenant, req.name);
    if fam == {} {
      StartsAlone(setup, reg, req, Finished(output), output, reg');
    } else {
      var d :| Latest(d, fam) && setup.MayInvoke(reg, req, d, output, reg');
      PermittedAlone(setup, reg, req, d, output, reg');
      StartsAlone(setup, reg, req, Permitted(setup, req, d), output, reg');
    }
  }

  lemma StartsAlone(setup: Setup, reg: Reg, req: Request, next: Stage, output: Result<Object>, reg': Reg)
    requires MayFind(setup, reg, req, next) && EndsAlone(setup, reg, req, next, output, reg')
    ensures EndsAlone(setup, reg, req, Started, output, reg')
  {
    assert MayAdvance(setup, reg, req, Started, next, reg);
  }

  lemma PermittedAlone(setup: Setup, reg: Reg, req: Request, d: ToolDefinition, output: Result<Object>, reg': Reg)
    ensures EndsAlone(setup, reg, req, Permitted(setup, req, d), output, reg')
       <==> setup.MayInvoke(reg, req, d, output, reg')
  {
    if setup.Allow(d, req.role) { FoundAlone(setup, reg, req, d, output, reg'); }
  }

  // ----- flights among each other and among other requests -----

  /** The registry and all invocations, by a number that tells them apart. */
  datatype System = System(reg: Reg, flights: map<nat, Flight>)

  datatype Event =
    | Begin(id: nat, req: Request)
    | Advance(id: nat)
    | Other(op: Op, reply: Reply)

  ghost predicate Next(setup: Setup, s: System, e: Event, s': System) {
    match e
    case Begin(id, req) => id !in s.flights && s' == s.(flights := s.flights[id := Flight(req, Started)])
    case Advance(id) =>
      && id in s.flights && id in s'.flights
      && MayAdvance(setup, s.reg, s.flights[id].req, s.flights[id].stage, s'.flights[id].stage, s'.reg)
      && s'.flights == s.flights[id := Flight(s.flights[id].req, s'.flights[id].stage)]
    case Other(op, reply) => setup.Performs(s.reg, op, reply, s'.reg) && s'.flights == s.flights
  }

  /** The events lead through trace. */
  ghost predicate Leads(setup: Setup, trace: seq<System>, events: seq<Event>) {
    && |trace| == |events| + 1
    && forall i :: 0 <= i < |events| ==> Next(setup, trace[i], events[i], trace[i + 1])
  }

  /** So they do, and at the start there are no flights. */
  ghost predicate Interleaves(setup: Setup, trace: seq<System>, events: seq<Event>) {
    Leads(setup, trace, events) && trace[0].flights == map[]
  }

  lemma LeadsCons(setup: Setup, s: System, e: Event, trace: seq<System>, events: seq<Event>)
    requires Leads(setup, trace, events) && Next(setup, s, e, trace[0])
    ensures Leads(setup, [s] + trace, [e] + events)
  {
    var trace', events' := [s] + trace, [e] + events;
    forall i | 0 <= i < |events'| ensures Next(setup, trace'[i], events'[i], trace'[i + 1]) {
      if i > 0 { assert Next(setup, trace[i - 1], events[i - 1], trace[i]); }
    }
  }
}
