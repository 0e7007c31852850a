/** What the registry service promises, over tools keyed by tenant, name and version. */
module RegistrySpec {
  import opened Sequences
  import opened Text
  import opened Domain
  import opened ToolTable
  import opened InstanceLists
  import Pick
  import Schema

  /** Panic is a run-time panic, not an error the service returns. */
  datatype Error = InvalidRequest | Forbidden | NotFound | SchemaInvalid | Upstream | Panic

  datatype Result<+T> = Ok(value: T) | Err(error: Error)

  datatype Config = Config(schemaValidation: bool, discoveryEnabled: bool)

  const KINDS := ["db", "api", "file", "code", "search", "business"]
  const TRANSPORTS := ["stdio", "sse", "http", "local"]
  const AUTH_TYPES := ["none", "apikey", "oauth2"]

  // ----- transports -----

  /** The http adapter calls out; the others report that the tool's own runtime has to be asked. */
  datatype Adapter = Http | Delegated(kind: string)

  function Selector(kind: string): (a: Option<Adapter>)
    ensures a.Some? <==> kind in TRANSPORTS
    ensures a == Some(Http) <==> kind == "http"
  {
    match kind
    case "http" => Some(Http)
    case "stdio" => Some(Delegated("stdio"))
    case "sse" => Some(Delegated("sse"))
    case "local" => Some(Delegated("local"))
    case _ => None
  }

  datatype Call = Call(transport: string, inst: ToolInstance, input: Object)

  // ----- the abstract registry -----

  /** Registered tools and instances, and the calls made and metrics offered so far. */
  datatype Reg = Reg(tools: map<Ident, ToolDefinition>, instances: Table,
                     calls: seq<Call>, metrics: seq<CallMetric>)

  type Fraction = r: real | 0.0 <= r < 1.0

  /** What an invocation meets outside: the value of the random source, the answer of an endpoint called over
      http, if it succeeds, and the time the call takes. */
  datatype World = World(rng: Fraction, answer: Option<Object>, latency: nat)

  datatype Request = Request(name: string, tenant: string, role: string, input: Object, world: World)

  /** Only http calls out; the other transports report that they do not. */
  function Answer(req: Request, d: ToolDefinition): Option<Object> {
    if d.transport == "http" then req.world.answer else None
  }

  function Reported(out: Option<Object>): Result<Object> {
    if out.Some? then Ok(out.value) else Err(Upstream)
  }

  datatype Op =
    | Register(def: ToolDefinition)
    | Deregister(key: string)
    | Instance(update: Update)
    | Resolve(name: string, tenant: string, role: string)
    | Validate(name: string, tenant: string, input: Object)
    | List(tenant: string, filter: ToolFilter)
    | Invoke(request: Request)
    | Background  // a step of the metering worker

  datatype Reply =
    | Registered(key: Result<string>)
    | Deregistered(done: Result<()>)
    | Noted
    | Resolved(tool: Result<ResolvedTool>)
    | Validated(valid: Result<()>)
    | Listed(tools: seq<ToolDefinition>)
    | Invoked(output: Result<Object>)

  /** A missing auth type counts as none. */
  function Defaulted(d: ToolDefinition): ToolDefinition {
    if d.auth.kind == "" then d.(auth := d.auth.(kind := "none")) else d
  }

  predicate Acceptable(d: ToolDefinition) {
    && d.name != "" && d.version != "" && d.tenant != ""
    && d.kind in KINDS && d.transport in TRANSPORTS && d.auth.kind in AUTH_TYPES
  }

  function Outcome(v: Schema.Verdict): Result<()> {
    match v
    case Accepted => Ok(())
    case Rejected => Err(SchemaInvalid)
    case Panicked => Err(Panic)
  }

  /** The tools left when the family named by a key is removed. */
  function RemoveFamily(tools: map<Ident, ToolDefinition>, tenant: string, name: string): map<Ident, ToolDefinition> {
    map id | id in tools && !(id.tenant == tenant && id.name == name) :: tools[id]
  }

  /** What the service runs with: its switches, the validator, role normalization and tag equality. */
  datatype Setup = Setup(
    conf: Config, validator: Schema.Validator,
    normalize: string -> string, equalFold: (string, string) -> bool)
  {
    predicate Allow(d: ToolDefinition, role: string) {
      normalize(role) == "admin" || d.rbac == [] || normalize(role) in d.rbac
    }

    /** The healthy instances registered for d, or else its own endpoint. */
    function Candidates(d: ToolDefinition, instances: Table): seq<ToolInstance> {
      var healthy := Pick.HealthyOf(ListOf(instances, KeyOf(IdentOf(d))));
      if conf.discoveryEnabled && healthy != [] then healthy
      else if d.endpoint != "" then [ToolInstance(d.endpoint, true, 1)]
      else []
    }

    /** Validation of input may end this way for the tool d. */
    ghost predicate MayValidate(d: ToolDefinition, input: Object, r: Result<()>) {
      if !conf.schemaValidation then r == Ok(())
      else exists v :: validator.NodeMay(d.inputSchema, input, v) && r == Outcome(v)
    }

    // It succeeds exactly when the validator accepts, and then it cannot end otherwise.
    lemma ValidOrNot(d: ToolDefinition, input: Object, r: Result<()>)
      requires MayValidate(d, input, r)
      ensures r.Ok? <==> (conf.schemaValidation ==> validator.NodeAccepts(d.inputSchema, input))
      ensures MayValidate(d, input, Ok(())) <==> r.Ok?
    {
      if conf.schemaValidation {
        var v :| validator.NodeMay(d.inputSchema, input, v) && r == Outcome(v);
        validator.MayAccept(d.inputSchema, input, v);
        if w :| validator.NodeMay(d.inputSchema, input, w) && Ok(()) == Outcome(w) {
          validator.MayAccept(d.inputSchema, input, w);
        }
      }
    }

    /** One transport call of d on inst was made and metered, and its answer reported. */
    predicate Called(reg: Reg, req: Request, d: ToolDefinition, inst: ToolInstance,
                     output: Result<Object>, reg': Reg)
    {
      && output == Reported(Answer(req, d))
      && reg' == reg.(
           calls := reg.calls + [Call(d.transport, inst, req.input)],
           metrics := reg.metrics + [CallMetric(req.tenant, req.name, req.world.latency, Answer(req, d).Some?)])
    }

    /** Invoke of the tool d: nothing is called unless role and input pass and an instance is picked. */
    ghost predicate MayInvoke(reg: Reg, req: Request, d: ToolDefinition, output: Result<Object>, reg': Reg) {
      if !Allow(d, req.role) then output == Err(Forbidden) && reg' == reg
      else if !MayValidate(d, req.input, Ok(())) then
        output.Err? && MayValidate(d, req.input, Err(output.error)) && reg' == reg
      else
        var candidates := Candidates(d, reg.instances);
        if candidates == [] then output == Err(Upstream) && reg' == reg
        else exists i: nat ::
          Pick.MayPick(candidates, req.world.rng, i) && Called(reg, req, d, candidates[i], output, reg')
    }

    // Each operation: the replies and next states the abstract registry allows. Where versions tie, any
    // latest definition may be used; where names tie, any order of the list.

    ghost predicate RegisterAllows(reg: Reg, def: ToolDefinition, key: Result<string>, reg': Reg) {
      var d := Defaulted(def);
      if Acceptable(d)
      then key == Ok(KeyOf(IdentOf(d))) && reg' == reg.(tools := reg.tools[IdentOf(d) := d])
      else key == Err(InvalidRequest) && reg' == reg
    }

    /** What Register does in every case: the definition takes its key from whoever held it. */
    ghost predicate RegisterPerforms(reg: Reg, def: ToolDefinition, key: Result<string>, reg': Reg) {
      var d := Defaulted(def);
      if Acceptable(d)
      then key == Ok(KeyOf(IdentOf(d))) && reg' == reg.(tools := Overwrite(reg.tools, d))
      else key == Err(InvalidRequest) && reg' == reg
    }

    ghost predicate DeregisterAllows(reg: Reg, key: string, done: Result<()>, reg': Reg) {
      var parts := Split(key, '/');
      if |parts| == 1 then done == Err(InvalidRequest) && reg' == reg
      else done == Ok(()) && reg' == reg.(tools := RemoveFamily(reg.tools, parts[0], parts[1]))
    }

    ghost predicate ResolveAllows(reg: Reg, name: string, tenant: string, role: string, tool: Result<ResolvedTool>) {
      var fam := Family(reg.tools.Values, tenant, name);
      if fam == {} then tool == Err(NotFound)
      else exists d ::
        && Latest(d, fam)
        && tool == (if Allow(d, role) then Ok(ResolvedTool(d, Candidates(d, reg.instances))) else Err(Forbidden))
    }

    ghost predicate ValidateAllows(reg: Reg, name: string, tenant: string, input: Object, valid: Result<()>) {
      var fam := Family(reg.tools.Values, tenant, name);
      if fam == {} then valid == Err(NotFound)
      else exists d :: Latest(d, fam) && MayValidate(d, input, valid)
    }

    ghost predicate ListAllows(reg: Reg, tenant: string, f: ToolFilter, tools: seq<ToolDefinition>) {
      Listing(Matching(reg.tools.Values, tenant, f, equalFold), f.limit, tools)
    }

    ghost predicate InvokeAllows(reg: Reg, req: Request, output: Result<Object>, reg': Reg) {
      var fam := Family(reg.tools.Values, req.tenant, req.name);
      if fam == {} then output == Err(NotFound) && reg' == reg
      else exists d :: Latest(d, fam) && MayInvoke(reg, req, d, output, reg')
    }

    ghost predicate Allows(reg: Reg, op: Op, reply: Reply, reg': Reg) {
      match op
      case Register(def) => reply.Registered? && RegisterAllows(reg, def, reply.key, reg')
      case Deregister(key) => reply.Deregistered? && DeregisterAllows(reg, key, reply.done, reg')
      case Instance(u) => reply.Noted? && reg' == reg.(instances := Apply(reg.instances, u))
      case Resolve(name, tenant, role) =>
        reply.Resolved? && ResolveAllows(reg, name, tenant, role, reply.tool) && reg' == reg
      case Validate(name, tenant, input) =>
        reply.Validated? && ValidateAllows(reg, name, tenant, input, reply.valid) && reg' == reg
      case List(tenant, f) => reply.Listed? && ListAllows(reg, tenant, f, reply.tools) && reg' == reg
      case Invoke(req) => reply.Invoked? && InvokeAllows(reg, req, reply.output, reg')
      case Background => reply.Noted? && reg' == reg
    }

    /** What the service does in every case: as the abstract registry, save that a registration takes its key. */
    ghost predicate Performs(reg: Reg, op: Op, reply: Reply, reg': Reg) {
      match op
      case Register(def) => reply.Registered? && RegisterPerforms(reg, def, reply.key, reg')
      case _ => Allows(reg, op, reply, reg')
    }

    /** The operation registers a tool whose key another registration holds. */
    ghost predicate Collides(reg: Reg, op: Op) {
      op.Register? && Acceptable(Defaulted(op.def)) && Taken(reg.tools, IdentOf(op.def))
    }

    lemma StepExactly(reg: Reg, op: Op, reply: Reply, reg': Reg)
      requires Performs(reg, op, reply, reg')
      ensures Allows(reg, op, reply, reg') <==> !Collides(reg, op)
    {
      if op.Register? { OverwriteIsInsert(reg.tools, Defaulted(op.def)); }
    }

    /** The abstract registry allows the replies to ops, on the way from before to after through trace. */
    ghost predicate IsRun(before: Reg, trace: seq<Reg>, ops: seq<Op>, replies: seq<Reply>, after: Reg) {
      && Connects(before, trace, ops, replies, after)
      && forall i :: 0 <= i < |ops| ==> Allows(trace[i], ops[i], replies[i], trace[i + 1])
    }

    /** The service performs ops, on the way from before to after through trace. */
    ghost predicate IsPerformed(before: Reg, trace: seq<Reg>, ops: seq<Op>, replies: seq<Reply>, after: Reg) {
      && Connects(before, trace, ops, replies, after)
      && forall i :: 0 <= i < |ops| ==> Performs(trace[i], ops[i], replies[i], trace[i + 1])
    }

    // What the service performs is a run of the abstract registry exactly when no registration on the way
    // finds its key taken.
    lemma RunExactly(before: Reg, trace: seq<Reg>, ops: seq<Op>, replies: seq<Reply>, after: Reg)
      requires IsPerformed(before, trace, ops, replies, after)
      ensures IsRun(before, trace, ops, replies, after) <==>
        forall i :: 0 <= i < |ops| ==> !Collides(trace[i], ops[i])
    {
      if forall i :: 0 <= i < |ops| ==> !Collides(trace[i], ops[i]) {
        forall i | 0 <= i < |ops| ensures Allows(trace[i], ops[i], replies[i], trace[i + 1]) {
          StepExactly(trace[i], ops[i], replies[i], trace[i + 1]);
        }
      } else {
        var i :| 0 <= i < |ops| && Collides(trace[i], ops[i]);
        StepExactly(trace[i], ops[i], replies[i], trace[i + 1]);
      }
    }

    // It is one, whatever the service replies, when the keys of all identities involved differ...
    lemma DistinctKeysRun(before: Reg, trace: seq<Reg>, ops: seq<Op>, replies: seq<Reply>, after: Reg)
      requires IsPerformed(before, trace, ops, replies, after)
      requires KeysDiffer(before.tools.Keys + Registrations(ops))
      ensures IsRun(before, trace, ops, replies, after)
    {
      forall i | 0 <= i < |ops| ensures !Collides(trace[i], ops[i]) {
        ToolsFromRegistrations(before, trace, ops, replies, after, i);
        assert ops[i].Register? ==> IdentOf(ops[i].def) in Registrations(ops);
      }
      RunExactly(before, trace, ops, replies, after);
    }

    lemma {:induction false} ToolsFromRegistrations(before: Reg, trace: seq<Reg>, ops: seq<Op>,
                                                    replies: seq<Reply>, after: Reg, i: nat)
      requires IsPerformed(before, trace, ops, replies, after) && i <= |ops|
      ensures trace[i].tools.Keys <= before.tools.Keys + Registrations(ops)
    {
      if i > 0 {
        ToolsFromRegistrations(before, trace, ops, replies, after, i - 1);
        var op := ops[i - 1];
        assert Performs(trace[i - 1], op, replies[i - 1], trace[i]);
        if op.Register? { assert IdentOf(op.def) in Registrations(ops); }
      }
    }
  }

  ghost predicate Connects(before: Reg, trace: seq<Reg>, ops: seq<Op>, replies: seq<Reply>, after: Reg) {
    && |trace| == |ops| + 1 && |replies| == |ops|
    && trace[0] == before && trace[|ops|] == after
  }

  /** The identities that ops register. */
  ghost function Registrations(ops: seq<Op>): set<Ident> {
    set op | op in ops && op.Register? :: IdentOf(op.def)
  }

  ghost predicate KeysDiffer(ids: set<Ident>) {
    forall a, b :: a in ids && b in ids && KeyOf(a) == KeyOf(b) ==> a == b
  }

  // ...as the keys of slash-free ones do.
  lemma SlashFreeKeysDiffer(ids: set<Ident>)
    requires forall id :: id in ids ==> SlashFree(id)
    ensures KeysDiffer(ids)
  {
    forall a, b | a in ids && b in ids && KeyOf(a) == KeyOf(b) ensures a == b {
      KeyInjective(a, b);
    }
  }
}
