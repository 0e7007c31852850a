/** The metering recorder as a step system: producers, a bounded queue, one worker, and Close. */
module Metering {
  import opened Sequences
  import opened Text
  import opened Domain
  import Int64

  // ----- aggregates -----

  type Counters = map<string, int>

  /** A Go map read: an absent key counts 0. */
  function At(m: Counters, k: string): int {
    if k in m then m[k] else 0
  }

  datatype Totals = Totals(calls: Counters, success: Counters, fail: Counters, latSum: Counters)

  const NO_TOTALS := Totals(map[], map[], map[], map[])

  /** One event counted in. The latency sum is an int64 that wraps. */
  function Add(t: Totals, m: CallMetric): Totals {
    Totals(
      t.calls[m.tool := At(t.calls, m.tool) + 1],
      if m.success then t.success[m.tool := At(t.success, m.tool) + 1] else t.success,
      if m.success then t.fail else t.fail[m.tool := At(t.fail, m.tool) + 1],
      t.latSum[m.tool := Int64.Wrap(At(t.latSum, m.tool) + m.latencyMs)])
  }

  function TotalsOf(log: seq<CallMetric>): Totals {
    if log == [] then NO_TOTALS else Add(TotalsOf(log[..|log| - 1]), log[|log| - 1])
  }

  // ----- states -----

  /** Where the worker stands. An event it took from the queue is first aggregated, then sunk; flushing
      says that it has seen the close signal. */
  datatype Phase =
    | Running
    | Holding(m: CallMetric, flushing: bool)
    | Sinking(m: CallMetric, flushing: bool)
    | Flushing
    | Done

  /** One call of Record, and whether the queue took the event. */
  datatype Offer = Offer(m: CallMetric, taken: bool)

  /** The recorder with its history: the offers, the events aggregated and sunk so far, and how many
      had been taken when Close was called. */
  datatype State = State(
    capacity: nat, hasSink: bool,
    queue: seq<CallMetric>, closed: bool, phase: Phase, totals: Totals,
    offers: seq<Offer>, aggregated: seq<CallMetric>, sunk: seq<CallMetric>, takenAtClose: nat)

  function Init(buffer: int, hasSink: bool): State {
    State(if buffer <= 0 then 1024 else buffer, hasSink, [], false, Running, NO_TOTALS, [], [], [], 0)
  }

  function Taken(offers: seq<Offer>): seq<CallMetric> {
    if offers == [] then []
    else
      var before, last := Taken(offers[..|offers| - 1]), offers[|offers| - 1];
      if last.taken then before + [last.m] else before
  }

  function Dropped(offers: seq<Offer>): seq<CallMetric> {
    if offers == [] then []
    else
      var before, last := Dropped(offers[..|offers| - 1]), offers[|offers| - 1];
      if last.taken then before else before + [last.m]
  }

  function Offered(offers: seq<Offer>): seq<CallMetric> {
    seq(|offers|, i requires 0 <= i < |offers| => offers[i].m)
  }

  // ----- steps -----

  datatype Action =
    | Record(m: CallMetric)  // a producer's non-blocking send
    | Close                  // close(r.closed)
    | Receive                // the worker takes the head of the queue
    | SeeClosed              // the worker's select picks the close signal
    | Aggregate              // the worker counts the event it holds
    | Sink                   // the worker hands the event to the sink
    | Exit                   // flushing, the worker finds the queue empty

  predicate ByWorker(a: Action) {
    !a.Record? && !a.Close?
  }

  predicate Enabled(s: State, a: Action) {
    match a
    case Record(_) => true
    case Close => !s.closed
    case Receive => (s.phase.Running? || s.phase.Flushing?) && s.queue != []
    case SeeClosed => s.phase.Running? && s.closed
    case Aggregate => s.phase.Holding?
    case Sink => s.phase.Sinking?
    case Exit => s.phase.Flushing? && s.queue == []
  }

  function Resume(flushing: bool): Phase {
    if flushing then Flushing else Running
  }

  function Step(s: State, a: Action): State
    requires Enabled(s, a)
  {
    match a
    case Record(m) =>
      var taken := |s.queue| < s.capacity;
      s.(offers := s.offers + [Offer(m, taken)], queue := if taken then s.queue + [m] else s.queue)
    case Close => s.(closed := true, takenAtClose := |Taken(s.offers)|)
    case Receive => s.(queue := s.queue[1..], phase := Holding(s.queue[0], s.phase.Flushing?))
    case SeeClosed => s.(phase := Flushing)
    case Aggregate =>
      var m, flushing := s.phase.m, s.phase.flushing;
      s.(totals := Add(s.totals, m), aggregated := s.aggregated + [m],
         phase := if s.hasSink then Sinking(m, flushing) else Resume(flushing))
    case Sink => s.(sunk := s.sunk + [s.phase.m], phase := Resume(s.phase.flushing))
    case Exit => s.(phase := Done)
  }

  /** acts leads from s to t, every action enabled where it is taken. */
  ghost predicate Runs(s: State, acts: seq<Action>, t: State)
    decreases |acts|
  {
    if acts == [] then s == t
    else Enabled(s, acts[0]) && Runs(Step(s, acts[0]), acts[1..], t)
  }

  ghost predicate Reachable(t: State) {
    exists buffer: int, hasSink: bool, acts: seq<Action> :: Runs(Init(buffer, hasSink), acts, t)
  }

  // ----- the invariant -----

  function InHand(p: Phase): seq<CallMetric> {
    if p.Holding? then [p.m] else []
  }

  function Unsunk(p: Phase): seq<CallMetric> {
    if p.Sinking? then [p.m] else []
  }

  predicate SeenClose(p: Phase) {
    p.Flushing? || p.Done? || ((p.Holding? || p.Sinking?) && p.flushing)
  }

  /** Nothing taken is lost, doubled or overtaken: it is aggregated, then in the worker's hand, then in
      the queue. The sink lags by at most the event being sunk. */
  ghost predicate Inv(s: State) {
    && 0 < s.capacity && |s.queue| <= s.capacity
    && Taken(s.offers) == s.aggregated + InHand(s.phase) + s.queue
    && (if s.hasSink then s.aggregated == s.sunk + Unsunk(s.phase) else s.sunk == [] && !s.phase.Sinking?)
    && s.totals == TotalsOf(s.aggregated)
    && (SeenClose(s.phase) ==> s.closed)
    && (s.closed ==> s.takenAtClose <= |Taken(s.offers)|)
    && (s.phase.Done? ==> s.takenAtClose <= |s.aggregated|)
  }

  lemma OffersSnoc(offers: seq<Offer>, o: Offer)
    ensures Taken(offers + [o]) == if o.taken then Taken(offers) + [o.m] else Taken(offers)
    ensures Dropped(offers + [o]) == if o.taken then Dropped(offers) else Dropped(offers) + [o.m]
  {
    assert (offers + [o])[..|offers|] == offers;
  }

  lemma StepKeepsInv(s: State, a: Action)
    requires Inv(s) && Enabled(s, a)
    ensures Inv(Step(s, a))
  {
    match a
    case Record(m) => RecordKeepsInv(s, m);
    case Receive => ReceiveKeepsInv(s);
    case Aggregate => AggregateKeepsInv(s);
    case Sink => SinkKeepsInv(s);
    case Close | SeeClosed | Exit => SignalKeepsInv(s, a);
  }

  lemma RecordKeepsInv(s: State, m: CallMetric)
    requires Inv(s)
    ensures Inv(Step(s, Record(m)))
  {
    OffersSnoc(s.offers, Offer(m, |s.queue| < s.capacity));
  }

  lemma SinkKeepsInv(s: State)
    requires Inv(s) && Enabled(s, Sink)
    ensures Inv(Step(s, Sink))
  {
  }

  lemma SignalKeepsInv(s: State, a: Action)
    requires Inv(s) && Enabled(s, a) && (a.Close? || a.SeeClosed? || a.Exit?)
    ensures Inv(Step(s, a))
  {
  }

  lemma ReceiveKeepsInv(s: State)
    requires Inv(s) && Enabled(s, Receive)
    ensures Inv(Step(s, Receive))
  {
    assert s.queue == [s.queue[0]] + s.queue[1..];
  }

  lemma AggregateKeepsInv(s: State)
    requires Inv(s) && Enabled(s, Aggregate)
    ensures Inv(Step(s, Aggregate))
  {
  }

  lemma {:induction false} RunKeepsInv(s: State, acts: seq<Action>, t: State)
    requires Inv(s) && Runs(s, acts, t)
    ensures Inv(t)
    decreases |acts|
  {
    if acts != [] {
      StepKeepsInv(s, acts[0]);
      RunKeepsInv(Step(s, acts[0]), acts[1..], t);
    }
  }

  lemma ReachableInv(t: State)
    requires Reachable(t)
    ensures Inv(t)
  {
    var buffer: int, hasSink: bool, acts: seq<Action> :| Runs(Init(buffer, hasSink), acts, t);
    RunKeepsInv(Init(buffer, hasSink), acts, t);
  }

  // ----- conservation -----

  // Every offer is taken or dropped, and never both.
  lemma {:induction false} OffersPartition(offers: seq<Offer>)
    ensures multiset(Offered(offers)) == multiset(Taken(offers)) + multiset(Dropped(offers))
    ensures |offers| == |Taken(offers)| + |Dropped(offers)|
  {
    if offers != [] {
      var n := |offers| - 1;
      OffersPartition(offers[..n]);
      assert Offered(offers) == Offered(offers[..n]) + [offers[n].m];
    }
  }

  // In every reachable state, for every interleaving: no event is lost between offer and aggregate.
  lemma Conservation(t: State)
    requires Reachable(t)
    ensures multiset(Offered(t.offers))
         == multiset(t.aggregated) + multiset(InHand(t.phase)) + multiset(t.queue) + multiset(Dropped(t.offers))
    ensures |t.queue| <= t.capacity
    ensures t.aggregated <= Taken(t.offers)
    ensures t.hasSink ==> t.sunk <= t.aggregated && |t.aggregated| <= |t.sunk| + 1
  {
    ReachableInv(t);
    OffersPartition(t.offers);
  }

  // An event is dropped exactly when capacity many taken events wait behind the worker.
  lemma DropExactlyWhenFull(t: State, m: CallMetric)
    requires Reachable(t)
    ensures var t' := Step(t, Record(m));
      Dropped(t'.offers) != Dropped(t.offers) <==>
        |Taken(t.offers)| == |t.aggregated| + |InHand(t.phase)| + t.capacity
  {
    ReachableInv(t);
    OffersSnoc(t.offers, Offer(m, |t.queue| < t.capacity));
  }

  function Records(ms: seq<CallMetric>): seq<Action> {
    seq(|ms|, i requires 0 <= i < |ms| => Record(ms[i]))
  }

  // A new recorder that no worker serves takes as many events as its buffer says, 1024 by default, and drops
  // all others.
  lemma TakesUpToBuffer(buffer: int, hasSink: bool, ms: seq<CallMetric>, t: State)
    requires Runs(Init(buffer, hasSink), Records(ms), t)
    ensures var n := if buffer > 0 then buffer else 1024;
      Taken(t.offers) == if |ms| <= n then ms else ms[..n]
  {
    QueueFills(Init(buffer, hasSink), ms, t);
  }

  /** What is taken of ms when there is room for free events. */
  function FirstOf(ms: seq<CallMetric>, free: nat): seq<CallMetric> {
    if |ms| <= free then ms else ms[..free]
  }

  lemma {:induction false} QueueFills(s: State, ms: seq<CallMetric>, t: State)
    requires Runs(s, Records(ms), t) && |s.queue| <= s.capacity
    ensures Taken(t.offers) == Taken(s.offers) + FirstOf(ms, s.capacity - |s.queue|)
    decreases |ms|
  {
    if ms != [] {
      var next, rest := Step(s, Record(ms[0])), ms[1..];
      RecordsCons(ms);
      RecordTakes(s, ms[0]);
      QueueFills(next, rest, t);
      FirstOfCons(ms, s.capacity - |s.queue|);
    }
  }

  lemma RecordsCons(ms: seq<CallMetric>)
    requires ms != []
    ensures Records(ms) != [] && Records(ms)[0] == Record(ms[0]) && Records(ms)[1..] == Records(ms[1..])
  {
  }

  lemma RecordTakes(s: State, m: CallMetric)
    requires |s.queue| <= s.capacity
    ensures var next, room := Step(s, Record(m)), |s.queue| < s.capacity;
      && next.capacity == s.capacity && |next.queue| == |s.queue| + (if room then 1 else 0)
      && Taken(next.offers) == Taken(s.offers) + if room then [m] else []
  {
    OffersSnoc(s.offers, Offer(m, |s.queue| < s.capacity));
  }

  lemma FirstOfCons(ms: seq<CallMetric>, free: nat)
    requires ms != []
    ensures FirstOf(ms, free) == if free > 0 then [ms[0]] + FirstOf(ms[1..], free - 1) else FirstOf(ms[1..], 0)
  {
  }

  // ----- Close -----

  // When the worker has exited, all that was taken before Close is aggregated and sunk, in order, and
  // at most capacity many later events remain in the queue.
  lemma CloseFlushes(t: State)
    requires Reachable(t) && t.phase.Done?
    ensures t.closed && t.takenAtClose <= |Taken(t.offers)|
    ensures Taken(t.offers)[..t.takenAtClose] <= t.aggregated
    ensures t.hasSink ==> t.sunk == t.aggregated
    ensures Taken(t.offers) == t.aggregated + t.queue && |t.queue| <= t.capacity
  {
    ReachableInv(t);
    PrefixOfFront(t.aggregated, t.queue, t.takenAtClose);
  }

  lemma PrefixOfFront(front: seq<CallMetric>, back: seq<CallMetric>, k: nat)
    requires k <= |front|
    ensures (front + back)[..k] <= front
  {
    assert (front + back)[..k] == front[..k];
  }

  // Stated over a run: whatever was taken when Close was called is aggregated once the worker is done.
  lemma CloseFlushesRun(s: State, acts: seq<Action>, t: State)
    requires Inv(s) && !s.closed
    requires Runs(Step(s, Close), acts, t) && t.phase.Done?
    ensures Taken(s.offers) <= t.aggregated
    ensures t.hasSink ==> Taken(s.offers) <= t.sunk
  {
    var closed := Step(s, Close);
    StepKeepsInv(s, Close);
    RunKeepsInv(closed, acts, t);
    ClosedStays(closed, acts, t);
    LogsGrow(closed, acts, t);
    TakenPrefix(s.offers, t.offers);
  }

  // A finished worker has flushed what was taken before Close, and left nothing if nothing came later.
  lemma FlushedSince(s: State, before: seq<Offer>)
    requires Inv(s) && s.phase.Done? && before <= s.offers && s.takenAtClose == |Taken(before)|
    ensures Taken(s.offers) == s.aggregated + s.queue
    ensures Taken(before) <= s.aggregated && (s.hasSink ==> s.sunk == s.aggregated)
    ensures before == s.offers ==> s.queue == []
  {
    TakenPrefix(before, s.offers);
  }

  lemma {:induction false} ClosedStays(s: State, acts: seq<Action>, t: State)
    requires s.closed && Runs(s, acts, t)
    ensures t.closed && t.takenAtClose == s.takenAtClose && t.hasSink == s.hasSink
    decreases |acts|
  {
    if acts != [] { ClosedStays(Step(s, acts[0]), acts[1..], t); }
  }

  lemma {:induction false} TakenPrefix(offers: seq<Offer>, offers': seq<Offer>)
    requires offers <= offers'
    ensures Taken(offers) <= Taken(offers')
    decreases |offers'|
  {
    if |offers| < |offers'| {
      TakenPrefix(offers, offers'[..|offers'| - 1]);
    } else {
      assert offers == offers';
    }
  }

  /** How many steps the worker still has at most, when nobody records. */
  function Measure(s: State): nat {
    3 * |s.queue| +
    match s.phase
    case Running => 2
    case Flushing => 1
    case Done => 0
    case Holding(_, flushing) => (if flushing then 1 else 2) + 2
    case Sinking(_, flushing) => (if flushing then 1 else 2) + 1
  }

  lemma WorkerStepDecreases(s: State, a: Action)
    requires Enabled(s, a) && ByWorker(a)
    ensures Measure(Step(s, a)) < Measure(s)
  {
  }

  // After Close the worker is never stuck before it is done.
  lemma WorkerNotStuck(s: State) returns (a: Action)
    requires s.closed && !s.phase.Done?
    ensures ByWorker(a) && Enabled(s, a)
  {
    a := match s.phase
      case Running => SeeClosed
      case Holding(_, _) => Aggregate
      case Sinking(_, _) => Sink
      case Flushing => if s.queue == [] then Exit else Receive
      case Done => Exit;
  }

  // So without further records every run of the worker is bounded, and one that cannot be extended
  // after Close has reached the end.
  lemma {:induction false} WorkerTerminates(s: State, acts: seq<Action>, t: State)
    requires Runs(s, acts, t) && forall a :: a in acts ==> ByWorker(a)
    ensures |acts| + Measure(t) <= Measure(s)
    ensures s.closed && (forall a :: ByWorker(a) ==> !Enabled(t, a)) ==> t.phase.Done?
    decreases |acts|
  {
    if acts == [] {
      if s.closed && !t.phase.Done? {
        var a := WorkerNotStuck(t);
      }
    } else {
      WorkerStepDecreases(s, acts[0]);
      WorkerTerminates(Step(s, acts[0]), acts[1..], t);
    }
  }

  // ----- what a run keeps -----

  // Logs only grow, so do the counts taken from them.
  lemma {:induction false} LogsGrow(s: State, acts: seq<Action>, t: State)
    requires Runs(s, acts, t)
    ensures s.offers <= t.offers && s.aggregated <= t.aggregated && s.sunk <= t.sunk
    decreases |acts|
  {
    if acts != [] {
      LogsGrow(Step(s, acts[0]), acts[1..], t);
    }
  }

  // ----- the aggregates and the log -----

  function ForTool(tool: string): CallMetric -> bool {
    (m: CallMetric) => m.tool == tool
  }

  function Outcome(tool: string, success: bool): CallMetric -> bool {
    (m: CallMetric) => m.tool == tool && m.success == success
  }

  function Latency(log: seq<CallMetric>): int {
    if log == [] then 0 else Latency(log[..|log| - 1]) + log[|log| - 1].latencyMs
  }

  // One event more.
  lemma AddCounts(t: Totals, m: CallMetric, tool: string)
    ensures var t' := Add(t, m);
      && At(t'.calls, tool) == At(t.calls, tool) + (if m.tool == tool then 1 else 0)
      && (tool in t'.calls <==> tool in t.calls || m.tool == tool)
      && At(t'.success, tool) == At(t.success, tool) + (if m.tool == tool && m.success then 1 else 0)
      && At(t'.fail, tool) == At(t.fail, tool) + (if m.tool == tool && !m.success then 1 else 0)
      && At(t'.latSum, tool)
        == if m.tool == tool then Int64.Wrap(At(t.latSum, tool) + m.latencyMs) else At(t.latSum, tool)
  {
  }

  // The counters of a tool count its events in the log.
  lemma {:induction false} TotalsCountLog(log: seq<CallMetric>, tool: string)
    ensures var t, events := TotalsOf(log), Filter(log, ForTool(tool));
      && At(t.calls, tool) == |events|
      && (tool in t.calls <==> events != [])
      && At(t.success, tool) == |Filter(log, Outcome(tool, true))|
      && At(t.fail, tool) == |Filter(log, Outcome(tool, false))|
  {
    if log != [] {
      var before, m := log[..|log| - 1], log[|log| - 1];
      TotalsCountLog(before, tool);
      AddCounts(TotalsOf(before), m, tool);
    }
  }

  // The latency sum is the wrapped sum of their latencies.
  lemma {:induction false} LatencySum(log: seq<CallMetric>, tool: string)
    ensures At(TotalsOf(log).latSum, tool) == Int64.Wrap(Latency(Filter(log, ForTool(tool))))
  {
    if log != [] {
      var before, m := log[..|log| - 1], log[|log| - 1];
      var events := Filter(before, ForTool(tool));
      LatencySum(before, tool);
      AddCounts(TotalsOf(before), m, tool);
      assert (events + [m])[..|events|] == events;
      Int64.WrapAdd(Latency(events), m.latencyMs);
    }
  }

  lemma {:induction false} OutcomesAddUp(log: seq<CallMetric>, tool: string)
    ensures |Filter(log, ForTool(tool))|
         == |Filter(log, Outcome(tool, true))| + |Filter(log, Outcome(tool, false))|
  {
    if log != [] { OutcomesAddUp(log[..|log| - 1], tool); }
  }

  lemma {:induction false} LatencyBounds(events: seq<CallMetric>, lo: int, hi: int)
    requires forall m :: m in events ==> lo <= m.latencyMs <= hi
    ensures lo * |events| <= Latency(events) <= hi * |events|
  {
    if events != [] {
      var n := |events| - 1;
      LatencyBounds(events[..n], lo, hi);
      OneMore(lo, n);
      OneMore(hi, n);
    }
  }

  lemma OneMore(x: int, n: nat)
    ensures x * (n + 1) == x * n + x
  {
  }

  /** A row of the snapshot. */
  datatype MetricLine = MetricLine(tool: string, calls: int, success: int, failures: int, avgMs: int)

  function LineOf(t: Totals, tool: string): MetricLine {
    var calls := At(t.calls, tool);
    MetricLine(tool, calls, At(t.success, tool), At(t.fail, tool),
               if calls > 0 then Int64.Quotient(At(t.latSum, tool), calls) else 0)
  }

  /** The rows are in order of tool name, one for each tool counted. */
  ghost predicate IsSnapshot(t: Totals, rows: seq<MetricLine>) {
    && (forall i, j :: 0 <= i < j < |rows| ==> Less(rows[i].tool, rows[j].tool))
    && (forall i :: 0 <= i < |rows| ==> rows[i].tool in t.calls && rows[i] == LineOf(t, rows[i].tool))
    && (forall tool :: tool in t.calls ==> exists i :: 0 <= i < |rows| && rows[i].tool == tool)
  }

  // The aggregates leave one possible snapshot, whatever the order in which the map is read.
  lemma SnapshotUnique(t: Totals, rows: seq<MetricLine>, rows': seq<MetricLine>)
    requires IsSnapshot(t, rows) && IsSnapshot(t, rows')
    ensures rows == rows'
  {
    SameRows(t, rows, rows');
    SameRows(t, rows', rows);
    forall x: MetricLine, y: MetricLine ensures !(Less(x.tool, y.tool) && Less(y.tool, x.tool)) {
      LessIrreflexive(x.tool);
      if Less(x.tool, y.tool) && Less(y.tool, x.tool) { LessTransitive(x.tool, y.tool, x.tool); }
    }
    SortedUnique(rows, rows', (x: MetricLine, y: MetricLine) => Less(x.tool, y.tool));
  }

  lemma SameRows(t: Totals, rows: seq<MetricLine>, rows': seq<MetricLine>)
    requires IsSnapshot(t, rows) && IsSnapshot(t, rows')
    ensures forall r :: r in rows ==> r in rows'
  {
    forall r | r in rows ensures r in rows' {
      var i :| 0 <= i < |rows'| && rows'[i].tool == r.tool;
    }
  }

  // In every reachable state a row counts the tool's aggregated events.
  lemma RowCountsEvents(t: State, rows: seq<MetricLine>, i: nat)
    requires Reachable(t) && IsSnapshot(t.totals, rows) && i < |rows|
    ensures var events := Filter(t.aggregated, ForTool(rows[i].tool));
      && rows[i].calls == rows[i].success + rows[i].failures == |events| > 0
      && rows[i].success == |Filter(t.aggregated, Outcome(rows[i].tool, true))|
  {
    ReachableInv(t);
    TotalsCountLog(t.aggregated, rows[i].tool);
    OutcomesAddUp(t.aggregated, rows[i].tool);
  }

  /** avg is sum / n rounded down. */
  predicate IsMean(avg: int, sum: int, n: int) {
    avg * n <= sum < (avg + 1) * n
  }

  // Its average is the rounded-down mean of their latencies, between the least and the greatest, exactly when
  // their sum is an int64. No more than 2^63 events are counted.
  lemma RowAverage(t: State, rows: seq<MetricLine>, i: nat, lo: nat, hi: nat)
    requires Reachable(t) && IsSnapshot(t.totals, rows) && i < |rows|
    requires forall m :: m in t.aggregated && m.tool == rows[i].tool ==> lo <= m.latencyMs <= hi
    ensures var sum := Latency(Filter(t.aggregated, ForTool(rows[i].tool)));
      && (Int64.Fits(sum) ==> IsMean(rows[i].avgMs, sum, rows[i].calls) && lo <= rows[i].avgMs <= hi)
      && (rows[i].calls <= Int64.TWO_63 && !Int64.Fits(sum) ==> !IsMean(rows[i].avgMs, sum, rows[i].calls))
  {
    ReachableInv(t);
    var tool, events := rows[i].tool, Filter(t.aggregated, ForTool(rows[i].tool));
    TotalsCountLog(t.aggregated, tool);
    LatencySum(t.aggregated, tool);
    FilterMembers(t.aggregated, ForTool(tool));
    LatencyBounds(events, lo, hi);
    if Int64.Fits(Latency(events)) {
      MeanBounds(Latency(events), |events|, lo, hi);
    } else if |events| <= Int64.TWO_63 {
      NonNegative(lo, |events|);
      WrappedIsNoMean(Latency(events), |events|);
    }
  }

  lemma NonNegative(x: nat, n: nat)
    ensures x * n >= 0
  {
  }

  lemma MeanBounds(sum: int, n: int, lo: nat, hi: nat)
    requires n > 0 && lo * n <= sum <= hi * n
    ensures IsMean(Int64.Quotient(sum, n), sum, n) && lo <= Int64.Quotient(sum, n) <= hi
  {
    var avg := sum / n;
    NonNegative(lo, n);
    assert avg * n <= sum < (avg + 1) * n;
    Cancel(lo, avg + 1, n);
    Cancel(avg, hi + 1, n);
  }

  // A wrapped sum is short by 2^64 at least, which no remainder makes up for.
  lemma WrappedIsNoMean(sum: int, n: int)
    requires 0 < n <= Int64.TWO_63 && sum >= Int64.TWO_63
    ensures !IsMean(Int64.Quotient(Int64.Wrap(sum), n), sum, n)
  {
    Int64.WrapFalls(sum);
    QuotientBelow(Int64.Wrap(sum), n);
  }

  lemma QuotientBelow(w: int, n: int)
    requires n > 0
    ensures (Int64.Quotient(w, n) + 1) * n <= (if w >= 0 then w + n else n)
  {
    var q := Int64.Quotient(w, n);
    if w >= 0 {
      OneMore(n, q);
    } else {
      var k := -w / n;
      NonNegative(k, n);
      assert (1 - k) * n == n - k * n;
    }
  }

  lemma Cancel(x: int, y: int, n: int)
    requires n > 0
    ensures x * n < y * n ==> x < y
  {
    if x >= y { assert (x - y) * n >= 0; }
  }

  // Over a run the counts of a tool never decrease.
  lemma CountsNeverDecrease(s: State, acts: seq<Action>, t: State, tool: string)
    requires Inv(s) && Runs(s, acts, t)
    ensures At(s.totals.calls, tool) <= At(t.totals.calls, tool)
    ensures At(s.totals.success, tool) <= At(t.totals.success, tool)
    ensures At(s.totals.fail, tool) <= At(t.totals.fail, tool)
  {
    RunKeepsInv(s, acts, t);
    LogsGrow(s, acts, t);
    TotalsCountLog(s.aggregated, tool);
    TotalsCountLog(t.aggregated, tool);
    FilterPrefix(s.aggregated, t.aggregated, ForTool(tool));
    FilterPrefix(s.aggregated, t.aggregated, Outcome(tool, true));
    FilterPrefix(s.aggregated, t.aggregated, Outcome(tool, false));
  }

  lemma {:induction false} FilterPrefix(log: seq<CallMetric>, log': seq<CallMetric>, keep: CallMetric -> bool)
    requires log <= log'
    ensures |Filter(log, keep)| <= |Filter(log', keep)|
    decreases |log'|
  {
    if |log| < |log'| {
      FilterPrefix(log, log'[..|log'| - 1], keep);
    } else {
      assert log == log';
    }
  }
}
