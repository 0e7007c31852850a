/** The recorder object: each method is one atomic step of the step system, or a run of them. */
module Recorder {
  import opened Text
  import opened Domain
  import opened Metering
  import Int64

  class AsyncRecorder {
    const capacity: nat
    const hasSink: bool
    var ch: seq<CallMetric>
    var closed: bool
    var phase: Phase
    var calls: Counters
    var success: Counters
    var fail: Counters
    var latSum: Counters
    ghost var offers: seq<Offer>
    ghost var aggregated: seq<CallMetric>
    ghost var sunk: seq<CallMetric>
    ghost var takenAtClose: nat

    ghost function View(): State
      reads this
    {
      State(capacity, hasSink, ch, closed, phase, Totals(calls, success, fail, latSum),
            offers, aggregated, sunk, takenAtClose)
    }

    ghost predicate Valid()
      reads this
    {
      Inv(View())
    }

    constructor (buffer: int, hasSink: bool)
      ensures Valid() && View() == Init(buffer, hasSink)
    {
      this.capacity := if buffer <= 0 then 1024 else buffer;
      this.hasSink := hasSink;
      ch, closed, phase := [], false, Running;
      calls, success, fail, latSum := map[], map[], map[], map[];
      offers, aggregated, sunk, takenAtClose := [], [], [], 0;
    }

    /** One offer, taken or dropped. It never waits, whatever the worker is doing. */
    method Record(m: CallMetric)
      requires Valid()
      modifies this
      ensures Valid() && View() == Step(old(View()), Action.Record(m))
    {
      StepKeepsInv(View(), Action.Record(m));
      offers := offers + [Offer(m, |ch| < capacity)];
      if |ch| < capacity {
        ch := ch + [m];
      }
    }

    /** Counts an event in. */
    method Count(m: CallMetric)
      modifies this`calls, this`success, this`fail, this`latSum
      ensures Totals(calls, success, fail, latSum) == Add(old(Totals(calls, success, fail, latSum)), m)
    {
      calls := calls[m.tool := At(calls, m.tool) + 1];
      latSum := latSum[m.tool := Int64.Wrap(At(latSum, m.tool) + m.latencyMs)];
      if m.success {
        success := success[m.tool := At(success, m.tool) + 1];
      } else {
        fail := fail[m.tool := At(fail, m.tool) + 1];
      }
    }

    method AggregateHeld()
      requires Valid() && phase.Holding?
      modifies this
      ensures Valid() && View() == Step(old(View()), Aggregate)
    {
      ghost var s := View();
      AggregateKeepsInv(s);
      var m, flushing := phase.m, phase.flushing;
      Count(m);
      aggregated := aggregated + [m];
      phase := if hasSink then Sinking(m, flushing) else Resume(flushing);
      assert View() == Step(s, Aggregate);
    }

    method TakeHead()
      requires Valid() && Enabled(View(), Receive)
      modifies this
      ensures Valid() && View() == Step(old(View()), Receive)
    {
      StepKeepsInv(View(), Receive);
      ch, phase := ch[1..], Holding(ch[0], phase.Flushing?);
    }

    /** One step of the worker's loop; its selects choose among the ready cases arbitrarily. */
    method Work() returns (ghost a: Action)
      requires Valid() && !phase.Done? && (closed || ch != [] || phase.Holding? || phase.Sinking?)
      modifies this
      ensures ByWorker(a) && Enabled(old(View()), a) && View() == Step(old(View()), a)
      ensures Valid()
    {
      match phase
      case Running =>
        if {
          case ch != [] =>
            a := Receive;
            TakeHead();
          case closed =>
            a := SeeClosed;
            StepKeepsInv(View(), a);
            phase := Flushing;
        }
      case Holding(_, _) =>
        a := Aggregate;
        AggregateHeld();
      case Sinking(m, flushing) =>
        a := Sink;
        StepKeepsInv(View(), a);
        sunk := sunk + [m];
        phase := Resume(flushing);
      case Flushing =>
        if ch != [] {
          a := Receive;
          TakeHead();
        } else {
          a := Exit;
          StepKeepsInv(View(), a);
          phase := Done;
        }
    }

    method SignalClose()
      requires Valid() && !closed
      modifies this
      ensures Valid() && View() == Step(old(View()), Close)
    {
      StepKeepsInv(View(), Close);
      takenAtClose := |Taken(offers)|;
      closed := true;
    }

    /** Close signals and waits for the worker, while producers may go on to record late events at any point.
        Everything taken before has then been flushed, and without late events nothing is left. */
    method CloseAndWait(late: seq<CallMetric>)
      requires Valid() && !closed
      modifies this
      ensures Valid() && closed && phase.Done?
      ensures old(offers) <= offers && Taken(offers) == aggregated + ch
      ensures Taken(old(offers)) <= aggregated && (hasSink ==> sunk == aggregated)
      ensures late == [] ==> offers == old(offers) && ch == []
    {
      ghost var before := offers;
      SignalClose();
      var coming := late;
      while !phase.Done?
        invariant Valid() && closed
        invariant before <= offers && takenAtClose == |Taken(before)|
        invariant late == [] ==> coming == [] && offers == before
        decreases |coming|, Measure(View())
      {
        if {
          case coming != [] =>
            Record(coming[0]);
            coming := coming[1..];
          case true =>
            ghost var was := View();
            ghost var a := Work();
            WorkerStepDecreases(was, a);
        }
      }
      FlushedSince(View(), before);
    }

    /** The rows of the aggregates, sorted by tool name. */
    method Snapshot() returns (rows: seq<MetricLine>)
      ensures IsSnapshot(Totals(calls, success, fail, latSum), rows)
    {
      var names := SortedKeys(calls.Keys);
      rows := [];
      for i := 0 to |names|
        invariant |rows| == i
        invariant forall j :: 0 <= j < i ==> rows[j] == LineOf(Totals(calls, success, fail, latSum), names[j])
      {
        var n := names[i];
        var count := calls[n];
        var avg := 0;
        if count > 0 {
          avg := Int64.Quotient(At(latSum, n), count);
        }
        rows := rows + [MetricLine(n, count, At(success, n), At(fail, n), avg)];
      }
      assert forall j :: 0 <= j < |rows| ==> rows[j].tool == names[j];
    }
  }

  lemma {:induction false} LeastKey(keys: set<string>) returns (least: string)
    requires keys != {}
    ensures least in keys && forall k :: k in keys ==> !Less(k, least)
    decreases keys
  {
    least :| least in keys;
    LessIrreflexive(least);
    if keys != {least} {
      var other := LeastKey(keys - {least});
      LessTotal(least, other);
      if Less(least, other) {
        forall k | k in keys ensures !Less(k, least) {
          if Less(k, least) { LessTransitive(k, least, other); }
        }
      } else {
        least := other;
      }
    }
  }

  /** The keys in strictly increasing order. */
  method SortedKeys(keys: set<string>) returns (names: seq<string>)
    ensures forall i, j :: 0 <= i < j < |names| ==> Less(names[i], names[j])
    ensures forall k :: k in keys <==> k in names
  {
    names := [];
    var todo := keys;
    while todo != {}
      invariant todo <= keys
      invariant forall i, j :: 0 <= i < j < |names| ==> Less(names[i], names[j])
      invariant forall n, k :: n in names && k in todo ==> Less(n, k)
      invariant forall k :: k in keys <==> k in names || k in todo
    {
      ghost var w := LeastKey(todo);
      var least :| least in todo && forall k :: k in todo ==> !Less(k, least);
      forall k | k in todo && k != least ensures Less(least, k) {
        LessTotal(least, k);
      }
      names := names + [least];
      todo := todo - {least};
    }
  }
}
