/** The worker pool of `Iterate` (internal/store/store.go:628-721) as a transition system: a
    producer that feeds a bounded channel, workers that drain it, and a context that any of them
    may cancel. The callback and the reads may give any outcome. */
module WorkerPool {
  import opened Prelude
  import opened Record
  import opened Sorting

  const CHANNEL_SIZE := 1024

  /** What came of one id: the read failed, or the callback ran and returned `(cont, err)`. */
  datatype Outcome = ReadFailed(error: Error) | Ran(cont: bool, failure: Option<Error>)

  predicate Goes(o: Outcome) {
    o == Ran(true, None)
  }

  predicate Fails(o: Outcome) {
    o.ReadFailed? || o.failure.Some?
  }

  function ErrorOf(o: Outcome): Error
    requires Fails(o)
  {
    if o.ReadFailed? then o.error else o.failure.value
  }

  datatype Worker = Idle | Busy(id: Id) | Exited

  datatype Done = Done(id: Id, outcome: Outcome)

  /** `handled` and `dropped` are history: what the workers finished, in order, and what the
      producer passed over after the cancellation. */
  datatype Pool = Pool(
    unsent: seq<Id>,
    queue: seq<Id>,
    closed: bool,
    workers: seq<Worker>,
    cancelled: bool,
    err: Option<Error>,
    handled: seq<Done>,
    dropped: seq<Id>
  )

  /** The pool for the selected ids; a worker count that is not positive becomes one. */
  function Init(keys: seq<Id>, workers: int): Pool {
    Pool(keys, [], false, seq(if workers <= 0 then 1 else workers, _ => Idle), false, None, [], [])
  }

  datatype Step =
    | Send                          // jobs <- id
    | Drop                          // ctx.Done() wins the producer's select; the loop goes on
    | Close                         // close(jobs)
    | Take(w: nat)                  // id, ok := <-jobs
    | Finish(w: nat, o: Outcome)    // the read and the callback
    | Quit(w: nat)                  // ctx.Done(), or the closed channel is empty

  predicate Enabled(p: Pool, step: Step) {
    match step
    case Send => |p.unsent| > 0 && |p.queue| < CHANNEL_SIZE
    case Drop => |p.unsent| > 0 && p.cancelled
    case Close => |p.unsent| == 0 && !p.closed
    case Take(w) => w < |p.workers| && p.workers[w] == Idle && |p.queue| > 0
    case Finish(w, _) => w < |p.workers| && p.workers[w].Busy?
    case Quit(w) => w < |p.workers| && p.workers[w] == Idle && (p.cancelled || (p.closed && p.queue == []))
  }

  function Apply(p: Pool, step: Step): Pool
    requires Enabled(p, step)
  {
    match step
    case Send => p.(unsent := p.unsent[1..], queue := p.queue + [p.unsent[0]])
    case Drop => p.(unsent := p.unsent[1..], dropped := p.dropped + [p.unsent[0]])
    case Close => p.(closed := true)
    case Take(w) => p.(queue := p.queue[1..], workers := p.workers[w := Busy(p.queue[0])])
    case Finish(w, o) =>
      var p' := p.(handled := p.handled + [Done(p.workers[w].id, o)]);
      if Goes(o) then p'.(workers := p.workers[w := Idle])
      else
        p'.(workers := p.workers[w := Exited], cancelled := true,
            err := if Fails(o) && p.err.None? then Some(ErrorOf(o)) else p.err)
    case Quit(w) => p.(workers := p.workers[w := Exited])
  }

  /** Iterate returns when the channel is closed and every worker has gone. */
  predicate Final(p: Pool) {
    p.closed && forall w :: 0 <= w < |p.workers| ==> p.workers[w] == Exited
  }

  // ---- Conservation ----

  function One(w: Worker): multiset<Id> {
    if w.Busy? then multiset{w.id} else multiset{}
  }

  function InFlight(workers: seq<Worker>): multiset<Id> {
    if |workers| == 0 then multiset{}
    else InFlight(workers[..|workers| - 1]) + One(workers[|workers| - 1])
  }

  function Ids(done: seq<Done>): (ids: seq<Id>)
    ensures |ids| == |done| && forall i :: 0 <= i < |done| ==> ids[i] == done[i].id
  {
    seq(|done|, i requires 0 <= i < |done| => done[i].id)
  }

  lemma Swap(a: multiset<Id>, b: multiset<Id>, c: multiset<Id>)
    ensures a + b + c == a + c + b
  {
  }

  lemma {:induction false} InFlightUpdate(workers: seq<Worker>, w: nat, x: Worker)
    requires w < |workers|
    ensures InFlight(workers[w := x]) + One(workers[w]) == InFlight(workers) + One(x)
  {
    hide One;
    var n := |workers| - 1;
    if w < n {
      InFlightUpdate(workers[..n], w, x);
      assert workers[w := x][..n] == workers[..n][w := x];
      assert InFlight(workers[w := x]) == InFlight(workers[..n][w := x]) + One(workers[n]);
      Swap(InFlight(workers[..n][w := x]), One(workers[n]), One(workers[w]));
      Swap(InFlight(workers[..n]), One(workers[n]), One(x));
    } else {
      assert workers[w := x][..n] == workers[..n];
      assert InFlight(workers[w := x]) == InFlight(workers[..n]) + One(x);
    }
  }

  /** Where every selected id is. */
  ghost predicate Partition(p: Pool, keys: seq<Id>) {
    multiset(keys)
    == multiset(p.unsent) + multiset(p.queue) + InFlight(p.workers) + multiset(Ids(p.handled)) + multiset(p.dropped)
  }

  lemma Split(s: seq<Id>)
    requires |s| > 0
    ensures multiset(s) == multiset{s[0]} + multiset(s[1..])
  {
    assert s == [s[0]] + s[1..];
  }

  lemma IdsAppend(done: seq<Done>, d: Done)
    ensures Ids(done + [d]) == Ids(done) + [d.id]
  {
  }

  lemma TakePartition(p: Pool, w: nat, keys: seq<Id>)
    requires Enabled(p, Take(w)) && Partition(p, keys)
    ensures Partition(Apply(p, Take(w)), keys)
  {
    hide InFlight;
    Split(p.queue);
    InFlightUpdate(p.workers, w, Busy(p.queue[0]));
    assert InFlight(p.workers[w := Busy(p.queue[0])]) == InFlight(p.workers) + multiset{p.queue[0]};
  }

  lemma FinishPartition(p: Pool, w: nat, o: Outcome, keys: seq<Id>)
    requires Enabled(p, Finish(w, o)) && Partition(p, keys)
    ensures Partition(Apply(p, Finish(w, o)), keys)
  {
    hide InFlight, Ids;
    var x := if Goes(o) then Idle else Exited;
    InFlightUpdate(p.workers, w, x);
    assert InFlight(p.workers) == InFlight(p.workers[w := x]) + multiset{p.workers[w].id};
    IdsAppend(p.handled, Done(p.workers[w].id, o));
  }

  lemma StepPartition(p: Pool, step: Step, keys: seq<Id>)
    requires Enabled(p, step) && Partition(p, keys)
    ensures Partition(Apply(p, step), keys)
  {
    hide InFlight, Ids;
    match step
    case Send => Split(p.unsent);
    case Drop => Split(p.unsent);
    case Close =>
    case Take(w) => TakePartition(p, w, keys);
    case Finish(w, o) => FinishPartition(p, w, o, keys);
    case Quit(w) => QuitPartition(p, w, keys);
  }

  lemma QuitPartition(p: Pool, w: nat, keys: seq<Id>)
    requires Enabled(p, Quit(w)) && Partition(p, keys)
    ensures Partition(Apply(p, Quit(w)), keys)
  {
    hide InFlight, Ids;
    InFlightUpdate(p.workers, w, Exited);
    var before, after := InFlight(p.workers), InFlight(p.workers[w := Exited]);
    assert before + multiset{} == before && after + multiset{} == after;
    assert One(p.workers[w]) == multiset{} && One(Exited) == multiset{};
  }

  // ---- What cancellation and closing mean ----

  /** Some outcome asked to stop. */
  ghost predicate Stopped(done: seq<Done>) {
    exists i :: 0 <= i < |done| && !Goes(done[i].outcome)
  }

  /** The first failure, in the order the workers finished. */
  function FirstError(done: seq<Done>): Option<Error> {
    if |done| == 0 then None
    else
      var before := FirstError(done[..|done| - 1]);
      var last := done[|done| - 1];
      if before.None? && Fails(last.outcome) then Some(ErrorOf(last.outcome)) else before
  }

  ghost predicate ControlOk(p: Pool) {
    && |p.workers| > 0
    && |p.queue| <= 1024
    && (p.closed ==> p.unsent == [])
    && (p.cancelled <==> Stopped(p.handled))
    && (!p.cancelled ==> p.dropped == [])
    && (!p.cancelled && Exited in p.workers ==> p.closed && p.queue == [])
    && p.err == FirstError(p.handled)
  }

  lemma FinishControl(p: Pool, w: nat, o: Outcome)
    requires Enabled(p, Finish(w, o)) && ControlOk(p)
    ensures ControlOk(Apply(p, Finish(w, o)))
  {
    hide Stopped;
    var p' := Apply(p, Finish(w, o));
    var d := Done(p.workers[w].id, o);
    assert (p.handled + [d])[..|p.handled|] == p.handled;
    StoppedLast(p.handled, d);
    if Goes(o) { assert Exited in p'.workers ==> Exited in p.workers; }
  }

  lemma StoppedLast(done: seq<Done>, d: Done)
    ensures Stopped(done + [d]) <==> Stopped(done) || !Goes(d.outcome)
  {
    var all := done + [d];
    assert all[|done|] == d;
    assert forall i :: 0 <= i < |done| ==> all[i] == done[i];
  }

  lemma StepControl(p: Pool, step: Step)
    requires Enabled(p, step) && ControlOk(p)
    ensures ControlOk(Apply(p, step))
  {
    hide Stopped, FirstError;
    match step
    case Send =>
    case Drop =>
    case Close =>
    case Take(w) => assert Exited in Apply(p, step).workers ==> Exited in p.workers;
    case Finish(w, o) => FinishControl(p, w, o);
    case Quit(w) =>
  }

  // ---- Runs ----

  predicate LegalRun(p: Pool, steps: seq<Step>)
    decreases |steps|, 0
  {
    |steps| > 0 ==> LegalRun(p, steps[..|steps| - 1]) && Enabled(Run(p, steps[..|steps| - 1]), steps[|steps| - 1])
  }

  function Run(p: Pool, steps: seq<Step>): Pool
    requires LegalRun(p, steps)
    decreases |steps|, 1
  {
    if |steps| == 0 then p else Apply(Run(p, steps[..|steps| - 1]), steps[|steps| - 1])
  }

  /** At every interleaving each selected id is in exactly one place. */
  lemma {:induction false} RunPartition(keys: seq<Id>, workers: int, steps: seq<Step>)
    requires LegalRun(Init(keys, workers), steps)
    ensures Partition(Run(Init(keys, workers), steps), keys) && ControlOk(Run(Init(keys, workers), steps))
    ensures |Run(Init(keys, workers), steps).workers| == if workers <= 0 then 1 else workers
    decreases |steps|
  {
    hide Partition, ControlOk, Enabled, Apply;
    var p0 := Init(keys, workers);
    if |steps| == 0 {
      InitOk(keys, workers);
    } else {
      hide Init;
      RunPartition(keys, workers, steps[..|steps| - 1]);
      StepPartition(Run(p0, steps[..|steps| - 1]), steps[|steps| - 1], keys);
      StepControl(Run(p0, steps[..|steps| - 1]), steps[|steps| - 1]);
      StepWorkers(Run(p0, steps[..|steps| - 1]), steps[|steps| - 1]);
    }
  }

  lemma StepWorkers(p: Pool, step: Step)
    requires Enabled(p, step)
    ensures |Apply(p, step).workers| == |p.workers|
  {
  }

  lemma {:induction false} NoneInFlight(workers: seq<Worker>)
    requires forall w :: 0 <= w < |workers| ==> !workers[w].Busy?
    ensures InFlight(workers) == multiset{}
  {
    if |workers| > 0 { NoneInFlight(workers[..|workers| - 1]); }
  }

  lemma InitOk(keys: seq<Id>, workers: int)
    ensures Partition(Init(keys, workers), keys) && ControlOk(Init(keys, workers))
  {
    NoneInFlight(Init(keys, workers).workers);
    assert Ids([]) == [];
  }

  /** Exactly once: for duplicate-free keys no id is handled twice, on any interleaving, and none
      is both handled and still elsewhere. When the pool has returned and every read succeeded and
      every callback returned (true, nil), every id was handled and no error is reported. */
  lemma ExactlyOnce(keys: seq<Id>, workers: int, steps: seq<Step>)
    requires Distinct(keys) && LegalRun(Init(keys, workers), steps)
    ensures var p := Run(Init(keys, workers), steps);
      && Distinct(Ids(p.handled))
      && (forall id :: id in Ids(p.handled) ==>
            id in keys && id !in p.unsent && id !in p.queue && id !in p.dropped && id !in InFlight(p.workers))
      && (Final(p) && (forall i :: 0 <= i < |p.handled| ==> p.handled[i].outcome == Ran(true, None)) ==>
            multiset(Ids(p.handled)) == multiset(keys) && p.err == None)
  {
    hide LegalRun, Run, Init, Enabled;
    RunPartition(keys, workers, steps);
    var p := Run(Init(keys, workers), steps);
    var ids := Ids(p.handled);
    forall i, j | 0 <= i < j < |ids| ensures ids[i] != ids[j] {
      if ids[i] == ids[j] {
        TwiceCounted(ids, i, j);
        DistinctOnce(keys, ids[i]);
      }
    }
    forall id | id in ids
      ensures id in keys && id !in p.unsent && id !in p.queue && id !in p.dropped && id !in InFlight(p.workers)
    {
      DistinctOnce(keys, id);
      assert multiset(ids)[id] >= 1;
      assert id in multiset(keys);
    }
    if Final(p) && forall i :: 0 <= i < |p.handled| ==> p.handled[i].outcome == Ran(true, None) {
      assert !Stopped(p.handled);
      NoneInFlight(p.workers);
      assert p.workers[0] in p.workers;
      NoFailures(p.handled);
    }
  }

  lemma {:induction false} NoFailures(done: seq<Done>)
    requires !Stopped(done)
    ensures FirstError(done) == None
    decreases |done|
  {
    if |done| > 0 {
      var front, last := done[..|done| - 1], done[|done| - 1];
      assert done == front + [last];
      StoppedLast(front, last);
      NoFailures(front);
    }
  }

  // ---- What stops ----

  /** The error that is reported, exactly: none if every read succeeded and no callback failed, and
      otherwise that of the first read or callback that did, in the order they finished. */
  lemma ErrorExact(keys: seq<Id>, workers: int, steps: seq<Step>)
    requires LegalRun(Init(keys, workers), steps)
    ensures var p := Run(Init(keys, workers), steps);
      && (p.err == None <==> forall i :: 0 <= i < |p.handled| ==>
            p.handled[i].outcome.Ran? && p.handled[i].outcome.failure == None)
      && (p.err.Some? ==> exists i :: 0 <= i < |p.handled| && FirstFailure(p.handled, i, p.err.value))
  {
    hide LegalRun, Run, Init, Enabled;
    RunPartition(keys, workers, steps);
    FirstErrorExact(Run(Init(keys, workers), steps).handled);
  }

  /** The i-th outcome fails with this error, and none before it fails. */
  ghost predicate FirstFailure(done: seq<Done>, i: nat, e: Error)
    requires i < |done|
  {
    && (done[i].outcome == ReadFailed(e) || (done[i].outcome.Ran? && done[i].outcome.failure == Some(e)))
    && forall j :: 0 <= j < i ==> done[j].outcome.Ran? && done[j].outcome.failure == None
  }

  lemma {:induction false} FirstErrorExact(done: seq<Done>)
    ensures FirstError(done) == None <==>
      forall i :: 0 <= i < |done| ==> done[i].outcome.Ran? && done[i].outcome.failure == None
    ensures FirstError(done).Some? ==>
      exists i :: 0 <= i < |done| && FirstFailure(done, i, FirstError(done).value)
    decreases |done|
  {
    if |done| > 0 {
      var front, last := done[..|done| - 1], done[|done| - 1];
      FirstErrorExact(front);
      if FirstError(front).Some? {
        var i :| 0 <= i < |front| && FirstFailure(front, i, FirstError(front).value);
        assert FirstFailure(done, i, FirstError(done).value);
        assert done[i].outcome.ReadFailed? || done[i].outcome.failure.Some?;
      } else if FirstError(done).Some? {
        assert FirstFailure(done, |done| - 1, FirstError(done).value);
      }
    }
  }

  /** The context is cancelled exactly if some read failed, or some callback returned false or an
      error. */
  lemma CancelExact(keys: seq<Id>, workers: int, steps: seq<Step>)
    requires LegalRun(Init(keys, workers), steps)
    ensures var p := Run(Init(keys, workers), steps);
      p.cancelled <==>
        exists i :: 0 <= i < |p.handled| && (p.handled[i].outcome.ReadFailed? || !p.handled[i].outcome.cont
                                             || p.handled[i].outcome.failure.Some?)
  {
    hide LegalRun, Run, Init, Enabled;
    RunPartition(keys, workers, steps);
    var p := Run(Init(keys, workers), steps);
    if i :| 0 <= i < |p.handled| && (p.handled[i].outcome.ReadFailed? || !p.handled[i].outcome.cont
                                     || p.handled[i].outcome.failure.Some?)
    {
      assert !Goes(p.handled[i].outcome);
    }
  }

  lemma RunAppend(p: Pool, steps: seq<Step>, more: seq<Step>)
    requires LegalRun(p, steps + more)
    ensures LegalRun(p, steps) && LegalRun(Run(p, steps), more)
    ensures Run(p, steps + more) == Run(Run(p, steps), more)
    decreases |more|
  {
    hide Enabled, Apply;
    if |more| == 0 {
      assert steps + more == steps;
    } else {
      assert (steps + more)[..|steps + more| - 1] == steps + more[..|more| - 1];
      RunAppend(p, steps, more[..|more| - 1]);
    }
  }

  lemma {:induction false} StaysExited(p: Pool, steps: seq<Step>, w: nat)
    requires LegalRun(p, steps) && w < |p.workers| && p.workers[w] == Exited
    ensures |Run(p, steps).workers| == |p.workers| && Run(p, steps).workers[w] == Exited
    ensures forall step :: step in steps ==> step != Take(w) && !(step.Finish? && step.w == w)
    decreases |steps|
  {
    if |steps| > 0 {
      var front, step := steps[..|steps| - 1], steps[|steps| - 1];
      assert steps == front + [step];
      StaysExited(p, front, w);
    }
  }

  /** A worker whose read failed, or whose callback returned false or an error, never takes or
      handles an id again, on any continuation; after (true, nil) it waits for the next one. */
  lemma StopperStops(p: Pool, w: nat, o: Outcome, more: seq<Step>)
    requires Enabled(p, Finish(w, o)) && LegalRun(Apply(p, Finish(w, o)), more)
    ensures var p' := Apply(p, Finish(w, o));
      && |p'.workers| == |p.workers|
      && p'.workers[w] == (if o == Ran(true, None) then Idle else Exited)
      && p'.cancelled == (p.cancelled || o != Ran(true, None))
    ensures o.ReadFailed? || !o.cont || o.failure.Some? ==>
      forall step :: step in more ==> step != Take(w) && !(step.Finish? && step.w == w)
  {
    if o.ReadFailed? || !o.cont || o.failure.Some? { StaysExited(Apply(p, Finish(w, o)), more, w); }
  }

  /** But a stop does not stop the others at once: the producer may pass one id over and still send
      the next, and another worker may still take it and call back. */
  lemma StopMayBeLate(a: Id, b: Id, c: Id)
    ensures var steps := [Send, Take(0), Finish(0, Ran(false, None)), Drop, Send, Take(1), Finish(1, Ran(true, None))];
      && LegalRun(Init([a, b, c], 2), steps)
      && var p := Run(Init([a, b, c], 2), steps);
      && p.cancelled
      && p.dropped == [b]
      && p.handled == [Done(a, Ran(false, None)), Done(c, Ran(true, None))]
  {
    hide LegalRun, Run;
    var p0 := Init([a, b, c], 2);
    var f0, f1 := Finish(0, Ran(false, None)), Finish(1, Ran(true, None));
    NoStep(p0);
    OneStep(p0, [], Send);
    assert [] + [Send] == [Send];
    OneStep(p0, [Send], Take(0));
    OneStep(p0, [Send] + [Take(0)], f0);
    var stopped := [Send] + [Take(0)] + [f0];
    var p := Run(p0, stopped);
    assert p.queue == [] && p.unsent == [b, c] && p.workers == [Exited, Idle] && p.cancelled;
    assert p.handled == [Done(a, Ran(false, None))];
    OneStep(p0, stopped, Drop);
    OneStep(p0, stopped + [Drop], Send);
    var sent := stopped + [Drop] + [Send];
    assert Run(p0, sent).queue == [c];
    OneStep(p0, sent, Take(1));
    OneStep(p0, sent + [Take(1)], f1);
    assert sent + [Take(1)] + [f1] == [Send, Take(0), f0, Drop, Send, Take(1), f1];
  }

  lemma NoStep(p: Pool)
    ensures LegalRun(p, []) && Run(p, []) == p
  {
  }

  lemma OneStep(p: Pool, steps: seq<Step>, step: Step)
    requires LegalRun(p, steps) && Enabled(Run(p, steps), step)
    ensures LegalRun(p, steps + [step]) && Run(p, steps + [step]) == Apply(Run(p, steps), step)
  {
    hide Enabled, Apply;
    assert (steps + [step])[..|steps|] == steps;
  }

  // ---- Termination ----

  function Weight(w: Worker): nat {
    match w
    case Idle => 1
    case Busy(_) => 2
    case Exited => 0
  }

  function Weights(workers: seq<Worker>): nat {
    if |workers| == 0 then 0 else Weights(workers[..|workers| - 1]) + Weight(workers[|workers| - 1])
  }

  lemma {:induction false} WeightsUpdate(workers: seq<Worker>, w: nat, x: Worker)
    requires w < |workers|
    ensures Weights(workers[w := x]) + Weight(workers[w]) == Weights(workers) + Weight(x)
  {
    var n := |workers| - 1;
    if w < n {
      WeightsUpdate(workers[..n], w, x);
      assert workers[w := x][..n] == workers[..n][w := x];
    } else {
      assert workers[w := x][..n] == workers[..n];
    }
  }

  function Measure(p: Pool): nat {
    3 * |p.unsent| + 2 * |p.queue| + Weights(p.workers) + if p.closed then 0 else 1
  }

  lemma StepMeasure(p: Pool, step: Step)
    requires Enabled(p, step)
    ensures Measure(Apply(p, step)) < Measure(p)
  {
    match step
    case Send =>
    case Drop =>
    case Close =>
    case Take(w) => WeightsUpdate(p.workers, w, Busy(p.queue[0]));
    case Finish(w, o) => WeightsUpdate(p.workers, w, if Goes(o) then Idle else Exited);
    case Quit(w) => WeightsUpdate(p.workers, w, Exited);
  }

  /** A pool that has not returned can always move: there is no deadlock. */
  lemma Progress(p: Pool)
    requires ControlOk(p) && !Final(p)
    ensures exists step :: Enabled(p, step)
  {
    if |p.unsent| > 0 {
      if p.cancelled {
        assert Enabled(p, Drop);
      } else if |p.queue| < CHANNEL_SIZE {
        assert Enabled(p, Send);
      } else {
        assert p.workers[0] in p.workers;
        assert Enabled(p, if p.workers[0] == Idle then Take(0) else Finish(0, Ran(true, None)));
      }
    } else if !p.closed {
      assert Enabled(p, Close);
    } else {
      var w :| 0 <= w < |p.workers| && p.workers[w] != Exited;
      assert Enabled(p, if p.workers[w].Busy? then Finish(w, Ran(true, None))
                        else if |p.queue| > 0 then Take(w) else Quit(w));
    }
  }

  /** Termination: a run is no longer than the measure of its start, and a run that cannot be
      extended has returned. */
  lemma {:induction false} RunTerminates(keys: seq<Id>, workers: int, steps: seq<Step>)
    requires LegalRun(Init(keys, workers), steps)
    ensures |steps| + Measure(Run(Init(keys, workers), steps)) <= Measure(Init(keys, workers))
    ensures (forall step :: !Enabled(Run(Init(keys, workers), steps), step)) ==> Final(Run(Init(keys, workers), steps))
    decreases |steps|
  {
    hide Init, Measure, Enabled, ControlOk, Partition;
    var p0 := Init(keys, workers);
    if |steps| > 0 {
      RunTerminates(keys, workers, steps[..|steps| - 1]);
      StepMeasure(Run(p0, steps[..|steps| - 1]), steps[|steps| - 1]);
    }
    RunPartition(keys, workers, steps);
    if !Final(Run(p0, steps)) { Progress(Run(p0, steps)); }
  }

  // ---- Order with one worker ----

  ghost predicate InOrder(p: Pool, keys: seq<Id>) {
    && |p.workers| == 1
    && var w := p.workers[0];
    && Ids(p.handled) <= keys
    && (!p.cancelled ==> Ids(p.handled) + (Carried(w) + (p.queue + p.unsent)) == keys)
    && (p.cancelled ==> w == Exited)
    && (!p.cancelled ==> forall i :: 0 <= i < |p.handled| ==> p.handled[i].outcome == Ran(true, None))
    && forall i :: 0 <= i < |p.handled| - 1 ==> p.handled[i].outcome == Ran(true, None)
  }

  function Carried(w: Worker): seq<Id> {
    if w.Busy? then [w.id] else []
  }

  lemma StepInOrder(p: Pool, step: Step, keys: seq<Id>)
    requires Enabled(p, step) && ControlOk(p) && InOrder(p, keys)
    ensures InOrder(Apply(p, step), keys)
  {
    hide FirstError, Ids, Stopped, ControlOk;
    match step
    case Send => SendInOrder(p, keys);
    case Drop => hide InOrder; DropInOrder(p, keys);
    case Close =>
    case Take(w) => TakeInOrder(p, keys);
    case Finish(w, o) => FinishInOrder(p, o, keys);
    case Quit(w) => QuitInOrder(p, keys);
  }

  lemma SendInOrder(p: Pool, keys: seq<Id>)
    requires Enabled(p, Send) && InOrder(p, keys)
    ensures InOrder(Apply(p, Send), keys)
  {
    hide Ids, Carried;
    assert p.queue + p.unsent == (p.queue + [p.unsent[0]]) + p.unsent[1..];
  }

  lemma DropInOrder(p: Pool, keys: seq<Id>)
    requires Enabled(p, Drop) && InOrder(p, keys)
    ensures InOrder(Apply(p, Drop), keys)
  {
    hide Ids, Carried;
  }

  lemma TakeInOrder(p: Pool, keys: seq<Id>)
    requires Enabled(p, Take(0)) && InOrder(p, keys)
    ensures InOrder(Apply(p, Take(0)), keys)
  {
    hide Ids;
    assert [] + (p.queue + p.unsent) == [p.queue[0]] + (p.queue[1..] + p.unsent);
  }

  lemma FinishInOrder(p: Pool, o: Outcome, keys: seq<Id>)
    requires Enabled(p, Finish(0, o)) && InOrder(p, keys)
    ensures InOrder(Apply(p, Finish(0, o)), keys)
  {
    hide FirstError, Ids;
    var id := p.workers[0].id;
    IdsAppend(p.handled, Done(id, o));
    var rest := p.queue + p.unsent;
    assert keys == Ids(p.handled) + ([id] + rest) == (Ids(p.handled) + [id]) + rest;
    if Goes(o) { assert [] + rest == rest; }
  }

  lemma QuitInOrder(p: Pool, keys: seq<Id>)
    requires Enabled(p, Quit(0)) && InOrder(p, keys)
    ensures InOrder(Apply(p, Quit(0)), keys)
  {
    hide Ids;
  }

  /** A single worker handles the ids in the order of the page; every read succeeds and every
      callback returns (true, nil) except at most the last one, so after a failed read, a false or
      an error nothing more is handled. */
  lemma {:induction false} SingleWorkerOrder(keys: seq<Id>, steps: seq<Step>)
    requires LegalRun(Init(keys, 1), steps)
    ensures InOrder(Run(Init(keys, 1), steps), keys)
    ensures Ids(Run(Init(keys, 1), steps).handled) <= keys
    ensures var done := Run(Init(keys, 1), steps).handled;
      forall i :: 0 <= i < |done| - 1 ==> done[i].outcome == Ran(true, None)
    decreases |steps|
  {
    hide Enabled, ControlOk, Apply;
    if |steps| > 0 {
      hide InOrder;
      SingleWorkerOrder(keys, steps[..|steps| - 1]);
      RunPartition(keys, 1, steps[..|steps| - 1]);
      StepInOrder(Run(Init(keys, 1), steps[..|steps| - 1]), steps[|steps| - 1], keys);
      OrderPrefix(Run(Init(keys, 1), steps), keys);
    } else {
      assert Ids([]) == [];
    }
  }

  lemma OrderPrefix(p: Pool, keys: seq<Id>)
    requires InOrder(p, keys)
    ensures Ids(p.handled) <= keys
    ensures forall i :: 0 <= i < |p.handled| - 1 ==> p.handled[i].outcome == Ran(true, None)
  {
    hide Ids;
  }
}
