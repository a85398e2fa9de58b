/** The writer goroutine of a segment (internal/store/segment.go:91-215) against the caller that
    feeds it, at every interleaving. The channel is unbuffered: a send waits until the loop has
    written the chunk before. */
module WriterQueue {
  import opened Bytes
  import opened Prelude
  import opened Record
  import opened Log

  /** Where the caller is inside WriteRecord. */
  datatype Caller =
    | AtRest
    | BeforeHeader(r: Record)
    | BeforeData(r: Record)
    | BeforeSize(r: Record)

  /** `inHand` is the chunk the loop has received and not yet written; `log` is history: the
      records whose WriteRecord has returned. */
  datatype Writer = Writer(
    file: Bytes,
    inHand: Option<Bytes>,
    caller: Caller,
    size: nat,
    closing: bool,
    stopped: bool,
    log: seq<Record>
  )

  /** newSegment on a file that is empty or that loadSegments has found: the writer goes on at its
      end. */
  function Init(file: Bytes): Writer {
    Writer(file, None, AtRest, |file|, false, false, [])
  }

  datatype Step =
    | Begin(r: Record)  // WriteRecord, the header built
    | SendHeader        // s.ch <- header
    | SendData          // s.ch <- data
    | Account           // s.size += RecordSize, and return
    | LoopWrite         // s.file.Write(data)
    | CloseChannel      // close(s.ch)
    | LoopExit          // the range loop ends; wg.Wait returns

  predicate Enabled(w: Writer, step: Step) {
    match step
    case Begin(r) => w.caller == AtRest && !w.closing && Encodable(r.id, r.data)
    case SendHeader => w.caller.BeforeHeader? && w.inHand == None
    case SendData => w.caller.BeforeData? && w.inHand == None
    case Account => w.caller.BeforeSize?
    case LoopWrite => w.inHand.Some?
    case CloseChannel => w.caller == AtRest && !w.closing
    case LoopExit => w.closing && w.inHand == None && !w.stopped
  }

  function Apply(w: Writer, step: Step): Writer
    requires Enabled(w, step)
  {
    match step
    case Begin(r) => w.(caller := BeforeHeader(r))
    case SendHeader =>
      var r := w.caller.r;
      w.(inHand := Some(Header(r)), caller := if |r.data| > 0 then BeforeData(r) else BeforeSize(r))
    case SendData => w.(inHand := Some(w.caller.r.data), caller := BeforeSize(w.caller.r))
    case Account => w.(size := w.size + Size(w.caller.r), caller := AtRest, log := w.log + [w.caller.r])
    case LoopWrite => w.(file := w.file + w.inHand.value, inHand := None)
    case CloseChannel => w.(closing := true)
    case LoopExit => w.(stopped := true)
  }

  /** Bytes received and not yet written. */
  function Pending(w: Writer): Bytes {
    match w.inHand case None => [] case Some(b) => b
  }

  /** Bytes of the record in progress that have not been sent yet. */
  function Unsent(c: Caller): Bytes {
    match c
    case AtRest => []
    case BeforeHeader(r) => Encode(r)
    case BeforeData(r) => r.data
    case BeforeSize(_) => []
  }

  function Current(c: Caller): seq<Record> {
    match c
    case AtRest => []
    case BeforeHeader(r) => [r]
    case BeforeData(r) => [r]
    case BeforeSize(r) => [r]
  }

  /** Behind the file as it was, file, pending and unsent bytes are the records in call order;
      `size` counts the records that have returned. */
  ghost predicate Inv(initial: Bytes, w: Writer) {
    && w.file + Pending(w) + Unsent(w.caller) == initial + EncodeAll(w.log + Current(w.caller))
    && w.size == |initial + EncodeAll(w.log)|
    && (w.closing ==> w.caller == AtRest)
    && (w.stopped ==> w.closing && w.inHand == None)
  }

  lemma EncodeAllLast(rs: seq<Record>, r: Record)
    ensures EncodeAll(rs + [r]) == EncodeAll(rs) + Encode(r)
  {
    hide Encode;
    assert (rs + [r])[..|rs|] == rs;
  }

  lemma StepInv(initial: Bytes, w: Writer, step: Step)
    requires Enabled(w, step) && Inv(initial, w)
    ensures Inv(initial, Apply(w, step))
  {
    hide Header, EncodeAll;
    match step
    case Begin(r) =>
      EncodeAllLast(w.log, r);
      assert w.log + [] == w.log;
      assert w.file + Pending(w) + [] == w.file + Pending(w);
      assert initial + (EncodeAll(w.log) + Encode(r)) == (initial + EncodeAll(w.log)) + Encode(r);
    case SendHeader =>
    case SendData =>
    case Account =>
      EncodeAllLast(w.log, w.caller.r);
      assert w.log + [w.caller.r] + [] == w.log + [w.caller.r];
    case LoopWrite =>
    case CloseChannel =>
    case LoopExit =>
  }

  predicate LegalRun(initial: Bytes, steps: seq<Step>)
    decreases |steps|, 0
  {
    |steps| > 0 ==>
      LegalRun(initial, steps[..|steps| - 1]) && Enabled(Run(initial, steps[..|steps| - 1]), steps[|steps| - 1])
  }

  function Run(initial: Bytes, steps: seq<Step>): Writer
    requires LegalRun(initial, steps)
    decreases |steps|, 1
  {
    if |steps| == 0 then Init(initial) else Apply(Run(initial, steps[..|steps| - 1]), steps[|steps| - 1])
  }

  lemma {:induction false} RunInv(initial: Bytes, steps: seq<Step>)
    requires LegalRun(initial, steps)
    ensures Inv(initial, Run(initial, steps))
    decreases |steps|
  {
    hide Enabled, Apply;
    if |steps| > 0 {
      RunInv(initial, steps[..|steps| - 1]);
      StepInv(initial, Run(initial, steps[..|steps| - 1]), steps[|steps| - 1]);
    }
  }

  /** Whatever file the segment is opened on: between calls, at every interleaving, `size` is the
      file plus what is still pending, and the two together are the old file followed by exactly
      the records in call order; so the offset that the next WriteRecord returns is where its
      record will be. Once the loop has ended after Close, nothing is pending: the file is the old
      one and the log, and if the old one was clean it scans to its records and then the log's. */
  lemma QueueLaw(initial: Bytes, steps: seq<Step>)
    requires LegalRun(initial, steps)
    ensures var w := Run(initial, steps);
      && (w.caller == AtRest ==>
            w.size == |w.file| + |Pending(w)| && w.file + Pending(w) == initial + EncodeAll(w.log))
      && (w.stopped ==> w.file == initial + EncodeAll(w.log) && w.size == |w.file|)
      && (w.stopped && AllValid(w.log) && Clean(initial) ==>
            Scan(w.file) == Scan(initial) + w.log && Clean(w.file))
  {
    hide LegalRun, Run, EncodeAll, Scan;
    RunInv(initial, steps);
    var w := Run(initial, steps);
    assert w.log + [] == w.log;
    if w.caller == AtRest { assert w.file + Pending(w) + [] == w.file + Pending(w); }
    if w.stopped && AllValid(w.log) && Clean(initial) {
      EncodeAllConcat(Scan(initial), w.log);
      ScanEncodeAll(Scan(initial) + w.log);
    }
  }

  lemma {:induction false} EncodeAllConcat(a: seq<Record>, b: seq<Record>)
    ensures EncodeAll(a + b) == EncodeAll(a) + EncodeAll(b)
    decreases |b|
  {
    hide Encode;
    if |b| == 0 {
      assert a + b == a && EncodeAll(a) + [] == EncodeAll(a);
    } else {
      var front, last := b[..|b| - 1], b[|b| - 1];
      EncodeAllConcat(a, front);
      assert a + b == (a + front) + [last];
      EncodeAllLast(a + front, last);
      EncodeAllLast(front, last);
      assert b == front + [last];
      hide EncodeAll;
      assert EncodeAll(a) + (EncodeAll(front) + Encode(last)) == (EncodeAll(a) + EncodeAll(front)) + Encode(last);
    }
  }

  /** As long as the caller or the loop has something to do, one of them can go on. */
  lemma Progress(w: Writer)
    requires w.caller != AtRest || w.inHand.Some? || (w.closing && !w.stopped)
    ensures || Enabled(w, SendHeader) || Enabled(w, SendData) || Enabled(w, Account)
            || Enabled(w, LoopWrite) || Enabled(w, LoopExit)
  {
  }

  // ---- Every log can be written ----

  lemma OneStep(initial: Bytes, steps: seq<Step>, step: Step)
    requires LegalRun(initial, steps) && Enabled(Run(initial, steps), step)
    ensures LegalRun(initial, steps + [step])
    ensures Run(initial, steps + [step]) == Apply(Run(initial, steps), step)
  {
    hide Enabled, Apply;
    assert (steps + [step])[..|steps|] == steps;
  }

  /** Between calls, with nothing pending and the channel open. */
  predicate Quiet(w: Writer) {
    w.caller == AtRest && w.inHand == None && !w.closing && !w.stopped
  }

  lemma WriteOne(initial: Bytes, steps: seq<Step>, r: Record) returns (steps': seq<Step>)
    requires LegalRun(initial, steps) && Quiet(Run(initial, steps)) && Encodable(r.id, r.data)
    ensures LegalRun(initial, steps') && Quiet(Run(initial, steps'))
    ensures Run(initial, steps').log == Run(initial, steps).log + [r]
  {
    hide LegalRun, Run, Header;
    steps' := steps + [Begin(r)];
    OneStep(initial, steps, Begin(r));
    OneStep(initial, steps', SendHeader);
    steps' := steps' + [SendHeader];
    OneStep(initial, steps', LoopWrite);
    steps' := steps' + [LoopWrite];
    if |r.data| > 0 {
      OneStep(initial, steps', SendData);
      steps' := steps' + [SendData];
      OneStep(initial, steps', LoopWrite);
      steps' := steps' + [LoopWrite];
    }
    OneStep(initial, steps', Account);
    steps' := steps' + [Account];
  }

  lemma {:induction false} WriteAll(initial: Bytes, rs: seq<Record>) returns (steps: seq<Step>)
    requires forall r :: r in rs ==> Encodable(r.id, r.data)
    ensures LegalRun(initial, steps) && Quiet(Run(initial, steps)) && Run(initial, steps).log == rs
    decreases |rs|
  {
    if |rs| == 0 {
      steps := [];
    } else {
      hide LegalRun, Run;
      steps := WriteAll(initial, rs[..|rs| - 1]);
      steps := WriteOne(initial, steps, rs[|rs| - 1]);
      assert rs == rs[..|rs| - 1] + [rs[|rs| - 1]];
    }
  }

  /** Nothing stands in the way of writing: any sequence of encodable records can be written and the
      segment closed, and then the file is the initial one followed by all of them. */
  lemma EveryLog(initial: Bytes, rs: seq<Record>) returns (steps: seq<Step>)
    requires forall r :: r in rs ==> Encodable(r.id, r.data)
    ensures LegalRun(initial, steps)
    ensures var w := Run(initial, steps); w.stopped && w.log == rs && w.file == initial + EncodeAll(rs)
  {
    hide LegalRun, Run, EncodeAll;
    steps := WriteAll(initial, rs);
    OneStep(initial, steps, CloseChannel);
    steps := steps + [CloseChannel];
    OneStep(initial, steps, LoopExit);
    steps := steps + [LoopExit];
    QueueLaw(initial, steps);
  }
}
