/** The bounded worker pool around the filter bank: four workers, bounded task
    and result channels, and a reorder buffer.

    A worker step moves one task from the task channel to a worker, or finishes
    one running task and sends its result. Every order of worker steps between
    any two channel operations of the caller is allowed. A task carries its
    filter bank by value, as the moved clone does. */
module PfbPool {
  import opened Arith
  import opened Complex
  import opened Channelizer
  import opened Pfb

  const WORKERS: nat := 4
  const MAX_IN_FLIGHT: nat := WORKERS + 2

  datatype Task = Task(seqno: nat, stamp: nat, inputIndex: nat, state: PfbState, bins: seq<nat>, iq: seq<C>)

  datatype WorkerResult = WorkerResult(seqno: nat, stamp: nat, inputIndex: nat, groups: nat,
                                       firstRe: real, packetSamples: nat, iq: seq<C>)

  /** One accepted submission, with the bins selected when it was accepted. */
  datatype Packet = Packet(stamp: nat, iq: seq<C>, bins: seq<nat>)

  /** Everything submitted so far, as one stream. */
  ghost function Input(packets: seq<Packet>): seq<C> {
    if packets == [] then [] else Input(packets[..|packets| - 1]) + packets[|packets| - 1].iq
  }

  lemma InputStep(packets: seq<Packet>, p: Packet)
    ensures Input(packets + [p]) == Input(packets) + p.iq
  {
    assert (packets + [p])[..|packets|] == packets;
  }

  /** What one serial filter bank gives for packet i of the stream. */
  ghost function Serial(d: Design, emitIq: bool, packets: seq<Packet>, i: nat): WorkerResult
    requires i < |packets| && d.g.m > 0 && d.g.hop > 0
  {
    var x := Input(packets[..i]);
    var p := packets[i];
    var groups := GroupCount(d.g, |x|, |p.iq|);
    GroupCountBound(d.g, |x|, |p.iq|);
    DivGe(|x|, d.g.hop, 0);
    var bank := Bank(d.g, d.h, d.w, x + p.iq, |x| / d.g.hop, groups, p.bins);
    WorkerResult(i, p.stamp, |x|, groups, if groups > 0 && |bank| > 0 then bank[0].re else 0.0,
                 |p.iq|, if emitIq then bank else [])
  }

  /** Result r is packet i, numbered and stamped, with the groups that it completes, each
      column the input around its bin, moved down from it. */
  ghost predicate Filtered(d: Design, packets: seq<Packet>, i: nat, r: WorkerResult)
    requires i < |packets| && d.g.hop > 0
  {
    var x, p := Input(packets[..i]), packets[i];
    && r.seqno == i && r.stamp == p.stamp && r.inputIndex == |x| && r.packetSamples == |p.iq|
    && r.groups == (|x| + |p.iq|) / d.g.hop - |x| / d.g.hop && |x| / d.g.hop >= 0
    && Demodulates(d, x + p.iq, |x| / d.g.hop, r.groups, p.bins, r.iq)
    && r.firstRe == if r.iq != [] then r.iq[0].re else 0.0
  }

  lemma SerialFilters(d: Design, packets: seq<Packet>, i: nat)
    requires i < |packets| && d.g.m > 0 && d.g.hop > 0 && Root(d.w, d.g.m) && |d.h| == d.g.Len()
    ensures Filtered(d, packets, i, Serial(d, true, packets, i))
  {
    hide Input, Bank, Demodulates;
    var x, p := Input(packets[..i]), packets[i];
    GroupCountBound(d.g, |x|, |p.iq|);
    DivGe(|x|, d.g.hop, 0);
    var groups := GroupCount(d.g, |x|, |p.iq|);
    BankDemodulates(d, x + p.iq, |x| / d.g.hop, groups, p.bins);
    BankCells(d, x + p.iq, |x| / d.g.hop, groups, p.bins);
    assert groups == 0 ==> groups * |p.bins| == 0;
  }

  /** Later submissions do not change the result of an earlier packet. */
  lemma SerialStable(d: Design, emitIq: bool, packets: seq<Packet>, p: Packet, i: nat)
    requires i < |packets| && d.g.m > 0 && d.g.hop > 0
    ensures Serial(d, emitIq, packets + [p], i) == Serial(d, emitIq, packets, i)
  {
    assert (packets + [p])[..i] == packets[..i];
  }

  /** A task in flight is its packet together with the exact state before it. */
  ghost predicate TaskFor(d: Design, packets: seq<Packet>, t: Task) {
    && t.seqno < |packets|
    && t.stamp == packets[t.seqno].stamp && t.iq == packets[t.seqno].iq && t.bins == packets[t.seqno].bins
    && t.inputIndex == |Input(packets[..t.seqno])|
    && t.state.d == d && t.state.After(Input(packets[..t.seqno]))
  }

  ghost predicate ResultFor(d: Design, emitIq: bool, packets: seq<Packet>, r: WorkerResult) {
    d.g.m > 0 && d.g.hop > 0 && r.seqno < |packets| && r == Serial(d, emitIq, packets, r.seqno)
  }

  ghost predicate GoodBins(g: Geometry, bins: seq<nat>) {
    && 0 < |bins| <= g.m
    && forall c :: 0 <= c < |bins| ==> bins[c] < g.m
  }

  ghost predicate Distinct(bins: seq<nat>) {
    forall a, b :: 0 <= a < b < |bins| ==> bins[a] != bins[b]
  }

  ghost predicate GoodPacket(g: Geometry, limit: nat, p: Packet) {
    GoodBins(g, p.bins) && 0 < |p.iq| <= limit
  }

  function TaskSeqs(ts: seq<Task>): seq<nat> { seq(|ts|, i requires 0 <= i < |ts| => ts[i].seqno) }

  function ResultSeqs(rs: seq<WorkerResult>): seq<nat> { seq(|rs|, i requires 0 <= i < |rs| => rs[i].seqno) }

  lemma Removed<T>(s: seq<T>, i: nat)
    requires i < |s|
    ensures multiset(s) == multiset(s[..i] + s[i + 1..]) + multiset{s[i]}
  {
    assert s == s[..i] + [s[i]] + s[i + 1..];
  }

  lemma TaskRemoved(ts: seq<Task>, i: nat)
    requires i < |ts|
    ensures multiset(TaskSeqs(ts)) == multiset(TaskSeqs(ts[..i] + ts[i + 1..])) + multiset{ts[i].seqno}
  {
    Removed(TaskSeqs(ts), i);
    assert TaskSeqs(ts[..i] + ts[i + 1..]) == TaskSeqs(ts)[..i] + TaskSeqs(ts)[i + 1..];
  }

  lemma TaskTaken(ts: seq<Task>)
    requires |ts| > 0
    ensures multiset(TaskSeqs(ts)) == multiset(TaskSeqs(ts[1..])) + multiset{ts[0].seqno}
  {
    assert TaskSeqs(ts) == [ts[0].seqno] + TaskSeqs(ts[1..]);
  }

  lemma TaskAdded(ts: seq<Task>, t: Task)
    ensures multiset(TaskSeqs(ts + [t])) == multiset(TaskSeqs(ts)) + multiset{t.seqno}
  {
    assert TaskSeqs(ts + [t]) == TaskSeqs(ts) + [t.seqno];
  }

  lemma ResultAdded(rs: seq<WorkerResult>, r: WorkerResult)
    ensures multiset(ResultSeqs(rs + [r])) == multiset(ResultSeqs(rs)) + multiset{r.seqno}
  {
    assert ResultSeqs(rs + [r]) == ResultSeqs(rs) + [r.seqno];
  }

  lemma ResultReceived(rs: seq<WorkerResult>)
    requires |rs| > 0
    ensures multiset(ResultSeqs(rs)) == multiset(ResultSeqs(rs[1..])) + multiset{rs[0].seqno}
  {
    assert ResultSeqs(rs) == [rs[0].seqno] + ResultSeqs(rs[1..]);
  }

  // ------------------------------------------------------- the bookkeeping

  /** The protocol part of the pool: channels, workers, reorder buffer, counters. */
  datatype Book = Book(expectedSubmit: nat, expectedOutput: nat, inFlight: nat,
                       pending: map<nat, WorkerResult>, ready: seq<WorkerResult>,
                       tasks: seq<Task>, running: seq<Task>, results: seq<WorkerResult>, taken: nat) {
    /** Sequences that are in a channel or inside a worker. */
    ghost function Flight(): multiset<nat> {
      multiset(TaskSeqs(tasks)) + multiset(TaskSeqs(running)) + multiset(ResultSeqs(results))
    }

    /** Every sequence not yet ordered is in exactly one place, the ordered ones
        wait in order, and the queues stay bounded. */
    ghost predicate Counted() {
      && expectedOutput <= expectedSubmit
      && inFlight == |tasks| + |running| + |results|
      && inFlight + |pending| == expectedSubmit - expectedOutput
      && expectedSubmit - expectedOutput <= 3
      && |ready| + (expectedSubmit - expectedOutput) <= 5
      && |running| <= WORKERS
      && taken + |ready| == expectedOutput
    }

    /** All but the last rule of Ok: the next packet in order may be waiting. */
    ghost predicate Delivering(good: Task -> bool, right: WorkerResult -> bool) {
      && Counted()
      && Partition(Flight(), pending.Keys, expectedOutput, expectedSubmit)
      && Meant(good, right)
    }

    /** Every task and every result is the one of its sequence, wherever it waits. */
    ghost predicate Meant(good: Task -> bool, right: WorkerResult -> bool) {
      && (forall t :: t in tasks ==> good(t))
      && (forall t :: t in running ==> good(t))
      && (forall r :: r in results ==> right(r))
      && (forall k :: k in pending ==> pending[k].seqno == k && right(pending[k]))
      && (forall i :: 0 <= i < |ready| ==> ready[i].seqno == taken + i && right(ready[i]))
    }

    ghost predicate Ok(good: Task -> bool, right: WorkerResult -> bool) {
      Delivering(good, right) && expectedOutput !in pending
    }
  }

  lemma EmptyBook(b: Book, good: Task -> bool, right: WorkerResult -> bool)
    requires b == Book(0, 0, 0, map[], [], [], [], [], 0)
    ensures b.Ok(good, right)
  {
  }

  lemma TookTask(b: Book, b': Book, good: Task -> bool, right: WorkerResult -> bool)
    requires b.Ok(good, right) && |b.tasks| > 0 && |b.running| < WORKERS
    requires b' == b.(tasks := b.tasks[1..], running := b.running + [b.tasks[0]])
    ensures b'.Ok(good, right)
  {
    hide Partition;
    TaskTaken(b.tasks);
    TaskAdded(b.running, b.tasks[0]);
    assert b'.Flight() == b.Flight();
  }

  lemma FinishedTask(b: Book, b': Book, i: nat, r: WorkerResult,
                     good: Task -> bool, right: WorkerResult -> bool)
    requires b.Ok(good, right) && i < |b.running| && right(r) && r.seqno == b.running[i].seqno
    requires b' == b.(running := b.running[..i] + b.running[i + 1..], results := b.results + [r])
    ensures b'.Ok(good, right)
  {
    hide Partition;
    TaskRemoved(b.running, i);
    ResultAdded(b.results, r);
    assert b'.Flight() == b.Flight();
  }

  /** A received result is new to the reorder buffer. */
  lemma Received(b: Book, b': Book, good: Task -> bool, right: WorkerResult -> bool)
    requires b.Ok(good, right) && |b.results| > 0
    requires var r := b.results[0];
             b' == b.(results := b.results[1..], inFlight := b.inFlight - 1, pending := b.pending[r.seqno := r])
    ensures b.results[0].seqno !in b.pending
    ensures b'.Delivering(good, right)
  {
    hide Partition, Book.Meant, Book.Flight;
    var r := b.results[0];
    ReceivedFlight(b, b');
    PartitionReceive(b.Flight(), b'.Flight(), b.pending.Keys, r.seqno, b.expectedOutput, b.expectedSubmit);
    KeyAdded(b.pending, r.seqno, r);
    ReceivedMeant(b, b', good, right);
  }

  lemma KeyAdded<T>(m: map<nat, T>, k: nat, v: T)
    requires k !in m
    ensures m[k := v].Keys == m.Keys + {k} && |m[k := v]| == |m| + 1
  {
    assert m[k := v].Keys == m.Keys + {k};
    assert |m[k := v].Keys| == |m.Keys| + 1;
  }

  lemma KeyRemoved<T>(m: map<nat, T>, k: nat)
    requires k in m
    ensures (m - {k}).Keys == m.Keys - {k} && |m - {k}| == |m| - 1
  {
    assert (m - {k}).Keys == m.Keys - {k};
    assert |(m - {k}).Keys| == |m.Keys| - 1;
  }

  /** A received result leaves the flight. */
  lemma ReceivedFlight(b: Book, b': Book)
    requires |b.results| > 0 && b'.results == b.results[1..] && b'.tasks == b.tasks && b'.running == b.running
    ensures b.Flight() == b'.Flight() + multiset{b.results[0].seqno}
  {
    ResultReceived(b.results);
  }

  lemma SameFlight(b: Book, b': Book)
    requires b'.results == b.results && b'.tasks == b.tasks && b'.running == b.running
    ensures b'.Flight() == b.Flight()
  {
  }

  lemma ReceivedMeant(b: Book, b': Book, good: Task -> bool, right: WorkerResult -> bool)
    requires b.Meant(good, right) && |b.results| > 0
    requires b'.tasks == b.tasks && b'.running == b.running && b'.ready == b.ready && b'.taken == b.taken
    requires b'.results == b.results[1..] && b'.pending == b.pending[b.results[0].seqno := b.results[0]]
    ensures b'.Meant(good, right)
  {
  }

  lemma Delivered(b: Book, b': Book, good: Task -> bool, right: WorkerResult -> bool)
    requires b.Delivering(good, right) && b.expectedOutput in b.pending
    requires b' == b.(pending := b.pending - {b.expectedOutput}, expectedOutput := b.expectedOutput + 1,
                      ready := b.ready + [b.pending[b.expectedOutput]])
    ensures b'.Delivering(good, right) && |b'.pending| == |b.pending| - 1
  {
    hide Partition, Book.Meant, Book.Flight;
    var lo := b.expectedOutput;
    KeyRemoved(b.pending, lo);
    PartitionAdvance(b.Flight(), b.pending.Keys, lo, b.expectedSubmit);
    SameFlight(b, b');
    DeliveredMeant(b, b', good, right);
  }

  lemma DeliveredMeant(b: Book, b': Book, good: Task -> bool, right: WorkerResult -> bool)
    requires b.Meant(good, right) && b.expectedOutput in b.pending && b.taken + |b.ready| == b.expectedOutput
    requires b'.tasks == b.tasks && b'.running == b.running && b'.results == b.results && b'.taken == b.taken
    requires b'.pending == b.pending - {b.expectedOutput} && b'.ready == b.ready + [b.pending[b.expectedOutput]]
    ensures b'.Meant(good, right)
  {
  }

  /** While a packet is missing from the output something is in flight. */
  lemma SomethingInFlight(b: Book, good: Task -> bool, right: WorkerResult -> bool)
    requires b.Ok(good, right) && b.expectedOutput < b.expectedSubmit
    ensures b.inFlight > 0
  {
    var lo := b.expectedOutput;
    assert b.Flight()[lo] + (if lo in b.pending.Keys then 1 else 0) == 1;
    assert |TaskSeqs(b.tasks)| == |b.tasks| && |TaskSeqs(b.running)| == |b.running|
           && |ResultSeqs(b.results)| == |b.results|;
    assert |b.Flight()| == b.inFlight;
  }

  /** With nothing in flight every accepted packet has been ordered. */
  lemma NothingInFlight(b: Book, good: Task -> bool, right: WorkerResult -> bool)
    requires b.Ok(good, right) && b.inFlight == 0
    ensures b.expectedOutput == b.expectedSubmit && b.pending == map[]
  {
    if b.expectedOutput < b.expectedSubmit { SomethingInFlight(b, good, right); }
  }

  lemma Submitted(b: Book, b': Book, t: Task, good: Task -> bool, right: WorkerResult -> bool,
                  good': Task -> bool, right': WorkerResult -> bool)
    requires b.Ok(good, right) && b.expectedSubmit - b.expectedOutput <= 2 && |b.ready| <= 2
    requires t.seqno == b.expectedSubmit && good'(t)
    requires forall u :: good(u) ==> good'(u)
    requires forall r :: right(r) ==> right'(r)
    requires b' == b.(tasks := b.tasks + [t], expectedSubmit := b.expectedSubmit + 1, inFlight := b.inFlight + 1)
    ensures b'.Ok(good', right')
  {
    hide Partition, Book.Meant, Book.Flight;
    SubmittedFlight(b, b', t);
    PartitionSubmit(b.Flight(), b'.Flight(), b.pending.Keys, b.expectedOutput, b.expectedSubmit);
    SubmittedMeant(b, b', t, good, right, good', right');
  }

  lemma SubmittedFlight(b: Book, b': Book, t: Task)
    requires b'.tasks == b.tasks + [t] && b'.running == b.running && b'.results == b.results
    ensures b'.Flight() == b.Flight() + multiset{t.seqno}
  {
    TaskAdded(b.tasks, t);
  }

  lemma SubmittedMeant(b: Book, b': Book, t: Task, good: Task -> bool, right: WorkerResult -> bool,
                       good': Task -> bool, right': WorkerResult -> bool)
    requires b.Meant(good, right) && good'(t) && b'.tasks == b.tasks + [t]
    requires b'.running == b.running && b'.results == b.results && b'.pending == b.pending
    requires b'.ready == b.ready && b'.taken == b.taken
    requires forall u :: good(u) ==> good'(u)
    requires forall r :: right(r) ==> right'(r)
    ensures b'.Meant(good', right')
  {
  }

  /** The stream part of the pool. */
  datatype Stream = Stream(d: Design, overlap: bool, emitIq: bool, limit: nat, bins: seq<nat>,
                           inputIndex: nat, expectedSubmit: nat, submitted: nat,
                           packets: seq<Packet>, tail: seq<C>, controller: PfbState) {
    /** Clock, history and log agree: the next packet meets the state that one
        filter bank would have after everything accepted so far. */
    ghost predicate Ok() {
      && d.Valid() && controller.d == d
      && GoodBins(d.g, bins) && (emitIq ==> Distinct(bins))
      && inputIndex == |Input(packets)| < CLOCK
      && expectedSubmit == submitted == |packets|
      && (forall i :: 0 <= i < |packets| ==> GoodPacket(d.g, limit, packets[i]))
      && HistoryOk(Input(packets))
    }

    ghost predicate HistoryOk(x: seq<C>) {
      if overlap then controller.After([]) && |tail| == d.g.Len() && IsTail(tail, x)
      else controller.After(x)
    }
  }

  lemma EmptyStream(s: Stream)
    requires s.d.Valid() && s.controller.d == s.d && s.controller.After([])
    requires GoodBins(s.d.g, s.bins) && (s.emitIq ==> Distinct(s.bins))
    requires s.inputIndex == s.expectedSubmit == s.submitted == 0 && s.packets == []
    requires |s.tail| == (if s.overlap then s.d.g.Len() else 0)
    requires forall q :: 0 <= q < |s.tail| ==> s.tail[q] == Zero
    ensures s.Ok()
  {
    hide PfbState.After, Design.Valid;
  }

  lemma SelectedPacket(s: Stream, p: Packet)
    requires s.Ok() && p.bins == s.bins && 0 < |p.iq| <= s.limit
    ensures GoodPacket(s.d.g, s.limit, p)
  {
  }

  lemma StreamAdvanced(s: Stream, mid: Stream, s': Stream, p: Packet)
    requires s.Ok() && GoodPacket(s.d.g, s.limit, p) && |Input(s.packets)| + |p.iq| < CLOCK
    requires mid == s.(tail := mid.tail, controller := mid.controller)
    requires mid.controller.d == s.d && mid.HistoryOk(Input(s.packets) + p.iq)
    requires s' == mid.(inputIndex := s.inputIndex + |p.iq|, expectedSubmit := s.expectedSubmit + 1,
                        submitted := s.submitted + 1, packets := s.packets + [p])
    ensures s'.Ok()
  {
    InputStep(s.packets, p);
  }

  class PfbBenchPool {
    const d: Design
    const controller: Pfb
    const overlapHistory: bool
    const emitIq: bool
    const tail: array<C>
    const maxPacketSamples: nat
    var bins: seq<nat>
    var inputIndex: nat
    var inFlight: nat
    var expectedSubmit: nat
    var expectedOutput: nat
    var pending: map<nat, WorkerResult>
    var ready: seq<WorkerResult>
    var submitted: nat
    var completed: nat
    var stopped: bool
    // the channels and the tasks inside workers
    var tasks: seq<Task>
    var running: seq<Task>
    var results: seq<WorkerResult>
    // history of the run
    ghost var accepted: seq<Packet>
    ghost var taken: nat

    ghost function Ledger(): Book
      reads this
    {
      Book(expectedSubmit, expectedOutput, inFlight, pending, ready, tasks, running, results, taken)
    }

    ghost function View(): Stream
      reads this`bins, this`inputIndex, this`expectedSubmit, this`submitted, this`accepted
      reads tail, controller, controller.history, controller.historyPos
    {
      Stream(d, overlapHistory, emitIq, maxPacketSamples, bins, inputIndex, expectedSubmit, submitted,
             accepted, tail[..], controller.State())
    }

    ghost predicate Wired() {
      && controller.d == d && controller.fftBuffer.Length == d.g.m
      && controller.fftBuffer != controller.history
      && controller.history != tail && controller.fftBuffer != tail
    }

    ghost predicate StreamState()
      reads this`bins, this`inputIndex, this`expectedSubmit, this`submitted, this`accepted
      reads tail, controller, controller.history, controller.historyPos
    {
      Wired() && View().Ok()
    }

    ghost predicate Valid()
      reads this, tail, controller, controller.history, controller.historyPos
    {
      && StreamState()
      && completed == expectedOutput
      && Ledger().Ok(GoodTask(d, accepted), RightResult(d, emitIq, accepted))
    }

    /** In every reachable state: at most three packets are outstanding and at most five
        are not taken, each outstanding one is in flight or pending, neither channel can
        be full, so no send blocks, and a packet that is missing from the output is
        still being worked on, so no receive waits forever. */
    lemma QueuesStayBounded()
      requires Valid()
      ensures inFlight + |pending| == expectedSubmit - expectedOutput <= 3
      ensures |ready| + (expectedSubmit - expectedOutput) <= 5
      ensures |tasks| + |running| + |results| == inFlight < MAX_IN_FLIGHT && |running| <= WORKERS
      ensures expectedOutput < expectedSubmit ==> inFlight > 0
    {
      var good, right := GoodTask(d, accepted), RightResult(d, emitIq, accepted);
      BookBounds(Ledger(), good, right);
      if expectedOutput < expectedSubmit { SomethingInFlight(Ledger(), good, right); }
    }

    /** new_with_output: rejects unusable selections, packet bounds and kernels. */
    constructor (d: Design, packetSamples: nat, bins: seq<nat>, strategy: nat, emitIq: bool)
      requires d.Valid() && strategy <= 1 && 0 < packetSamples <= 65536
      requires GoodBins(d.g, bins) && (emitIq ==> Distinct(bins))
      ensures Valid() && accepted == [] && taken == 0 && !stopped
      ensures this.d == d && this.bins == bins && this.emitIq == emitIq
      ensures maxPacketSamples == packetSamples && overlapHistory == (strategy == 1)
      ensures fresh(tail) && fresh(controller) && fresh(controller.history)
      ensures fresh(controller.historyPos) && fresh(controller.fftBuffer)
    {
      this.d := d;
      this.bins := bins;
      this.emitIq := emitIq;
      maxPacketSamples := packetSamples;
      overlapHistory := strategy == 1;
      controller := new Pfb(d);
      tail := new C[if strategy == 1 then d.g.Len() else 0](_ => Zero);
      inputIndex, inFlight, expectedSubmit, expectedOutput, submitted, completed := 0, 0, 0, 0, 0, 0;
      pending, ready, stopped := map[], [], false;
      tasks, running, results := [], [], [];
      accepted, taken := [], 0;
      new;
      hide PfbState.After, Book.Ok, Stream.Ok, TaskFor, ResultFor;
      EmptyBook(Ledger(), GoodTask(d, accepted), RightResult(d, emitIq, accepted));
      EmptyStream(View());
    }

    /** A worker's processing of one task, on its own copy of the filter bank. */
    method RunTask(t: Task) returns (r: WorkerResult)
      requires d.Valid() && TaskFor(d, accepted, t)
      requires GoodPacket(d.g, maxPacketSamples, accepted[t.seqno])
      ensures ResultFor(d, emitIq, accepted, r) && r.seqno == t.seqno
    {
      ghost var x := Input(accepted[..t.seqno]);
      var state := new Pfb.Clone(t.state, x);
      OutputRoom(d.g, |x|, |t.iq|, maxPacketSamples, |t.bins|);
      var output := new C[|t.bins| * (maxPacketSamples / d.g.hop + 2)](_ => Zero);
      var groups := state.Process(t.iq, t.bins, output, x);
      MulMono(0, groups, |t.bins|);
      if groups > 0 { MulMono(1, groups, |t.bins|); }
      r := WorkerResult(t.seqno, t.stamp, t.inputIndex, groups,
                        if groups > 0 then output[0].re else 0.0, |t.iq|,
                        if emitIq then output[..groups * |t.bins|] else []);
      assert groups > 0 ==> output[..groups * |t.bins|][0] == output[0];
    }

    /** A worker takes the oldest queued task. */
    method WorkerTake()
      requires Valid() && |tasks| > 0 && |running| < WORKERS
      modifies this`tasks, this`running
      ensures Valid() && tasks == old(tasks)[1..] && |running| == |old(running)| + 1
    {
      hide TaskFor, ResultFor, Book.Ok, Stream.Ok;
      ghost var b := Ledger();
      running, tasks := running + [tasks[0]], tasks[1..];
      TookTask(b, Ledger(), GoodTask(d, accepted), RightResult(d, emitIq, accepted));
    }

    /** The worker that runs task i finishes and sends its result. The result
        channel always has room for it. */
    method WorkerFinish(i: nat)
      requires Valid() && i < |running|
      modifies this`running, this`results
      ensures Valid() && |running| == |old(running)| - 1 && |results| == |old(results)| + 1
    {
      ghost var b := Ledger();
      var t := running[i];
      assert t in running;
      assert GoodTask(d, accepted)(t);
      var r := RunTask(t);
      assert |results| < MAX_IN_FLIGHT;
      running, results := running[..i] + running[i + 1..], results + [r];
      FinishedTask(b, Ledger(), i, r, GoodTask(d, accepted), RightResult(d, emitIq, accepted));
    }

    /** Any finite number of worker steps, in any order. */
    method Workers()
      requires Valid()
      modifies this`tasks, this`running, this`results
      ensures Valid()
    {
      var steps: nat := *;
      while steps > 0
        invariant Valid()
      {
        var i: nat := *;
        hide TaskFor, ResultFor, Book.Ok, Stream.Ok;
        if * {
          if |tasks| > 0 && |running| < WORKERS { WorkerTake(); }
        } else if i < |running| {
          WorkerFinish(i);
        }
        steps := steps - 1;
      }
    }

    /** Blocks until a result arrives. Whenever something is in flight some
        worker can move, so the wait ends. */
    method AwaitResult()
      requires Valid() && inFlight > 0
      modifies this`tasks, this`running, this`results
      ensures Valid() && |results| > 0
    {
      hide TaskFor, ResultFor, Book.Ok, Stream.Ok;
      Workers();
      BookBounds(Ledger(), GoodTask(d, accepted), RightResult(d, emitIq, accepted));
      while |results| == 0
        invariant Valid() && |tasks| + |running| + |results| == inFlight
        decreases 2 * |tasks| + |running|
      {
        if |running| > 0 {
          var i: nat :| i < |running|;
          WorkerFinish(i);
        } else {
          WorkerTake();
        }
      }
    }

    /** Receives one result and delivers every packet that is now in order. */
    method ReceiveOne()
      requires Valid() && inFlight > 0
      modifies this`tasks, this`running, this`results, this`inFlight
      modifies this`pending, this`ready, this`completed, this`expectedOutput
      ensures Valid() && inFlight == old(inFlight) - 1
      ensures |ready| + expectedSubmit - expectedOutput == |old(ready)| + expectedSubmit - old(expectedOutput)
      ensures |old(ready)| <= |ready| && ready[..|old(ready)|] == old(ready)
    {
      hide TaskFor, ResultFor, Book.Ok, Stream.Ok;
      AwaitResult();
      AcceptResult(GoodTask(d, accepted), RightResult(d, emitIq, accepted));
    }

    /** Moves the oldest received result into the reorder buffer and delivers. */
    method AcceptResult(ghost good: Task -> bool, ghost right: WorkerResult -> bool)
      requires Ledger().Ok(good, right) && completed == expectedOutput && |results| > 0
      modifies this`results, this`inFlight, this`pending, this`ready, this`completed, this`expectedOutput
      ensures Ledger().Ok(good, right) && completed == expectedOutput && inFlight == old(inFlight) - 1
      ensures |ready| + expectedSubmit - expectedOutput == |old(ready)| + expectedSubmit - old(expectedOutput)
      ensures |old(ready)| <= |ready| && ready[..|old(ready)|] == old(ready)
    {
      ghost var b := Ledger();
      var r := results[0];
      results := results[1..];
      inFlight := inFlight - 1;
      pending := pending[r.seqno := r];
      Received(b, Ledger(), good, right);
      DeliverReady(good, right);
    }

    /** The reorder loop: moves every packet that is now in order to `ready`. */
    method DeliverReady(ghost good: Task -> bool, ghost right: WorkerResult -> bool)
      requires Ledger().Delivering(good, right) && completed == expectedOutput
      modifies this`pending, this`ready, this`completed, this`expectedOutput
      ensures Ledger().Ok(good, right) && completed == expectedOutput
      ensures |ready| + expectedSubmit - expectedOutput == |old(ready)| + expectedSubmit - old(expectedOutput)
      ensures |old(ready)| <= |ready| && ready[..|old(ready)|] == old(ready)
    {
      hide Book.Delivering;
      while expectedOutput in pending
        invariant Ledger().Delivering(good, right) && completed == expectedOutput
        invariant |ready| + expectedSubmit - expectedOutput == |old(ready)| + expectedSubmit - old(expectedOutput)
        invariant |old(ready)| <= |ready| && ready[..|old(ready)|] == old(ready)
        decreases |pending|
      {
        DeliverOne(good, right);
      }
    }

    method DeliverOne(ghost good: Task -> bool, ghost right: WorkerResult -> bool)
      requires Ledger().Delivering(good, right) && completed == expectedOutput && expectedOutput in pending
      modifies this`pending, this`ready, this`completed, this`expectedOutput
      ensures Ledger().Delivering(good, right) && completed == expectedOutput == old(expectedOutput) + 1
      ensures |pending| == |old(pending)| - 1
      ensures |ready| == |old(ready)| + 1 && ready[..|old(ready)|] == old(ready)
    {
      ghost var b := Ledger();
      var item := pending[expectedOutput];
      pending := pending - {expectedOutput};
      completed := completed + 1;
      expectedOutput := expectedOutput + 1;
      ready := ready + [item];
      Delivered(b, Ledger(), good, right);
    }

    /** Keeps the last samples of the stream for the next history rebuild. */
    method ShiftTail(iq: seq<C>, ghost x: seq<C>)
      requires IsTail(tail[..], x)
      modifies tail
      ensures IsTail(tail[..], x + iq)
    {
      ghost var before := tail[..];
      ReplaceTail(iq);
      TailShifted(before, iq, tail[..], x);
    }

    method ReplaceTail(iq: seq<C>)
      modifies tail
      ensures tail[..] == Shifted(old(tail[..]), iq)
    {
      var n, len := |iq|, tail.Length;
      ghost var all := tail[..] + iq;
      if n >= len {
        forall i | 0 <= i < len { tail[i] := iq[n - len + i]; }
      } else {
        forall i | 0 <= i < len - n { tail[i] := tail[i + n]; }
        forall i | len - n <= i < len { tail[i] := iq[i - (len - n)]; }
      }
      assert forall i :: 0 <= i < len ==> tail[i] == all[n + i];
    }

    /** The state a new task starts from: a clone whose history is rebuilt from
        the tail, or a clone of a controller that follows the stream itself. */
    method StartState(iq: seq<C>) returns (state: PfbState)
      requires StreamState() && |Input(accepted)| + |iq| < CLOCK
      modifies tail, controller`phase, controller`inputSamples, controller`outputGroups
      modifies controller.history, controller.historyPos, controller.fftBuffer
      ensures state.d == d && state.After(Input(accepted))
      ensures controller.d == d && View().HistoryOk(Input(accepted) + iq)
    {
      ghost var x := Input(accepted);
      if overlapHistory {
        var clone := new Pfb.Clone(controller.State(), []);
        var ok := clone.LoadHistory(inputIndex, tail[..], x);
        if !ok { assert false; }
        state := clone.State();
        ShiftTail(iq, x);
      } else {
        state := controller.State();
        var none := new C[0];
        var groups := controller.Process(iq, [], none, x);
      }
    }

    /** Advances the history and makes the task of the next packet. */
    method NewTask(stamp: nat, iq: seq<C>) returns (t: Task)
      requires StreamState() && |Input(accepted)| + |iq| < CLOCK
      modifies tail, controller`phase, controller`inputSamples, controller`outputGroups
      modifies controller.history, controller.historyPos, controller.fftBuffer
      ensures t.seqno == expectedSubmit
      ensures TaskFor(d, accepted + [Packet(stamp, iq, bins)], t)
      ensures View().controller.d == d && View().HistoryOk(Input(accepted) + iq)
    {
      var state := StartState(iq);
      t := Task(expectedSubmit, stamp, inputIndex, state, bins, iq);
      assert (accepted + [Packet(stamp, iq, bins)])[..|accepted|] == accepted;
    }

    /** The accepting half of submit. */
    method Accept(stamp: nat, iq: seq<C>)
      requires Valid() && |Input(accepted)| + |iq| < CLOCK && 0 < |iq| <= maxPacketSamples
      requires expectedSubmit - expectedOutput <= 2 && |ready| <= 2
      modifies this`inputIndex, this`tasks, this`expectedSubmit, this`submitted, this`inFlight, this`accepted
      modifies tail, controller`phase, controller`inputSamples, controller`outputGroups
      modifies controller.history, controller.historyPos, controller.fftBuffer
      ensures Valid() && accepted == old(accepted) + [Packet(stamp, iq, bins)]
    {
      ghost var p := Packet(stamp, iq, bins);
      ghost var s := View();
      hide TaskFor, ResultFor, Book.Ok, Stream.Ok, Stream.HistoryOk, Input, GoodPacket;
      SelectedPacket(s, p);
      var t := NewTask(stamp, iq);
      ghost var mid := View();
      SendTask(t, p);
      AdvanceClock(iq, p, s, mid);
    }

    /** Sends the task of the packet p that is about to be logged. */
    method SendTask(t: Task, ghost p: Packet)
      requires Ledger().Ok(GoodTask(d, accepted), RightResult(d, emitIq, accepted))
      requires expectedSubmit - expectedOutput <= 2 && |ready| <= 2
      requires t.seqno == expectedSubmit && TaskFor(d, accepted + [p], t)
      modifies this`tasks, this`expectedSubmit, this`inFlight
      ensures Ledger().Ok(GoodTask(d, accepted + [p]), RightResult(d, emitIq, accepted + [p]))
      ensures expectedSubmit == old(expectedSubmit) + 1
    {
      assert |tasks| < MAX_IN_FLIGHT;
      hide TaskFor, ResultFor, Book.Ok;
      LogStable(d, emitIq, accepted, p);
      Enqueue(t, GoodTask(d, accepted), RightResult(d, emitIq, accepted),
              GoodTask(d, accepted + [p]), RightResult(d, emitIq, accepted + [p]));
    }

    /** Moves the input clock and the log past the accepted packet. */
    method AdvanceClock(iq: seq<C>, ghost p: Packet, ghost s: Stream, ghost mid: Stream)
      requires Wired() && View() == mid.(expectedSubmit := s.expectedSubmit + 1)
      requires s.Ok() && GoodPacket(s.d.g, s.limit, p) && |Input(s.packets)| + |p.iq| < CLOCK && p.iq == iq
      requires mid == s.(tail := mid.tail, controller := mid.controller)
      requires mid.controller.d == s.d && mid.HistoryOk(Input(s.packets) + p.iq)
      modifies this`inputIndex, this`submitted, this`accepted
      ensures StreamState() && accepted == old(accepted) + [p]
    {
      inputIndex := inputIndex + |iq|;
      submitted := submitted + 1;
      accepted := accepted + [p];
      StreamAdvanced(s, mid, View(), p);
    }

    /** Sends a task and counts it. */
    method Enqueue(t: Task, ghost good: Task -> bool, ghost right: WorkerResult -> bool,
                   ghost good': Task -> bool, ghost right': WorkerResult -> bool)
      requires Ledger().Ok(good, right) && expectedSubmit - expectedOutput <= 2 && |ready| <= 2
      requires t.seqno == expectedSubmit && good'(t)
      requires forall u :: good(u) ==> good'(u)
      requires forall r :: right(r) ==> right'(r)
      modifies this`tasks, this`expectedSubmit, this`inFlight
      ensures Ledger().Ok(good', right') && expectedSubmit == old(expectedSubmit) + 1
    {
      ghost var b := Ledger();
      tasks := tasks + [t];
      expectedSubmit := expectedSubmit + 1;
      inFlight := inFlight + 1;
      Submitted(b, Ledger(), t, good, right, good', right');
    }

    /** submit: -1 rejects the call, -2 asks the caller to drain ordered outputs
        and to retry the same packet. Both leave clock, history and sequence alone. */
    method Submit(seqno: nat, stamp: nat, iq: seq<C>) returns (code: int)
      requires Valid() && |Input(accepted)| + |iq| < CLOCK
      modifies this`inputIndex, this`tasks, this`running, this`results, this`expectedSubmit, this`expectedOutput
      modifies this`submitted, this`completed, this`inFlight, this`pending, this`ready, this`accepted
      modifies tail, controller`phase, controller`inputSamples, controller`outputGroups
      modifies controller.history, controller.historyPos, controller.fftBuffer
      ensures Valid()
      ensures code == -1 <==> old(stopped) || seqno != old(expectedSubmit) || |iq| == 0 || |iq| > maxPacketSamples
      ensures code == 0 || code == -1 || code == -2
      ensures code == 0 ==> accepted == old(accepted) + [Packet(stamp, iq, bins)] && expectedSubmit == seqno + 1
      ensures code != 0 ==> View() == old(View())
      ensures code == -1 ==> Ledger() == old(Ledger())
      ensures code == -2 ==> |ready| >= 3 && expectedSubmit - expectedOutput <= 2
      // with three ready outputs nothing is received either
      ensures code != -1 && |old(ready)| >= 3 ==> code == -2 && Ledger() == old(Ledger())
      ensures code != -1 && |old(ready)| < 3 && old(expectedSubmit - expectedOutput) <= 2 ==> code == 0
    {
      hide TaskFor, ResultFor, Book.Ok, Stream.Ok, Input;
      if stopped || seqno != expectedSubmit || |iq| == 0 || |iq| > maxPacketSamples { return -1; }
      if |ready| >= 3 {
        BookBounds(Ledger(), GoodTask(d, accepted), RightResult(d, emitIq, accepted));
        return -2;
      }
      StreamCounts(View());
      while submitted - completed >= 3
        invariant Valid() && View() == old(View()) && !stopped
        invariant |old(ready)| <= |ready|
        invariant old(expectedSubmit - expectedOutput) <= 2 ==> Ledger() == old(Ledger())
        decreases inFlight
      {
        StreamCounts(View());
        SomethingInFlight(Ledger(), GoodTask(d, accepted), RightResult(d, emitIq, accepted));
        ReceiveOne();
      }
      if |ready| >= 3 { return -2; }
      StreamCounts(View());
      Accept(stamp, iq);
      StreamCounts(View());
      BookBounds(Ledger(), GoodTask(d, accepted), RightResult(d, emitIq, accepted));
      if inFlight >= MAX_IN_FLIGHT { assert false; }
      code := 0;
    }

    /** The next ordered output is what one serial filter bank gives for the next
        accepted packet, whatever the workers did. */
    method Take() returns (item: Option<WorkerResult>)
      requires Valid()
      modifies this`ready, this`taken
      ensures Valid()
      ensures item.None? <==> old(ready) == []
      ensures item.None? ==> taken == old(taken)
      ensures item.Some? ==> taken == old(taken) + 1 && ready == old(ready)[1..]
      ensures item.Some? ==> d.g.m > 0 && d.g.hop > 0 && old(taken) < |accepted|
      ensures item.Some? ==> item.value == Serial(d, emitIq, accepted, old(taken))
      ensures item.Some? && emitIq ==> Filtered(d, accepted, old(taken), item.value)
    {
      if |ready| == 0 { return None; }
      ghost var b := Ledger();
      item := Some(ready[0]);
      ready := ready[1..];
      taken := taken + 1;
      hide TaskFor, Stream.Ok, Serial;
      assert RightResult(d, emitIq, accepted)(b.ready[0]);
      TakenOne(b, Ledger(), GoodTask(d, accepted), RightResult(d, emitIq, accepted));
      if emitIq {
        DesignFacts();
        SerialFilters(d, accepted, taken - 1);
      }
    }

    lemma DesignFacts()
      requires Valid()
      ensures d.g.m > 0 && d.g.hop > 0 && Root(d.w, d.g.m) && |d.h| == d.g.Len()
    {
    }

    /** Waits until every accepted packet is in the ordered queue. It cannot fail:
        no packet can be missing when nothing is in flight. */
    method FlushPending() returns (ok: bool)
      requires Valid()
      modifies this`tasks, this`running, this`results, this`inFlight
      modifies this`pending, this`ready, this`completed, this`expectedOutput
      ensures Valid() && ok && inFlight == 0 && pending == map[] && expectedOutput == expectedSubmit
      ensures |old(ready)| <= |ready| && ready[..|old(ready)|] == old(ready)
    {
      hide TaskFor, ResultFor, Book.Ok, Stream.Ok;
      while inFlight > 0
        invariant Valid()
        invariant |old(ready)| <= |ready| && ready[..|old(ready)|] == old(ready)
      {
        ReceiveOne();
      }
      NothingInFlight(Ledger(), GoodTask(d, accepted), RightResult(d, emitIq, accepted));
      ok := pending == map[];
    }

    /** Stops the pool after collecting everything that was accepted. */
    method Finish() returns (ok: bool)
      requires Valid()
      modifies this`tasks, this`running, this`results, this`inFlight
      modifies this`pending, this`ready, this`completed, this`expectedOutput, this`stopped
      ensures Valid() && ok && stopped
      ensures !old(stopped) ==> inFlight == 0 && expectedOutput == expectedSubmit
      ensures |old(ready)| <= |ready| && ready[..|old(ready)|] == old(ready)
    {
      if stopped { return true; }
      stopped := true;
      hide TaskFor, ResultFor, Book.Ok, Stream.Ok;
      ok := FlushPending();
      StreamCounts(View());
      ok := pending == map[] && submitted == completed;
    }

    /** Replaces the output columns at a fully drained control boundary. */
    method ReplaceBins(selection: seq<nat>) returns (ok: bool)
      requires Valid()
      modifies this`bins
      ensures Valid()
      ensures ok <==> GoodBins(d.g, selection) && Distinct(selection) && !stopped && ready == []
                      && expectedOutput == expectedSubmit
      ensures bins == if ok then selection else old(bins)
    {
      hide TaskFor, ResultFor, Book.Ok;
      if stopped || selection == [] || |selection| > d.g.m
         || (exists c :: 0 <= c < |selection| && selection[c] >= d.g.m)
         || (exists a, b :: 0 <= a < b < |selection| && selection[a] == selection[b]) {
        return false;
      }
      BookBounds(Ledger(), GoodTask(d, accepted), RightResult(d, emitIq, accepted));
      assert pending == map[] <==> |pending| == 0;
      if inFlight != 0 || pending != map[] || ready != [] || expectedSubmit != expectedOutput
         || submitted != completed {
        return false;
      }
      bins := selection;
      ok := true;
    }
  }

  /** new_with_output: no pool for an unusable selection, packet bound or machine. */
  method Open(g: Geometry, h: seq<real>, w: C, avx2: bool, packetSamples: nat, bins: seq<nat>,
              strategy: nat, emitIq: bool) returns (pool: Option<PfbBenchPool>)
    requires g.Valid() && |h| == g.Len() && Root(w, g.m)
    ensures pool.Some? <==> avx2 && strategy <= 1 && GoodBins(g, bins) && 0 < packetSamples <= 65536
                            && (emitIq ==> Distinct(bins))
    ensures pool.Some? ==>
              var p := pool.value;
              && fresh(p) && p.Valid() && p.accepted == [] && p.taken == 0 && !p.stopped
              && p.d.g == g && p.d.h == h && p.d.w == w && p.bins == bins && p.emitIq == emitIq
              && p.maxPacketSamples == packetSamples && p.overlapHistory == (strategy == 1)
              && (p.d.grouped <==> g.hop >= 8)
  {
    if !avx2 || strategy > 1 || bins == [] || |bins| > g.m || (exists c :: 0 <= c < |bins| && bins[c] >= g.m)
       || packetSamples == 0 || packetSamples > 65536
       || (emitIq && exists a, b :: 0 <= a < b < |bins| && bins[a] == bins[b]) {
      return None;
    }
    var d := NewDesign(g, h, w, 1, avx2);
    var p := new PfbBenchPool(d, packetSamples, bins, strategy, emitIq);
    pool := Some(p);
  }

  /** One filter bank that takes the packets one after the other gives exactly the
      reference results. */
  method SerialRun(d: Design, emitIq: bool, packets: seq<Packet>) returns (results: seq<WorkerResult>)
    requires d.Valid() && forall i :: 0 <= i < |packets| ==> GoodBins(d.g, packets[i].bins)
    ensures |results| == |packets|
    ensures forall i :: 0 <= i < |packets| ==> results[i] == Serial(d, emitIq, packets, i)
  {
    assert d.g.m > 0 && d.g.hop > 0;
    hide Serial, Input, Pfb.After, GoodBins, Design.Valid;
    var bank := new Pfb(d);
    results := [];
    NothingIn(packets);
    for i := 0 to |packets|
      invariant bank.d == d && bank.After(Input(packets[..i]))
      invariant fresh(bank) && fresh(bank.history) && fresh(bank.historyPos) && fresh(bank.fftBuffer)
      invariant |results| == i && SerialUpTo(d, emitIq, packets, results)
    {
      hide SerialUpTo;
      var r := SerialStep(bank, emitIq, packets[i], i, packets);
      SerialNext(d, emitIq, packets, results, r);
      results := results + [r];
      InputNext(packets, i);
    }
  }

  ghost predicate SerialUpTo(d: Design, emitIq: bool, packets: seq<Packet>, results: seq<WorkerResult>)
    requires d.g.m > 0 && d.g.hop > 0
  {
    |results| <= |packets| && forall j :: 0 <= j < |results| ==> results[j] == Serial(d, emitIq, packets, j)
  }

  lemma SerialNext(d: Design, emitIq: bool, packets: seq<Packet>, results: seq<WorkerResult>, r: WorkerResult)
    requires d.g.m > 0 && d.g.hop > 0 && SerialUpTo(d, emitIq, packets, results) && |results| < |packets|
    requires r == Serial(d, emitIq, packets, |results|)
    ensures SerialUpTo(d, emitIq, packets, results + [r])
  {
  }

  lemma NothingIn(packets: seq<Packet>)
    ensures Input(packets[..0]) == []
  {
  }

  lemma InputNext(packets: seq<Packet>, i: nat)
    requires i < |packets|
    ensures Input(packets[..i + 1]) == Input(packets[..i]) + packets[i].iq
  {
    assert packets[..i + 1][..i] == packets[..i];
  }

  method SerialStep(bank: Pfb, emitIq: bool, p: Packet, i: nat, ghost packets: seq<Packet>) returns (r: WorkerResult)
    requires i < |packets| && p == packets[i] && GoodBins(bank.d.g, p.bins)
    requires bank.After(Input(packets[..i]))
    modifies bank, bank.history, bank.historyPos, bank.fftBuffer
    ensures bank.After(Input(packets[..i]) + p.iq)
    ensures bank.d.g.m > 0 && bank.d.g.hop > 0 && r == Serial(bank.d, emitIq, packets, i)
  {
    hide Bank, PfbState.Shape, Design.Valid, RowLayout, BranchLayout;
    ghost var x := Input(packets[..i]);
    var before := bank.inputSamples;
    var g := bank.d.g;
    assert g.m > 0 && g.hop > 0 && before == |x| by { BankFacts(bank.State(), x); }
    GroupCountBound(g, before, |p.iq|);
    var room := GroupCount(g, before, |p.iq|);
    MulMono(0, room, |p.bins|);
    if room > 0 { MulMono(1, room, |p.bins|); }
    var output := new C[room * |p.bins|](_ => Zero);
    var groups := bank.Process(p.iq, p.bins, output, x);
    r := WorkerResult(i, p.stamp, before, groups, if groups > 0 then output[0].re else 0.0, |p.iq|,
                      if emitIq then output[..groups * |p.bins|] else []);
    assert groups > 0 ==> output[..groups * |p.bins|][0] == output[0];
  }

  lemma BankFacts(s: PfbState, x: seq<C>)
    requires s.After(x)
    ensures s.d.g.m > 0 && s.d.g.hop > 0 && s.inputSamples == |x|
  {
  }

  /** The outputs of consecutive packets, end to end. */
  ghost function Collected(d: Design, packets: seq<Packet>): seq<C>
    requires d.g.m > 0 && d.g.hop > 0
  {
    if packets == [] then []
    else Collected(d, packets[..|packets| - 1]) + Serial(d, true, packets, |packets| - 1).iq
  }

  /** How the input is cut into packets does not show in the output. */
  lemma {:induction false} PacketsDoNotShow(d: Design, packets: seq<Packet>, bins: seq<nat>)
    requires d.g.m > 0 && d.g.hop > 0
    requires forall i :: 0 <= i < |packets| ==> packets[i].bins == bins
    ensures |Input(packets)| / d.g.hop >= 0
    ensures Collected(d, packets) == Bank(d.g, d.h, d.w, Input(packets), 0, |Input(packets)| / d.g.hop, bins)
  {
    DivGe(|Input(packets)|, d.g.hop, 0);
    if packets == [] {
      DivModUnique(0, d.g.hop, 0, 0);
    } else {
      var last := |packets| - 1;
      var x := Input(packets[..last]);
      PacketsDoNotShow(d, packets[..last], bins);
      GroupCountBound(d.g, |x|, |packets[last].iq|);
      BankAppend(d, x, packets[last].iq, bins);
    }
  }

  lemma BankAppend(d: Design, x: seq<C>, v: seq<C>, bins: seq<nat>)
    requires d.g.m > 0 && d.g.hop > 0 && |x| / d.g.hop >= 0 && GroupCount(d.g, |x|, |v|) >= 0
    ensures |x + v| / d.g.hop == |x| / d.g.hop + GroupCount(d.g, |x|, |v|)
    ensures Bank(d.g, d.h, d.w, x + v, 0, |x + v| / d.g.hop, bins)
            == Bank(d.g, d.h, d.w, x, 0, |x| / d.g.hop, bins)
               + Bank(d.g, d.h, d.w, x + v, |x| / d.g.hop, GroupCount(d.g, |x|, |v|), bins)
  {
    assert |x| == (|x| / d.g.hop) * d.g.hop + |x| % d.g.hop;
    BankSplit(d, x, v, |x| / d.g.hop, GroupCount(d.g, |x|, |v|), bins);
  }

  /** The first n groups need no more than x; the rest follow behind them. */
  lemma BankSplit(d: Design, x: seq<C>, v: seq<C>, n: nat, k: nat, bins: seq<nat>)
    requires d.g.m > 0 && d.g.hop > 0 && n * d.g.hop <= |x|
    ensures Bank(d.g, d.h, d.w, x + v, 0, n + k, bins)
            == Bank(d.g, d.h, d.w, x, 0, n, bins) + Bank(d.g, d.h, d.w, x + v, n, k, bins)
  {
    hide Bank, BankValue;
    BankCells(d, x + v, 0, n + k, bins);
    BankCells(d, x, 0, n, bins);
    BankCells(d, x + v, n, k, bins);
    SplitRows(n, k, |bins|);
    if |bins| > 0 {
      EarlyCells(d, x, v, n, bins);
      LateCells(d, x + v, n, k, bins);
    }
    Joined(Bank(d.g, d.h, d.w, x + v, 0, n + k, bins), Bank(d.g, d.h, d.w, x, 0, n, bins),
           Bank(d.g, d.h, d.w, x + v, n, k, bins));
  }

  lemma EarlyCells(d: Design, x: seq<C>, v: seq<C>, n: nat, bins: seq<nat>)
    requires d.g.m > 0 && d.g.hop > 0 && |bins| > 0 && n * d.g.hop <= |x|
    ensures forall i :: 0 <= i < n * |bins| ==> BankValue(d, x + v, 0, bins, i) == BankValue(d, x, 0, bins, i)
  {
    forall i | 0 <= i < n * |bins|
      ensures BankValue(d, x + v, 0, bins, i) == BankValue(d, x, 0, bins, i)
    {
      EarlyCell(d, x, v, n, bins, i);
    }
  }

  lemma LateCells(d: Design, x: seq<C>, n: nat, k: nat, bins: seq<nat>)
    requires d.g.m > 0 && |bins| > 0
    ensures forall j :: 0 <= j < k * |bins| ==> BankValue(d, x, 0, bins, j + n * |bins|) == BankValue(d, x, n, bins, j)
  {
    hide BankValue;
    forall j | 0 <= j < k * |bins|
      ensures BankValue(d, x, 0, bins, j + n * |bins|) == BankValue(d, x, n, bins, j)
    {
      DivModShift(j, n, |bins|);
      LateCell(d, x, n, bins, j, j + n * |bins|);
    }
  }

  lemma SplitRows(n: nat, k: nat, b: nat)
    ensures 0 <= n * b && 0 <= k * b && (n + k) * b == n * b + k * b
    ensures b == 0 ==> n * b == 0 && k * b == 0
  {
    MulMono(0, n, b);
    MulMono(0, k, b);
  }

  lemma Joined(whole: seq<C>, early: seq<C>, late: seq<C>)
    requires |whole| == |early| + |late|
    requires forall i :: 0 <= i < |early| ==> whole[i] == early[i]
    requires forall j :: 0 <= j < |late| ==> whole[j + |early|] == late[j]
    ensures whole == early + late
  {
    forall i | |early| <= i < |whole|
      ensures whole[i] == late[i - |early|]
    {
      assert whole[(i - |early|) + |early|] == late[i - |early|];
    }
  }

  lemma BankCells(d: Design, x: seq<C>, first: nat, groups: nat, bins: seq<nat>)
    requires d.g.m > 0
    ensures |Bank(d.g, d.h, d.w, x, first, groups, bins)| == groups * |bins|
    ensures |bins| > 0 ==> forall i :: 0 <= i < groups * |bins| ==>
              Bank(d.g, d.h, d.w, x, first, groups, bins)[i] == BankValue(d, x, first, bins, i)
  {
    hide Mixer;
  }

  lemma EarlyCell(d: Design, x: seq<C>, v: seq<C>, n: nat, bins: seq<nat>, i: nat)
    requires d.g.m > 0 && d.g.hop > 0 && |bins| > 0 && n * d.g.hop <= |x| && i < n * |bins|
    ensures BankValue(d, x + v, 0, bins, i) == BankValue(d, x, 0, bins, i)
  {
    EarlyGroup(d.g, |x|, n, |bins|, i);
    MixerStable(d.g, d.h, d.w, x, v, bins[i % |bins|], GroupInstant(d.g, i / |bins|));
    hide Mixer, GroupInstant;
  }

  lemma LateCell(d: Design, x: seq<C>, n: nat, bins: seq<nat>, j: nat, i: nat)
    requires d.g.m > 0 && |bins| > 0
    requires i % |bins| == j % |bins| && i / |bins| == j / |bins| + n
    ensures BankValue(d, x, 0, bins, i) == BankValue(d, x, n, bins, j)
  {
    hide Mixer, GroupInstant;
  }

  /** An output cell of the first packets belongs to a group that is already due. */
  lemma EarlyGroup(g: Geometry, samples: nat, n: nat, bins: nat, i: nat)
    requires g.hop > 0 && bins > 0 && n * g.hop <= samples && i < n * bins
    ensures GroupInstant(g, i / bins) < samples
  {
    DivGe(i, bins, n);
    MulMono(i / bins + 1, n, g.hop);
  }

  lemma BookBounds(b: Book, good: Task -> bool, right: WorkerResult -> bool)
    requires b.Ok(good, right)
    ensures b.inFlight + |b.pending| == b.expectedSubmit - b.expectedOutput <= 3
    ensures |b.ready| + (b.expectedSubmit - b.expectedOutput) <= 5
    ensures b.inFlight == |b.tasks| + |b.running| + |b.results| < MAX_IN_FLIGHT && |b.running| <= WORKERS
  {
  }

  lemma StreamCounts(s: Stream)
    requires s.Ok()
    ensures s.submitted == s.expectedSubmit == |s.packets|
  {
  }

  lemma TakenOne(b: Book, b': Book, good: Task -> bool, right: WorkerResult -> bool)
    requires b.Ok(good, right) && |b.ready| > 0
    requires b' == b.(ready := b.ready[1..], taken := b.taken + 1)
    ensures b.ready[0].seqno == b.taken && b'.Ok(good, right)
  {
    assert b'.Flight() == b.Flight();
    forall i | 0 <= i < |b'.ready|
      ensures b'.ready[i].seqno == b'.taken + i && right(b'.ready[i])
    {
      assert b'.ready[i] == b.ready[i + 1];
    }
  }

  lemma LogStable(d: Design, emitIq: bool, packets: seq<Packet>, p: Packet)
    ensures forall t :: GoodTask(d, packets)(t) ==> GoodTask(d, packets + [p])(t)
    ensures forall r :: RightResult(d, emitIq, packets)(r) ==> RightResult(d, emitIq, packets + [p])(r)
  {
    forall t | GoodTask(d, packets)(t)
      ensures GoodTask(d, packets + [p])(t)
    {
      assert TaskFor(d, packets, t);
      assert (packets + [p])[..t.seqno] == packets[..t.seqno];
    }
    forall r | RightResult(d, emitIq, packets)(r)
      ensures RightResult(d, emitIq, packets + [p])(r)
    {
      assert ResultFor(d, emitIq, packets, r);
      SerialStable(d, emitIq, packets, p, r.seqno);
    }
  }

  ghost function GoodTask(d: Design, packets: seq<Packet>): Task -> bool {
    t => TaskFor(d, packets, t)
  }

  ghost function RightResult(d: Design, emitIq: bool, packets: seq<Packet>): WorkerResult -> bool {
    r => ResultFor(d, emitIq, packets, r)
  }

  /** The per-worker output buffer holds every packet's groups. */
  lemma OutputRoom(g: Geometry, before: nat, n: nat, limit: nat, bins: nat)
    requires g.hop > 0 && n <= limit
    ensures 0 <= GroupCount(g, before, n) * bins <= bins * (limit / g.hop + 2)
  {
    GroupCountBound(g, before, n);
    DivMono(n, limit, g.hop);
    DivGe(limit, g.hop, 0);
    MulMono(GroupCount(g, before, n), limit / g.hop + 2, bins);
    MulMono(0, GroupCount(g, before, n), bins);
  }

  /** A sequence that leaves the channels was not in the reorder buffer yet. */
  lemma PartitionReceive(flight: multiset<nat>, flight': multiset<nat>, pending: set<nat>, s: nat, lo: nat, hi: nat)
    requires Partition(flight, pending, lo, hi) && flight == flight' + multiset{s}
    ensures s !in pending && Partition(flight', pending + {s}, lo, hi)
  {
    assert flight[s] + (if s in pending then 1 else 0) <= 1;
    forall k: nat
      ensures flight'[k] + (if k in pending + {s} then 1 else 0) == if lo <= k < hi then 1 else 0
    {
      assert flight[k] + (if k in pending then 1 else 0) == if lo <= k < hi then 1 else 0;
    }
  }

  /** Delivering the lowest sequence from the reorder buffer keeps the partition. */
  lemma PartitionSubmit(flight: multiset<nat>, flight': multiset<nat>, pending: set<nat>, lo: nat, hi: nat)
    requires Partition(flight, pending, lo, hi) && flight' == flight + multiset{hi} && lo <= hi
    ensures Partition(flight', pending, lo, hi + 1) && hi !in pending
  {
    assert flight[hi] + (if hi in pending then 1 else 0) == 0;
  }

  lemma PartitionAdvance(flight: multiset<nat>, pending: set<nat>, lo: nat, hi: nat)
    requires Partition(flight, pending, lo, hi) && lo in pending
    ensures lo < hi && Partition(flight, pending - {lo}, lo + 1, hi)
  {
    assert flight[lo] + 1 == if lo < hi then 1 else 0;
    forall k: nat
      ensures flight[k] + (if k in pending - {lo} then 1 else 0) == if lo + 1 <= k < hi then 1 else 0
    {
      assert flight[k] + (if k in pending then 1 else 0) == if lo <= k < hi then 1 else 0;
    }
  }

  /** The array holds the last samples of the zero-padded stream. */
  ghost predicate IsTail(a: seq<C>, x: seq<C>) {
    forall q :: 0 <= q < |a| ==> a[q] == At(x, |x| - |a| + q)
  }

  /** The last |a| elements of a + v. */
  function Shifted(a: seq<C>, v: seq<C>): (r: seq<C>)
    ensures |r| == |a|
  {
    seq(|a|, i requires 0 <= i < |a| => if i + |v| < |a| then a[i + |v|] else v[i + |v| - |a|])
  }

  lemma TailShifted(before: seq<C>, iq: seq<C>, after: seq<C>, x: seq<C>)
    requires IsTail(before, x) && after == Shifted(before, iq)
    ensures IsTail(after, x + iq)
  {
    var y := x + iq;
    forall q | 0 <= q < |after|
      ensures after[q] == At(y, |y| - |after| + q)
    {
      if q + |iq| < |before| {
        assert before[q + |iq|] == At(x, |x| - |before| + (q + |iq|));
      }
    }
  }

  /** In-flight and pending sequences partition [lo, hi), each one exactly once. */
  ghost predicate Partition(flight: multiset<nat>, pending: set<nat>, lo: nat, hi: nat) {
    forall k :: flight[k] + (if k in pending then 1 else 0) == if lo <= k < hi then 1 else 0
  }
}
