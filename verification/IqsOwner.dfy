/** The capture owner: one thread that fetches packets, tags them, holds them
    while the queue is full and serves control requests in between, and the
    consumer that takes them from the bounded queue.

    Every method of HardwareCapture is one atomic step of the owner, the consumer
    or a control caller; vendor results and elapsed deadlines are chosen freely. */
module IqsOwner {
  import opened Arith
  import opened Channelizer

  const N: nat := 16240
  const PACKET_QUEUE: nat := 64
  const EVENT_CAPACITY: nat := 256
  const QUEUE_FULL_CAPACITY: nat := 64
  const SPECTRUM_INTERVAL: nat := 3125000
  const STREAK_LIMIT: nat := 60

  ghost function Min(a: nat, b: nat): nat { if a < b then a else b }

  // -------------------------------------------------------- event history

  /** A recorded event: the ordinal of the packet it belongs to, and its own number. */
  datatype Event = Event(kind: string, packetSeq: nat, eventSeq: nat)

  /** First failed enqueue of one held packet: its zero-based ordinal, its stamp
      and the samples enqueued before it. */
  datatype Attribution = Attribution(ordinal: nat, stamp: nat, inputIndex: nat)

  datatype CaptureEvents = CaptureEvents(total: nat, overwritten: nat, events: seq<Event>,
                                         lastRecovery: Option<Event>, queueFull: seq<Attribution>,
                                         queueFullTotal: nat, queueFullOverwritten: nat)

  ghost predicate IsRecovery(kind: string) { "recovery_" <= kind }

  ghost function LastRecovery(log: seq<Event>): Option<Event> {
    if log == [] then None
    else if IsRecovery(log[|log| - 1].kind) then Some(log[|log| - 1])
    else LastRecovery(log[..|log| - 1])
  }

  /** The last n elements. */
  ghost function Tail<T>(s: seq<T>, n: nat): seq<T> { s[|s| - Min(|s|, n)..] }

  /** A ring of capacity c that holds the newest records of a log. */
  ghost predicate RingOf<T>(ring: seq<T>, c: nat, log: seq<T>) {
    && |ring| == c && c > 0
    && forall k :: |log| - Min(|log|, c) <= k < |log| ==> ring[k % c] == log[k]
  }

  lemma RingRecord<T>(ring: seq<T>, c: nat, log: seq<T>, v: T)
    requires RingOf(ring, c, log)
    ensures |log| % c < c
    ensures RingOf(ring[|log| % c := v], c, log + [v])
  {
    var ring', log' := ring[|log| % c := v], log + [v];
    forall k | |log'| - Min(|log'|, c) <= k < |log'|
      ensures ring'[k % c] == log'[k]
    {
      if k < |log| && k % c == |log| % c { SameSlot(k, |log|, c); }
    }
  }

  /** Two records closer than the capacity are in different slots. */
  lemma SameSlot(a: int, b: int, c: nat)
    requires c > 0 && a % c == b % c && a - b < c && b - a < c
    ensures a == b
  {
    assert a == (a / c) * c + a % c && b == (b / c) * c + b % c;
    assert (a / c - b / c) * c == (a / c) * c - (b / c) * c;
    SmallMultiple(a / c - b / c, c);
  }

  class EventHistory {
    const entries: array<Event>
    var total: nat
    var lastRecovery: Option<Event>
    const queueFull: array<Attribution>
    var queueFullTotal: nat
    ghost var log: seq<Event>
    ghost var fullLog: seq<Attribution>

    ghost predicate Valid()
      reads this, entries, queueFull
    {
      && RingOf(entries[..], EVENT_CAPACITY, log) && total == |log|
      && RingOf(queueFull[..], QUEUE_FULL_CAPACITY, fullLog) && queueFullTotal == |fullLog|
      && lastRecovery == LastRecovery(log)
      && forall i :: 0 <= i < |log| ==> log[i].eventSeq == i
    }

    constructor ()
      ensures Valid() && log == [] && fullLog == [] && fresh(entries) && fresh(queueFull)
    {
      entries := new Event[256](_ => Event("", 0, 0));
      queueFull := new Attribution[64](_ => Attribution(0, 0, 0));
      total, queueFullTotal, lastRecovery, log, fullLog := 0, 0, None, [], [];
    }

    method Record(packetSeq: nat, kind: string)
      requires Valid()
      modifies this`total, this`lastRecovery, this`log, entries
      ensures Valid() && log == old(log) + [Event(kind, packetSeq, |old(log)|)]
    {
      var event := Event(kind, packetSeq, total);
      ghost var before := entries[..];
      RingRecord(before, EVENT_CAPACITY, log, event);
      entries[total % 256] := event;
      assert entries[..] == before[|log| % EVENT_CAPACITY := event];
      assert (log + [event])[..|log|] == log;
      total := total + 1;
      if "recovery_" <= kind { lastRecovery := Some(event); }
      log := log + [event];
    }

    method RecordQueueFull(a: Attribution)
      requires Valid()
      modifies this`queueFullTotal, this`fullLog, queueFull
      ensures Valid() && fullLog == old(fullLog) + [a]
    {
      ghost var before := queueFull[..];
      RingRecord(before, QUEUE_FULL_CAPACITY, fullLog, a);
      queueFull[queueFullTotal % 64] := a;
      assert queueFull[..] == before[|fullLog| % QUEUE_FULL_CAPACITY := a];
      queueFullTotal := queueFullTotal + 1;
      fullLog := fullLog + [a];
    }

    /** Exactly the newest records, in order, and how many are gone. */
    method Snapshot() returns (s: CaptureEvents)
      requires Valid()
      ensures s.total == |log| && s.overwritten == |log| - Min(|log|, EVENT_CAPACITY)
      ensures s.events == Tail(log, EVENT_CAPACITY)
      ensures s.lastRecovery == LastRecovery(log)
      ensures s.queueFull == Tail(fullLog, QUEUE_FULL_CAPACITY) && s.queueFullTotal == |fullLog|
      ensures s.queueFullOverwritten == |fullLog| - Min(|fullLog|, QUEUE_FULL_CAPACITY)
    {
      hide RingOf, LastRecovery;
      var events := Retained(entries, 256, total, log);
      var full := Retained(queueFull, 64, queueFullTotal, fullLog);
      s := CaptureEvents(total, if total > 256 then total - 256 else 0, events, lastRecovery, full, queueFullTotal,
                         if queueFullTotal > 64 then queueFullTotal - 64 else 0);
    }
  }

  /** Reads the newest records of a ring back, oldest first. */
  method Retained<T>(ring: array<T>, c: nat, total: nat, ghost log: seq<T>) returns (r: seq<T>)
    requires RingOf(ring[..], c, log) && total == |log|
    ensures r == Tail(log, c)
  {
    assert c > 0 && ring.Length == c;
    hide RingOf;
    r := [];
    var first := if total > c then total - c else 0;
    for k := first to total
      invariant r == log[first..k]
    {
      RingAt(ring[..], c, log, k);
      r := r + [ring[k % c]];
    }
  }

  lemma RingAt<T>(ring: seq<T>, c: nat, log: seq<T>, k: nat)
    requires RingOf(ring, c, log) && |log| - Min(|log|, c) <= k < |log|
    ensures 0 <= k % c < |ring| && ring[k % c] == log[k]
  {
  }

  // --------------------------------------------------- spectrum schedule

  /** Frames among the first n packets of `step` ticks each. */
  ghost function Frames(n: nat, step: nat): int {
    if n == 0 then 0 else if step > SPECTRUM_INTERVAL then n else (n - 1) * step / SPECTRUM_INTERVAL + 1
  }

  /** Intervals that have begun when the n-th packet of `step` ticks begins. */
  ghost function Started(n: nat, step: nat): int {
    if n == 0 then 0 else (n - 1) * step / SPECTRUM_INTERVAL + 1
  }

  /** A packet carries at most one frame, so frames follow the intervals until
      packets become longer than an interval. */
  lemma FramesLaw(n: nat, step: nat)
    requires step > 0
    ensures Frames(n, step) == if n < Started(n, step) then n else Started(n, step)
  {
    if n > 0 {
      DivGe((n - 1) * step, SPECTRUM_INTERVAL, n - 1);
      DivGe((n - 1) * step, SPECTRUM_INTERVAL, n);
      if step > SPECTRUM_INTERVAL {
        MulMono(SPECTRUM_INTERVAL, step, n - 1);
      } else {
        MulMono(step, SPECTRUM_INTERVAL, n - 1);
      }
    }
  }

  /** Decimation leaves the frame rate alone exactly while a packet is no longer
      than an interval. */
  lemma FramesAreIntervals(decimate: nat)
    requires decimate > 0
    ensures (forall n: nat :: Frames(n, N * decimate) == Started(n, N * decimate))
            <==> N * decimate <= SPECTRUM_INTERVAL
  {
    var step := N * decimate;
    if step > SPECTRUM_INTERVAL {
      var n: nat := SPECTRUM_INTERVAL + 1;
      DivModUnique((n - 1) * step, SPECTRUM_INTERVAL, step, 0);
      assert Frames(n, step) != Started(n, step);
    }
  }

  /** At device decimation 256 a packet is longer than an interval. */
  lemma SlowPacketsMissIntervals()
    ensures Frames(5, N * 256) == 5 && Started(5, N * 256) == 6
  {
    assert 4 * (N * 256) == 16629760;
    DivModUnique(16629760, SPECTRUM_INTERVAL, 5, 1004760);
  }

  class SpectrumSchedule {
    var ticks: nat
    var next: nat
    ghost var packets: nat
    ghost var frames: nat

    /** After `packets` packets of one decimation the schedule has asked for one
        frame per started interval of device time, but at most one per packet. */
    ghost predicate Valid(step: nat)
      reads this
    {
      && step > 0 && ticks == packets * step && next == frames * SPECTRUM_INTERVAL
      && frames == Frames(packets, step)
    }

    constructor ()
      ensures ticks == 0 && next == 0 && packets == 0 && frames == 0
      ensures forall step :: step > 0 ==> Valid(step)
    {
      ticks, next, packets, frames := 0, 0, 0, 0;
    }

    ghost predicate Due()
      reads this
    {
      ticks >= next
    }

    method Received(decimate: nat)
      requires decimate > 0 && Valid(N * decimate)
      modifies this
      ensures Valid(N * decimate) && packets == old(packets) + 1
      ensures frames == old(frames) + (if old(Due()) then 1 else 0)
      ensures ticks > 0
    {
      FramesNext(packets, N * decimate);
      if ticks >= next {
        next := next + 3125000;
        frames := frames + 1;
      }
      ticks := ticks + 16240 * decimate;
      packets := packets + 1;
    }
  }

  /** A packet is due for a frame exactly when one more interval has begun. */
  lemma FramesNext(n: nat, step: nat)
    requires step > 0
    ensures (n + 1) * step == n * step + step && n * step >= 0 && Frames(n, step) >= 0
    ensures Frames(n + 1, step) == Frames(n, step) + if n * step >= Frames(n, step) * SPECTRUM_INTERVAL then 1 else 0
  {
    MulMono(0, n, step);
    if n > 0 {
      var before := (n - 1) * step;
      assert n * step == before + step;
      MulMono(0, n - 1, step);
      if step > SPECTRUM_INTERVAL {
        MulMono(SPECTRUM_INTERVAL, step, n);
      }
    }
  }

  // ------------------------------------------------------------- the owner

  datatype Packet = Packet(seqno: nat, stamp: nat, generation: nat, spectrum: bool)

  datatype OwnerPhase = Running | Holding(packet: Packet, full: bool) | Ended

  datatype ConsumerPhase = Idle | Checked | Received(item: Option<Packet>)

  datatype Fetched = Good(stamp: nat) | Transient(stalled: bool) | Fatal

  function Held(phase: OwnerPhase): seq<Packet> { if phase.Holding? then [phase.packet] else [] }

  function InHand(phase: ConsumerPhase): seq<Packet> {
    if phase.Received? && phase.item.Some? then [phase.item.value] else []
  }

  /** The capture by value. */
  datatype Capture = Capture(generation: nat, packetSeq: nat, enqueued: nat, streak: nat, queue: seq<Packet>,
                             error: bool, stop: bool, closed: bool, owner: OwnerPhase, consumer: ConsumerPhase,
                             freshSpectrum: bool, fetched: seq<Packet>, delivered: seq<Packet>,
                             full: seq<Attribution>) {
    ghost predicate Ok() {
      && Tagged(packetSeq, fetched, generation, freshSpectrum)
      && Ordered(fetched, delivered, InHand(consumer), queue, owner, error, closed, stop)
      && Attributed(fetched, owner, enqueued, full)
      && |queue| <= PACKET_QUEUE && (!owner.Ended? ==> streak < STREAK_LIMIT)
    }
  }

  /** Packets are numbered 1, 2, 3, ..., generations never go back, and the first
      packet of a generation carries a spectrum. */
  ghost predicate Tagged(packetSeq: nat, fetched: seq<Packet>, generation: nat, freshSpectrum: bool) {
    && packetSeq == |fetched|
    && (forall i :: 0 <= i < |fetched| ==> fetched[i].seqno == i + 1 && fetched[i].generation <= generation)
    && (forall i, j :: 0 <= i < j < |fetched| ==> fetched[i].generation <= fetched[j].generation)
    && (forall i, j :: 0 <= i < |fetched| && j == i - 1 && (i == 0 || fetched[j].generation < fetched[i].generation)
                       ==> fetched[i].spectrum)
    && (fetched == [] || fetched[|fetched| - 1].generation < generation ==> freshSpectrum)
  }

  /** What was delivered, is in the consumer's hand, waits in the queue and is held
      by the owner is everything fetched, in order. After an error or a close packets
      may be missing at the end, never in the middle. */
  ghost predicate Ordered(fetched: seq<Packet>, delivered: seq<Packet>, hand: seq<Packet>, queue: seq<Packet>,
                    owner: OwnerPhase, error: bool, closed: bool, stop: bool) {
    && delivered <= fetched
    && (!error && !closed ==> delivered + hand + queue + Held(owner) == fetched)
    && (owner.Ended? ==> error || closed || stop)
  }

  /** Every held packet that met a full queue has exactly one record, with the
      samples enqueued before it as its input index. */
  ghost predicate Attributed(fetched: seq<Packet>, owner: OwnerPhase, enqueued: nat, full: seq<Attribution>) {
    && |fetched| >= |Held(owner)|
    && (!owner.Ended? ==> enqueued == Min(N * (|fetched| - |Held(owner)|), CLOCK - 1))
    && (owner.Holding? ==> owner.packet == fetched[|fetched| - 1] && owner.packet.seqno == |fetched|)
    && (forall i :: 0 <= i < |full| ==>
          && full[i].ordinal < |fetched| && full[i].stamp == fetched[full[i].ordinal].stamp
          && full[i].inputIndex == Min(N * full[i].ordinal, CLOCK - 1))
    && (forall i, j :: 0 <= i < j < |full| ==> full[i].ordinal < full[j].ordinal)
    && (owner.Holding? ==> (owner.full <==> full != [] && full[|full| - 1].ordinal == |fetched| - 1))
  }

  /** Delivered packets have consecutive numbers and generations that never go back. */
  lemma DeliveredInOrder(c: Capture)
    requires c.Ok()
    ensures forall i :: 0 <= i < |c.delivered| ==> c.delivered[i].seqno == i + 1
    ensures forall i, j :: 0 <= i < j < |c.delivered| ==> c.delivered[i].generation <= c.delivered[j].generation
  {
    forall i | 0 <= i < |c.delivered|
      ensures c.delivered[i] == c.fetched[i]
    {
    }
  }

  // One lemma for each step of the capture.

  lemma Stopped(c: Capture)
    requires c.Ok() && c.owner == Running && c.stop
    ensures c.(owner := Ended).Ok()
  {
    hide Tagged;
  }

  lemma Failed(c: Capture)
    requires c.Ok()
    ensures c.(error := true, owner := Ended).Ok()
  {
    hide Tagged;
  }

  lemma StreakFailed(c: Capture, streak: nat)
    requires c.Ok()
    ensures c.(error := true, owner := Ended, streak := streak).Ok()
  {
    hide Tagged;
  }

  lemma NewGeneration(c: Capture)
    requires c.Ok()
    ensures c.(generation := c.generation + 1, streak := 0, freshSpectrum := true).Ok()
  {
    TaggedLater(c.packetSeq, c.fetched, c.generation, c.freshSpectrum);
    hide Tagged, Ordered, Attributed;
  }

  lemma TaggedLater(packetSeq: nat, fetched: seq<Packet>, generation: nat, freshSpectrum: bool)
    requires Tagged(packetSeq, fetched, generation, freshSpectrum)
    ensures Tagged(packetSeq, fetched, generation + 1, true)
  {
  }

  lemma FetchedOne(c: Capture, p: Packet)
    requires c.Ok() && c.owner == Running
    requires p.seqno == c.packetSeq + 1 && p.generation == c.generation && (c.freshSpectrum ==> p.spectrum)
    ensures c.(packetSeq := c.packetSeq + 1, streak := 0, owner := Holding(p, false), freshSpectrum := false,
               fetched := c.fetched + [p]).Ok()
  {
    FetchedTagged(c.packetSeq, c.fetched, c.generation, c.freshSpectrum, p);
    FetchedAttributed(c.fetched, c.enqueued, c.full, p);
    assert c.packetSeq == |c.fetched|;
    hide Tagged, Attributed;
  }

  lemma FetchedTagged(packetSeq: nat, fetched: seq<Packet>, generation: nat, freshSpectrum: bool, p: Packet)
    requires Tagged(packetSeq, fetched, generation, freshSpectrum)
    requires p.seqno == packetSeq + 1 && p.generation == generation && (freshSpectrum ==> p.spectrum)
    ensures Tagged(packetSeq + 1, fetched + [p], generation, false)
  {
    var more := fetched + [p];
    assert forall i :: 0 <= i < |fetched| ==> more[i] == fetched[i];
    assert more[|fetched|] == p;
  }

  lemma FetchedAttributed(fetched: seq<Packet>, enqueued: nat, full: seq<Attribution>, p: Packet)
    requires Attributed(fetched, Running, enqueued, full) && p.seqno == |fetched| + 1
    ensures Attributed(fetched + [p], Holding(p, false), enqueued, full)
  {
  }

  lemma Skipped(c: Capture)
    requires c.Ok() && c.streak + 1 < STREAK_LIMIT
    ensures c.(streak := c.streak + 1).Ok()
  {
    hide Tagged, Ordered, Attributed;
  }

  lemma SentOne(c: Capture)
    requires c.Ok() && c.owner.Holding? && |c.queue| < PACKET_QUEUE
    ensures c.(queue := c.queue + [c.owner.packet], enqueued := Min(c.enqueued + N, CLOCK - 1), owner := Running).Ok()
  {
    hide Tagged;
    assert c.delivered + InHand(c.consumer) + (c.queue + [c.owner.packet]) + []
           == c.delivered + InHand(c.consumer) + c.queue + [c.owner.packet];
  }

  /** A first full queue for this packet comes after every earlier record. */
  lemma FirstFull(c: Capture)
    requires c.Ok() && c.owner.Holding? && !c.owner.full
    ensures 0 < c.owner.packet.seqno
    ensures var p := c.owner.packet;
            c.(owner := Holding(p, true), full := c.full + [Attribution(p.seqno - 1, p.stamp, c.enqueued)]).Ok()
  {
    hide Tagged;
    FullRecorded(c.fetched, c.owner.packet, c.enqueued, c.full);
  }

  lemma FullRecorded(fetched: seq<Packet>, p: Packet, enqueued: nat, full: seq<Attribution>)
    requires Attributed(fetched, Holding(p, false), enqueued, full)
    ensures 0 < p.seqno
    ensures Attributed(fetched, Holding(p, true), enqueued, full + [Attribution(p.seqno - 1, p.stamp, enqueued)])
  {
    var entry := Attribution(p.seqno - 1, p.stamp, enqueued);
    var more := full + [entry];
    forall i | 0 <= i < |full|
      ensures more[i] == full[i] && full[i].ordinal < p.seqno - 1
    {
      if i < |full| - 1 { assert full[i].ordinal < full[|full| - 1].ordinal; }
    }
    assert more[|full|] == entry;
  }

  lemma GaveUp(c: Capture)
    requires c.Ok() && c.closed
    ensures c.(owner := Ended).Ok()
  {
    hide Tagged;
  }

  lemma HeldNumber(c: Capture)
    requires c.Ok()
    ensures c.owner.Holding? ==> c.owner.packet.seqno == c.packetSeq > 0
  {
  }

  lemma Waiting(c: Capture)
    requires c.Ok() && !c.consumer.Received?
    ensures c.(consumer := Checked).Ok() && c.(consumer := Received(None)).Ok()
  {
    hide Tagged, Ordered, Attributed;
  }

  lemma Took(c: Capture)
    requires c.Ok() && !c.consumer.Received? && |c.queue| > 0
    ensures c.(consumer := Received(Some(c.queue[0])), queue := c.queue[1..]).Ok()
  {
    hide Tagged, Attributed;
    assert c.delivered + [] + c.queue == c.delivered + [c.queue[0]] + c.queue[1..];
  }

  lemma LetGo(c: Capture)
    requires c.Ok() && (c.error || InHand(c.consumer) == [])
    ensures c.(consumer := Idle).Ok()
  {
    hide Tagged, Attributed;
  }

  lemma Latched(c: Capture)
    requires c.Ok()
    ensures c.(stop := true, error := true).Ok()
  {
    hide Tagged, Attributed;
  }

  lemma HandedOver(c: Capture)
    requires c.Ok() && !c.error && !c.closed && c.consumer.Received? && c.consumer.item.Some?
    ensures c.(consumer := Idle, delivered := c.delivered + [c.consumer.item.value]).Ok()
    ensures c.consumer.item.value.seqno == |c.delivered| + 1
  {
    hide Attributed;
    var p := c.consumer.item.value;
    assert c.delivered + [p] + c.queue + Held(c.owner) == c.fetched;
    assert c.fetched[|c.delivered|] == p;
    assert c.delivered + [p] <= c.fetched;
    assert (c.delivered + [p]) + [] + c.queue + Held(c.owner) == c.fetched;
  }

  lemma WasClosed(c: Capture)
    requires c.Ok()
    ensures c.(stop := true, closed := true, consumer := Idle).Ok()
  {
    hide Tagged, Attributed;
  }

  class HardwareCapture {
    var generation: nat
    var packetSeq: nat
    var enqueuedSamples: nat
    var transientStreak: nat
    var queue: seq<Packet>
    var error: bool
    var stop: bool
    var closed: bool
    var owner: OwnerPhase
    var consumer: ConsumerPhase
    var decimate: nat
    var schedule: SpectrumSchedule
    const history: EventHistory
    ghost var fetched: seq<Packet>
    ghost var delivered: seq<Packet>

    ghost function View(): Capture
      reads this, schedule, history
    {
      Capture(generation, packetSeq, enqueuedSamples, transientStreak, queue, error, stop, closed, owner, consumer,
              schedule.ticks == 0 && schedule.next == 0, fetched, delivered, history.fullLog)
    }

    ghost predicate Valid()
      reads this, schedule, history, history.entries, history.queueFull
    {
      View().Ok() && history.Valid() && decimate > 0 && schedule.Valid(N * decimate)
    }

    constructor (decimate: nat)
      requires decimate > 0
      ensures Valid() && delivered == [] && fetched == [] && !error && !closed && owner == Running
      ensures generation == 0 && transientStreak == 0 && queue == [] && !stop && consumer == Idle
      ensures this.decimate == decimate && schedule.Due() && history.log == [] && history.fullLog == []
      ensures fresh(schedule) && fresh(history) && fresh(history.entries) && fresh(history.queueFull)
    {
      generation, packetSeq, enqueuedSamples, transientStreak := 0, 0, 0, 0;
      queue, error, stop, closed := [], false, false, false;
      owner, consumer, this.decimate := Running, Idle, decimate;
      schedule := new SpectrumSchedule();
      history := new EventHistory();
      fetched, delivered := [], [];
    }

    /** The owner sees the stop flag between packets. */
    method OwnerStops()
      requires Valid() && owner == Running && stop
      modifies this`owner
      ensures Valid() && owner == Ended
    {
      hide Capture.Ok, RingOf, SpectrumSchedule.Valid;
      Stopped(View());
      owner := Ended;
    }

    /** Zero-based number of the packet that is held or fetched next. */
    ghost function Ordinal(): nat
      reads this`owner, this`packetSeq
    {
      if owner.Holding? && owner.packet.seqno > 0 then owner.packet.seqno - 1 else packetSeq
    }

    /** Serves one control request, between packets or while a packet is held. A
        good reconfiguration starts a new generation; the held packet keeps its tag. */
    method ServeRequest(reconfigure: bool, vendorOk: bool, newDecimate: nat, slow: bool)
      requires Valid() && !owner.Ended? && newDecimate > 0
      modifies this`generation, this`transientStreak, this`error, this`owner, this`decimate, this`schedule
      modifies history`total, history`lastRecovery, history`log, history.entries
      ensures Valid() && (old(error) ==> error) && delivered == old(delivered) && queue == old(queue)
      ensures reconfigure && !vendorOk ==> error && owner == Ended
      ensures reconfigure && vendorOk ==> generation == old(generation) + 1
      ensures !reconfigure ==> generation == old(generation)
      ensures !(reconfigure && !vendorOk) ==> owner == old(owner) && error == old(error)
      ensures schedule == old(schedule) || fresh(schedule)
      ensures reconfigure && vendorOk ==>
                fresh(schedule) && schedule.Due() && transientStreak == 0 && decimate == newDecimate
      ensures !(reconfigure && vendorOk) ==>
                schedule == old(schedule) && transientStreak == old(transientStreak) && decimate == old(decimate)
      ensures history.log == old(history.log) +
                if slow || (reconfigure && !vendorOk) then
                  [Event(if old(owner) == Running then "control" else "control_while_queued",
                         old(Ordinal()), |old(history.log)|)]
                else []
    {
      hide Capture.Ok, EventHistory.Valid, RingOf, SpectrumSchedule.Valid;
      if slow || (reconfigure && !vendorOk) {
        Log(if owner == Running then "control" else "control_while_queued");
      }
      if reconfigure {
        if vendorOk { StartGeneration(newDecimate); } else { Fail(); }
      }
    }

    method Log(kind: string)
      requires Valid()
      modifies history`total, history`lastRecovery, history`log, history.entries
      ensures Valid() && View() == old(View())
      ensures schedule.Due() == old(schedule.Due())
      ensures history.log == old(history.log) + [Event(kind, Ordinal(), |old(history.log)|)]
    {
      hide Capture.Ok, RingOf, SpectrumSchedule.Valid;
      HeldNumber(View());
      history.Record(if owner.Holding? then packetSeq - 1 else packetSeq, kind);
    }

    /** Latches an error and ends the owner. */
    method Fail()
      requires Valid()
      modifies this`error, this`owner
      ensures Valid() && View() == old(View()).(error := true, owner := Ended)
    {
      hide Capture.Ok, EventHistory.Valid, RingOf, SpectrumSchedule.Valid;
      Failed(View());
      error := true;
      owner := Ended;
    }

    method StartGeneration(newDecimate: nat)
      requires Valid() && newDecimate > 0
      modifies this`generation, this`transientStreak, this`decimate, this`schedule
      ensures Valid() && fresh(schedule)
      ensures View() == old(View()).(generation := old(generation) + 1, streak := 0, freshSpectrum := true)
      ensures schedule.Due() && decimate == newDecimate
    {
      hide Capture.Ok, EventHistory.Valid, RingOf, SpectrumSchedule.Valid;
      ghost var c := View();
      NewGeneration(c);
      generation := generation + 1;
      decimate := newDecimate;
      transientStreak := 0;
      schedule := new SpectrumSchedule();
      assert View() == c.(generation := c.generation + 1, streak := 0, freshSpectrum := true);
    }

    /** One bus failure too many, or for too long. */
    static ghost predicate Streaked(result: Fetched, streak: nat) {
      result.Transient? && (result.stalled || streak + 1 >= STREAK_LIMIT)
    }

    /** One vendor fetch. A good packet is numbered and tagged with the generation
        of this moment, and is then held until the queue takes it. */
    method Fetch(result: Fetched, slow: bool)
      requires Valid() && owner == Running
      modifies this`packetSeq, this`transientStreak, this`error, this`owner, this`fetched, schedule
      modifies history`total, history`lastRecovery, history`log, history.entries
      ensures Valid() && (old(error) ==> error) && delivered == old(delivered) && queue == old(queue)
      ensures result.Good? ==>
                && fetched != [] && owner == Holding(fetched[|fetched| - 1], false)
                && fetched == old(fetched) + [Packet(old(packetSeq) + 1, result.stamp, generation, old(schedule.Due()))]
                && transientStreak == 0 && packetSeq == old(packetSeq) + 1
      ensures result.Fatal? ==> error && owner == Ended
      ensures result.Transient? ==>
                && fetched == old(fetched) && packetSeq == old(packetSeq)
                && transientStreak == old(transientStreak) + 1
                && if Streaked(result, old(transientStreak)) then error && owner == Ended
                   else owner == Running && error == old(error)
      ensures history.log == old(history.log)
                + (if slow || !result.Good? then [Event("fetch", old(packetSeq), |old(history.log)|)] else [])
                + (if Streaked(result, old(transientStreak)) then
                     [Event("recovery_required", old(packetSeq), |old(history.log)| + 1)]
                   else [])
    {
      hide Capture.Ok, EventHistory.Valid, RingOf, SpectrumSchedule.Valid;
      if slow || !result.Good? { Log("fetch"); }
      match result {
        case Good(stamp) => TakeIn(stamp);
        case Transient(stalled) => Skip(stalled);
        case Fatal => Fail();
      }
    }

    /** Numbers and tags a good packet. */
    method TakeIn(stamp: nat)
      requires Valid() && owner == Running
      modifies this`packetSeq, this`transientStreak, this`owner, this`fetched, schedule
      ensures Valid() && error == old(error) && delivered == old(delivered) && queue == old(queue)
      ensures fetched == old(fetched) + [Packet(old(packetSeq) + 1, stamp, generation, old(schedule.Due()))]
      ensures owner == Holding(fetched[|fetched| - 1], false)
      ensures transientStreak == 0 && packetSeq == old(packetSeq) + 1
    {
      hide Capture.Ok, EventHistory.Valid, RingOf, SpectrumSchedule.Valid;
      ghost var c := View();
      var packet := Packet(packetSeq + 1, stamp, generation, schedule.ticks >= schedule.next);
      FetchedOne(c, packet);
      schedule.Received(decimate);
      transientStreak := 0;
      packetSeq := packetSeq + 1;
      owner := Holding(packet, false);
      fetched := fetched + [packet];
      assert View() == c.(packetSeq := c.packetSeq + 1, streak := 0, owner := owner, freshSpectrum := false,
                          fetched := c.fetched + [packet]);
    }

    /** A bus failure without a packet: skipped, until there are too many in a row
        or they last too long. */
    method Skip(stalled: bool)
      requires Valid() && owner == Running
      modifies this`transientStreak, this`error, this`owner
      modifies history`total, history`lastRecovery, history`log, history.entries
      ensures Valid() && delivered == old(delivered) && queue == old(queue)
      ensures transientStreak == old(transientStreak) + 1
      ensures if Streaked(Transient(stalled), old(transientStreak)) then error && owner == Ended
              else owner == Running && error == old(error)
      ensures history.log == old(history.log) +
                if Streaked(Transient(stalled), old(transientStreak)) then
                  [Event("recovery_required", packetSeq, |old(history.log)|)]
                else []
    {
      hide Capture.Ok, EventHistory.Valid, RingOf, SpectrumSchedule.Valid;
      ghost var c := View();
      if transientStreak + 1 >= 60 || stalled {
        Log("recovery_required");
        StreakFailed(c, transientStreak + 1);
        transientStreak := transientStreak + 1;
        error := true;
        owner := Ended;
        assert View() == c.(error := true, owner := Ended, streak := transientStreak);
        return;
      }
      Skipped(c);
      transientStreak := transientStreak + 1;
      assert View() == c.(streak := c.streak + 1);
    }

    /** One try_send of the held packet. Only the first failure of a packet is
        attributed; retries are not. */
    method TrySend(slow: bool) returns (sent: bool)
      requires Valid() && owner.Holding? && !closed
      modifies this`queue, this`owner, this`enqueuedSamples
      modifies history`total, history`lastRecovery, history`log, history.entries
      modifies history`queueFullTotal, history`fullLog, history.queueFull
      ensures Valid() && error == old(error) && delivered == old(delivered)
      ensures sent <==> |old(queue)| < PACKET_QUEUE
      ensures sent ==> owner == Running && queue == old(queue) + [old(owner).packet]
                       && history.fullLog == old(history.fullLog)
      ensures !sent ==> owner == Holding(old(owner).packet, true) && queue == old(queue)
      ensures !sent && old(owner).full ==> history.fullLog == old(history.fullLog)
      ensures !sent && !old(owner).full ==>
                && 0 < old(owner).packet.seqno
                && history.fullLog == old(history.fullLog)
                     + [Attribution(old(owner).packet.seqno - 1, old(owner).packet.stamp, enqueuedSamples)]
      ensures history.log == old(history.log) +
                if sent && slow then [Event("queue_complete", old(Ordinal()), |old(history.log)|)] else []
    {
      hide Capture.Ok, EventHistory.Valid, RingOf, SpectrumSchedule.Valid;
      if |queue| < 64 {
        if slow { Log("queue_complete"); }
        Enqueue();
        return true;
      }
      if !owner.full { MarkFull(); }
      sent := false;
    }

    /** The queue takes the held packet. */
    method Enqueue()
      requires Valid() && owner.Holding? && |queue| < PACKET_QUEUE
      modifies this`queue, this`owner, this`enqueuedSamples
      ensures Valid() && owner == Running && queue == old(queue) + [old(owner).packet]
    {
      hide Capture.Ok, EventHistory.Valid, RingOf, SpectrumSchedule.Valid;
      SentOne(View());
      queue := queue + [owner.packet];
      enqueuedSamples := if enqueuedSamples + 16240 < CLOCK then enqueuedSamples + 16240 else CLOCK - 1;
      owner := Running;
    }

    /** The first full queue that the held packet meets. */
    method MarkFull()
      requires Valid() && owner.Holding? && !owner.full
      modifies this`owner, history`queueFullTotal, history`fullLog, history.queueFull
      ensures Valid() && owner == Holding(old(owner).packet, true) && 0 < old(owner).packet.seqno
      ensures history.fullLog == old(history.fullLog)
                + [Attribution(old(owner).packet.seqno - 1, old(owner).packet.stamp, enqueuedSamples)]
    {
      hide Capture.Ok, RingOf, SpectrumSchedule.Valid;
      ghost var c := View();
      FirstFull(c);
      history.RecordQueueFull(Attribution(owner.packet.seqno - 1, owner.packet.stamp, enqueuedSamples));
      owner := Holding(owner.packet, true);
      assert View() == c.(owner := owner, full := history.fullLog);
    }

    /** A held packet that waited too long ends the capture with an error. */
    method BacklogTimeout()
      requires Valid() && owner.Holding? && owner.full
      modifies this`error, this`owner
      modifies history`total, history`lastRecovery, history`log, history.entries
      ensures Valid() && error && owner == Ended && delivered == old(delivered)
      ensures history.log == old(history.log) + [Event("queue_pending", old(Ordinal()), |old(history.log)|)]
    {
      hide Capture.Ok, RingOf, SpectrumSchedule.Valid;
      Failed(View());
      HeldNumber(View());
      history.Record(packetSeq - 1, "queue_pending");
      error := true;
      owner := Ended;
    }

    /** A held packet that waits long is noted in the history. */
    method NotePending()
      requires Valid() && owner.Holding? && owner.full
      modifies history`total, history`lastRecovery, history`log, history.entries
      ensures Valid() && View() == old(View())
      ensures history.log == old(history.log) + [Event("queue_pending", Ordinal(), |old(history.log)|)]
    {
      hide Capture.Ok, EventHistory.Valid, RingOf, SpectrumSchedule.Valid;
      Log("queue_pending");
    }

    /** The consumer is gone: the owner gives up the held packet. */
    method Disconnected()
      requires Valid() && owner.Holding? && closed
      modifies this`owner
      modifies history`total, history`lastRecovery, history`log, history.entries
      ensures Valid() && owner == Ended && delivered == old(delivered)
      ensures history.log == old(history.log) + [Event("queue_disconnected", old(Ordinal()), |old(history.log)|)]
    {
      hide Capture.Ok, RingOf, SpectrumSchedule.Valid;
      GaveUp(View());
      HeldNumber(View());
      history.Record(packetSeq - 1, "queue_disconnected");
      owner := Ended;
    }

    // ---------------------------------------------------------- consumer

    /** next: an error that is already latched is reported before anything is taken. */
    method BeginNext() returns (proceed: bool)
      requires Valid() && consumer == Idle && !closed
      modifies this`consumer
      ensures Valid() && (proceed <==> !error) && delivered == old(delivered) && queue == old(queue)
      ensures consumer == if proceed then Checked else Idle
    {
      hide Capture.Ok, RingOf, SpectrumSchedule.Valid;
      Waiting(View());
      proceed := !error;
      if proceed { consumer := Checked; }
    }

    /** The queue gives its oldest packet, or the wait ends without one. */
    method Receive(timeout: bool)
      requires Valid() && consumer == Checked && !closed
      modifies this`consumer, this`queue
      ensures Valid() && consumer.Received? && delivered == old(delivered)
      ensures consumer.item.Some? <==> |old(queue)| > 0 && !timeout
    {
      hide Capture.Ok, RingOf, SpectrumSchedule.Valid;
      if |queue| > 0 && !timeout {
        Took(View());
        consumer, queue := Received(Some(queue[0])), queue[1..];
      } else {
        Waiting(View());
        consumer := Received(None);
      }
    }

    /** The second error check: nothing is delivered once an error is latched. */
    method EndNext() returns (packet: Option<Packet>)
      requires Valid() && consumer.Received? && !closed
      modifies this`consumer, this`error, this`stop, this`delivered
      ensures Valid() && consumer == Idle && (old(error) ==> error)
      ensures packet.Some? <==> !old(error) && old(consumer).item.Some?
      ensures delivered == old(delivered) + if packet.Some? then [packet.value] else []
      ensures packet.Some? ==> packet.value.seqno == |delivered| && !error
      ensures packet.None? ==> error
    {
      hide Capture.Ok, RingOf, SpectrumSchedule.Valid;
      ghost var c := View();
      var item := consumer.item;
      if error || item.None? {
        LetGo(c);
        Latched(c.(consumer := Idle));
        consumer := Idle;
        if !error { stop, error := true, true; }
        assert View() == c.(consumer := Idle) || View() == c.(consumer := Idle).(stop := true, error := true);
        return None;
      }
      HandedOver(c);
      consumer := Idle;
      delivered := delivered + [item.value];
      assert View() == c.(consumer := Idle, delivered := delivered);
      packet := item;
    }

    /** A control caller that waited too long latches an error and stops the owner. */
    method CallTimeout()
      requires Valid()
      modifies this`stop, this`error
      ensures Valid() && error && stop
    {
      hide Capture.Ok, RingOf, SpectrumSchedule.Valid;
      Latched(View());
      stop, error := true, true;
    }

    /** Dropping the capture. */
    method Close()
      requires Valid()
      modifies this`stop, this`closed, this`consumer
      ensures Valid() && stop && closed
    {
      hide Capture.Ok, RingOf, SpectrumSchedule.Valid;
      WasClosed(View());
      stop, closed, consumer := true, true, Idle;
    }

    /** One step of the owner thread. */
    method OwnerStep()
      requires Valid()
      modifies this, schedule, history, history.entries, history.queueFull
      ensures Valid() && delivered == old(delivered) && (old(error) ==> error)
      ensures schedule == old(schedule) || fresh(schedule)
    {
      hide Capture.Ok, EventHistory.Valid, RingOf, SpectrumSchedule.Valid;
      var choice: nat := *;
      var a: bool := *;
      var b: bool := *;
      var n: nat := *;
      if choice == 0 && owner == Running && stop { OwnerStops(); }
      else if choice == 1 && !owner.Ended? { var d: nat :| d > 0; ServeRequest(a, b, d, n % 2 == 0); }
      else if choice == 2 && owner == Running {
        Fetch(if a then Good(n) else if b then Transient(n % 2 == 0) else Fatal, n % 3 == 0);
      }
      else if choice == 3 && owner.Holding? && !closed { var sent := TrySend(a); }
      else if choice == 4 && owner.Holding? && owner.full { BacklogTimeout(); }
      else if choice == 5 && owner.Holding? && owner.full { NotePending(); }
      else if choice == 6 && owner.Holding? && closed { Disconnected(); }
    }

    /** One step of the consumer or of another caller. */
    method ConsumerStep()
      requires Valid()
      modifies this`consumer, this`queue, this`error, this`stop, this`closed, this`delivered
      ensures Valid() && old(delivered) <= delivered
      ensures old(error) ==> error && delivered == old(delivered)
    {
      hide Capture.Ok, EventHistory.Valid, RingOf, SpectrumSchedule.Valid;
      var choice: nat := *;
      var timeout: bool := *;
      if choice == 0 && consumer == Idle && !closed { var proceed := BeginNext(); }
      else if choice == 1 && consumer == Checked && !closed { Receive(timeout); }
      else if choice == 2 && consumer.Received? && !closed { var packet := EndNext(); }
      else if choice == 3 { CallTimeout(); }
      else if choice == 4 { Close(); }
    }

    /** Any interleaving of the steps: what was delivered before stays delivered,
        and after an error is latched nothing more is. */
    method AnyRun()
      requires Valid()
      modifies this, schedule, history, history.entries, history.queueFull
      ensures Valid() && old(delivered) <= delivered
      ensures old(error) ==> error && delivered == old(delivered)
    {
      hide Capture.Ok, EventHistory.Valid, RingOf, SpectrumSchedule.Valid;
      var steps: nat := *;
      while steps > 0
        invariant Valid() && old(delivered) <= delivered
        invariant schedule == old(schedule) || fresh(schedule)
        invariant old(error) ==> error && delivered == old(delivered)
      {
        var ownerTurn: bool := *;
        if ownerTurn { OwnerStep(); } else { ConsumerStep(); }
        steps := steps - 1;
      }
    }
  }
}
