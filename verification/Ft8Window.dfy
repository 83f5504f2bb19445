/** The FT8 window cutter: overlapping search windows over the 12 kHz stream. */
module Ft8Window {
  import opened Arith
  import opened Complex
  import opened Channelizer
  import opened ClockRate
  import opened SamplePosition

  const FT8_RATE: nat := 12000
  /** 28.04 s, 15 s and 12.64 s of samples. */
  const WINDOW: nat := 336480
  const HOP: nat := 180000
  const MESSAGE: nat := 151680

  datatype InputClock = InputClock(firstSampleIndex: nat, inputRate: F64)

  datatype Job = Job(sequence: nat, iq: seq<C>, clock: InputClock, position: Position, start: nat)

  datatype Outcome = Failed | Nothing | Emitted(job: Job)

  /** The samples [a, a + MESSAGE) lie inside the job's window. */
  ghost predicate Inside(a: int, j: Job) {
    j.start <= a && a + MESSAGE <= j.start + |j.iq|
  }

  ghost predicate Covered(jobs: seq<Job>, a: int) {
    exists i :: 0 <= i < |jobs| && Inside(a, jobs[i])
  }

  /** Every message-length stretch that begins in [from, to) is inside a job. */
  ghost predicate CoveredBetween(jobs: seq<Job>, from: nat, to: nat) {
    forall a :: from <= a < to ==> Covered(jobs, a)
  }

  lemma CoveredMore(jobs: seq<Job>, j: Job, from: nat, mid: nat, to: nat)
    requires CoveredBetween(jobs, from, mid)
    requires forall a :: mid <= a < to ==> Inside(a, j)
    ensures CoveredBetween(jobs + [j], from, to)
  {
    var more := jobs + [j];
    forall a | from <= a < to
      ensures Covered(more, a)
    {
      if a < mid {
        assert Covered(jobs, a);
        var i :| 0 <= i < |jobs| && Inside(a, jobs[i]);
        assert Inside(a, more[i]);
      } else {
        assert Inside(a, more[|jobs|]);
      }
    }
  }

  /** Every message that fits into n samples begins before `to`. */
  lemma CoveredHere(jobs: seq<Job>, from: nat, to: nat, n: nat)
    requires CoveredBetween(jobs, from, to) && n < to + MESSAGE
    ensures forall a :: from <= a && a + MESSAGE <= n ==> Covered(jobs, a)
  {
  }

  lemma CoveredNothing(jobs: seq<Job>, at: nat)
    ensures CoveredBetween(jobs, at, at)
  {
  }

  /** The job holds the samples of the stream from its start on. */
  ghost predicate SliceOf(stream: seq<C>, j: Job) {
    j.start + |j.iq| <= |stream| && j.iq == stream[j.start..j.start + |j.iq|]
  }

  /** A job is a true slice of the stream, and its position is the exact capture
      coordinate of its first sample. */
  ghost predicate TrueSlice(stream: seq<C>, origin: InputClock, j: Job) {
    && SliceOf(stream, j)
    && IsPositionAt(origin.firstSampleIndex, j.start, origin.inputRate, FT8_RATE, j.position)
    && j.clock == origin.(firstSampleIndex := j.position.index)
  }

  lemma SliceStays(stream: seq<C>, more: seq<C>, origin: InputClock, j: Job)
    requires TrueSlice(stream, origin, j)
    ensures TrueSlice(stream + more, origin, j)
  {
  }

  class Ft8Window {
    var samples: seq<C>
    var origin: Option<InputClock>
    var start: nat
    var early: bool
    var attempts: nat
    /** Everything pushed, every job emitted, and where the current pass began. */
    ghost var stream: seq<C>
    ghost var jobs: seq<Job>
    ghost var pass: nat
    /** No block so far was longer than a window and a hop differ, and none failed. */
    ghost var bounded: bool

    /** The samples that make the next job due. */
    ghost function Due(): nat
      reads this`early
    {
      if early then WINDOW else HOP
    }

    ghost predicate Valid()
      reads this
    {
      && (bounded ==> |samples| < Due())
      && start <= |stream| && samples == stream[start..]
      && pass <= start && (!early ==> start == pass)
      && CoveredBetween(jobs, pass, start)
      && (origin.None? ==> stream == [] && jobs == [])
      && (origin.Some? ==>
            && origin.value.firstSampleIndex < CLOCK && origin.value.inputRate.Valid()
            && forall i :: 0 <= i < |jobs| ==> TrueSlice(stream, origin.value, jobs[i]))
      && (forall i :: 0 <= i < |jobs| ==> jobs[i].sequence <= attempts)
      && (forall i, k :: 0 <= i < k < |jobs| ==> jobs[i].sequence < jobs[k].sequence)
    }

    lemma BufferBounded()
      requires Valid() && bounded
      ensures |samples| < Due() <= WINDOW
    {
    }

    lemma Buffered()
      requires Valid()
      ensures pass <= start && start + |samples| == |stream|
    {
    }

    constructor ()
      ensures Valid() && stream == [] && jobs == [] && !early && |samples| == 0 && bounded
      ensures origin.None? && start == 0 && attempts == 0
    {
      bounded := true;
      samples, origin, start, early, attempts := [], None, 0, false, 0;
      stream, jobs, pass := [], [], 0;
    }

    /** The first buffered sample has no capture coordinate that fits. */
    ghost predicate Unplaced()
      reads this`origin, this`start
      requires origin.Some?
    {
      !Positionable(origin.value.firstSampleIndex, origin.value.inputRate, start, FT8_RATE)
    }

    /** Buffers a block. */
    method Append(iq: seq<C>, clock: InputClock)
      requires Valid() && clock.firstSampleIndex < CLOCK && clock.inputRate.Valid()
      modifies this`origin, this`samples, this`stream, this`bounded
      ensures Valid() && stream == old(stream) + iq && samples == old(samples) + iq && origin.Some?
      ensures old(origin).Some? ==> origin == old(origin)
      ensures old(origin).None? ==> origin == Some(clock)
      ensures bounded == (old(bounded) && |samples| < Due())
    {
      hide CoveredBetween, TrueSlice;
      if origin.None? { origin := Some(clock); }
      samples := samples + iq;
      forall i | 0 <= i < |jobs|
        ensures TrueSlice(stream + iq, origin.value, jobs[i])
      {
        SliceStays(stream, iq, origin.value, jobs[i]);
      }
      stream := stream + iq;
      bounded := bounded && |samples| < Due();
    }

    /** The job of the first `count` buffered samples. */
    method Cut(count: nat) returns (o: Outcome)
      requires Valid() && origin.Some? && |stream| < CLOCK && count <= |samples|
      modifies this`attempts
      ensures Valid() && attempts == old(attempts) + 1 && !o.Nothing?
      ensures o.Failed? <==> Unplaced()
      ensures o.Emitted? ==> o.job.sequence == attempts && o.job.start == start && |o.job.iq| == count
      ensures o.Emitted? ==> TrueSlice(stream, origin.value, o.job)
    {
      hide CoveredBetween, Positionable, IsPositionAt;
      attempts := attempts + 1;
      var position := TryPositionAt(origin.value.firstSampleIndex, origin.value.inputRate, start, 12000);
      if position.None? { return Outcome.Failed; }
      var job := Job(attempts, samples[..count], origin.value.(firstSampleIndex := position.value.index),
                     position.value, start);
      assert job.iq == stream[start..start + count];
      o := Emitted(job);
    }

    /** The cutter moves on after an early job or a full window. */
    method Advance(job: Job, ghost keeps: bool)
      requires Valid() && origin.Some? && TrueSlice(stream, origin.value, job)
      requires job.start == start && |job.iq| == Due() <= |samples|
      requires job.sequence == attempts && forall i :: 0 <= i < |jobs| ==> jobs[i].sequence < attempts
      requires keeps ==> |samples| < Due() + WINDOW - HOP
      modifies this`early, this`samples, this`start, this`jobs, this`bounded
      ensures Valid() && jobs == old(jobs) + [job] && early && bounded == keeps
      ensures start == old(start) + if old(early) then HOP else 0
    {
      CoveredMore(jobs, job, pass, start, start + if early then HOP else 0);
      hide CoveredBetween, TrueSlice;
      if !early {
        early := true;
      } else {
        samples := samples[180000..];
        start := start + 180000;
      }
      jobs := jobs + [job];
      bounded := keeps;
    }

    /** Takes in one block and gives at most one job: the early one once a hop is
        buffered, then one per full window. As long as no block is too long and none
        fails, the buffer never reaches the next job. */
    method Extract(iq: seq<C>, clock: InputClock) returns (o: Outcome)
      requires Valid() && clock.firstSampleIndex < CLOCK && clock.inputRate.Valid()
      requires |stream| + |iq| < CLOCK
      modifies this
      ensures Valid() && stream == old(stream) + iq && pass == old(pass) && origin.Some?
      ensures origin == if old(origin).Some? then old(origin) else Some(clock)
      ensures jobs == old(jobs) + if o.Emitted? then [o.job] else []
      ensures o.Failed? || o.Nothing? ==> start == old(start) && early == old(early)
      ensures o.Failed? ==> Due() <= |samples|
      ensures o.Failed? <==> |old(samples)| + |iq| >= old(Due())
                             && !Positionable(origin.value.firstSampleIndex, origin.value.inputRate, old(start),
                                              FT8_RATE)
      ensures o.Nothing? <==> |old(samples)| + |iq| < old(Due())
      ensures o.Emitted? ==> o.job.start == old(start) && |o.job.iq| == old(Due())
      ensures o.Emitted? ==> TrueSlice(stream, origin.value, o.job)
      ensures o.Emitted? ==> early && start == old(start) + if old(early) then HOP else 0
      ensures old(bounded) && |iq| <= WINDOW - HOP ==> (bounded <==> !o.Failed?)
    {
      hide CoveredBetween, TrueSlice;
      ghost var keeps := bounded && |iq| <= WINDOW - HOP;
      Append(iq, clock);
      var due := if early then 336480 else 180000;
      if |samples| < due { return Nothing; }
      o := Cut(due);
      if o.Failed? { return; }
      Advance(o.job, keeps);
    }

    /** End of input: what is left becomes a last job when a whole message fits.
        Then every message-length stretch of the stream is inside some job. */
    method Flush() returns (o: Outcome)
      requires Valid() && |stream| < CLOCK
      modifies this
      ensures Valid() && stream == old(stream) && bounded == old(bounded) && origin == old(origin)
      ensures jobs == old(jobs) + if o.Emitted? then [o.job] else []
      ensures o.Emitted? ==> TrueSlice(stream, origin.value, o.job)
      ensures o.Emitted? ==> samples == [] && o.job.start == old(start) && |o.job.iq| == |old(samples)| >= MESSAGE
      ensures o.Nothing? <==> |old(samples)| < MESSAGE
      ensures o.Failed? <==> |old(samples)| >= MESSAGE && origin.Some? && old(Unplaced())
      ensures early == old(early)
      ensures if o.Emitted? then pass == start == |stream| else pass == old(pass) && start == old(start)
      ensures !o.Failed? ==>
                forall a :: old(pass) <= a && a + MESSAGE <= |stream| ==> Covered(jobs, a)
    {
      if |samples| < 151680 || origin.None? {
        return Nothing;
      }
      o := Cut(|samples|);
      if o.Failed? { return; }
      var left := |samples|;
      CoveredMore(jobs, o.job, pass, start, start + left - MESSAGE + 1);
      jobs := jobs + [o.job];
      start := start + left;
      samples := [];
      pass := start;
    }
  }
}
