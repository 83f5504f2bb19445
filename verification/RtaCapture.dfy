/** The completion counter of a real-time capture: when a finite, level-triggered
    acquisition may be called complete, what its published trace is, and whether the
    buffers are large enough for the geometry that was reported last. */
module RtaCapture {
  import opened Arith
  import S = San90Session

  const SENTINEL: real := -1000000000000000000000000000000.0

  function Max(a: real, b: real): real { if a < b then b else a }

  datatype Profile = Profile(fixedPoints: bool, level: bool, retrigger: bool) {
    /** One uninterrupted, non-retriggered level acquisition. */
    predicate FiniteLevel() { fixedPoints && level && !retrigger }
  }

  type U32 = x: nat | x < 0x1_0000_0000

  datatype Info = Info(width: U32, height: U32, validPoints: U32, samplePoints: U32, packetFrame: U32,
                       packetCount: U32) {
    predicate Good() { 2 <= width <= validPoints && width <= 65536 && 0 < height <= 65536 }

    /** What the vendor may write to the trace buffer for one packet. */
    function Points(): U32 { if validPoints < samplePoints then samplePoints else validPoints }

    /** New buffers for this geometry; the trace is sized in 32 bits and wraps around. */
    function TraceSize(): U32 { (Points() + 4096) % 0x1_0000_0000 }

    function BitmapSize(): nat { width * height + 65536 }

    /** Buffers of these sizes hold what the vendor writes and what a frame reads. */
    predicate Fits(trace: nat, bitmap: nat) { Points() <= trace && width <= trace && width * height <= bitmap }

    /** New buffers fit: their size does not wrap around and covers a whole trace. */
    predicate Allotted() { Points() + 4096 < 0x1_0000_0000 && width <= Points() + 4096 }
  }

  lemma AllottedFits(info: Info)
    ensures info.Fits(info.TraceSize(), info.BitmapSize()) <==> info.Allotted()
  {
  }

  datatype Actual = Actual(valid: bool, generation: nat, packetIndex: nat, packetCount: nat, complete: int,
                           lastStatus: int)

  /** A vendor answer: a status, and the profile and geometry it reports. */
  datatype Applied = Applied(status: int, profile: Profile, info: Info)

  /** Which of the three buffers, assigned in this order, cannot be allocated. A
      buffer that cannot be allocated keeps its contents. */
  datatype Allocation = Enough | TraceThrows | BitmapThrows | CaptureThrows {
    /** The accumulator is assigned only for a finite level capture. */
    predicate Throws(finite: bool) { TraceThrows? || BitmapThrows? || (CaptureThrows? && finite) }

    /** The sizes of the first two buffers after the assignments. */
    function Trace(size: nat, info: Info): nat { if TraceThrows? then size else info.TraceSize() }

    function Bitmap(size: nat, info: Info): nat { if TraceThrows? || BitmapThrows? then size else info.BitmapSize() }
  }

  /** The vendor's answers while one profile is applied, and what its buffers find. */
  datatype Answers = Answers(stop: int, deinit: int, applied: Applied, memory: Allocation, start: int) {
    /** Every call before the buffers are assigned succeeds. */
    predicate Reaches() { stop == 0 && deinit == 0 && applied.status == 0 && applied.info.Good() }

    /** The accumulator has been replaced. */
    predicate Replaces() { Reaches() && !memory.Throws(applied.profile.FiniteLevel()) }

    function Trace(size: nat): nat { if Reaches() then memory.Trace(size, applied.info) else size }

    function Bitmap(size: nat): nat { if Reaches() then memory.Bitmap(size, applied.info) else size }

    /** The first step that fails decides. */
    function Outcome(): S.Outcome {
      if stop != 0 then S.Returned(stop)
      else if deinit != 0 then S.Returned(deinit)
      else if applied.status != 0 then S.Returned(applied.status)
      else if !applied.info.Good() then S.Returned(-102)
      else if memory.Throws(applied.profile.FiniteLevel()) then S.Thrown
      else S.Returned(start)
    }
  }

  /** The answers during a rollback, which applies a profile without checking what
      geometry comes back. */
  datatype Rollback = Rollback(stop: int, applied: Applied, memory: Allocation, start: int) {
    predicate Applies() { stop == 0 && applied.status == 0 }
    predicate Succeeds() { Applies() && start == 0 }
  }

  /** A new accumulator; only finite level captures have one. */
  function Cleared(finite: bool, width: nat): (s: seq<real>)
    ensures |s| == if finite then width else 0
  {
    if finite then seq(width, _ => SENTINEL) else []
  }

  /** One packet from the vendor: what the trace buffer then holds, and its scale. */
  datatype Packet = Packet(status: int, trace: seq<nat>, scale: real, offset: real)

  /** These statuses are carried by a data packet. */
  predicate HasData(status: int) { status in S.WITH_DATA }

  /** These leave the sequence of packets unbroken although nothing arrived. */
  predicate KeepsContinuity(status: int) { status == -10 || status == -304 }

  function Level(p: Packet, i: nat): real
    requires i < |p.trace|
  {
    p.trace[i] as real * p.scale + p.offset
  }

  /** Trace j of the first n lies before the end of them. */
  lemma TraceBefore(width: nat, j: nat, n: nat)
    requires j < n
    ensures j * width + width <= n * width
  {
    MulMono(j + 1, n, width);
    assert (j + 1) * width == j * width + width;
  }

  /** The peak of bin i over the first n traces of a packet. */
  function PeakOver(p: Packet, width: nat, i: nat, n: nat): real
    requires n > 0 && i < width && n * width <= |p.trace|
  {
    TraceBefore(width, n - 1, n);
    var level := Level(p, (n - 1) * width + i);
    if n == 1 then level else Max(PeakOver(p, width, i, n - 1), level)
  }

  lemma FirstPeak(p: Packet, width: nat, i: nat)
    requires i < width <= |p.trace|
    ensures 1 * width == width && PeakOver(p, width, i, 1) == Level(p, i)
  {
  }

  lemma NextPeak(p: Packet, width: nat, i: nat, n: nat)
    requires n > 0 && i < width && n * width + width <= |p.trace|
    ensures (n + 1) * width == n * width + width && n * width + i < |p.trace|
    ensures PeakOver(p, width, i, n + 1) == Max(PeakOver(p, width, i, n), Level(p, n * width + i))
  {
  }

  /** PeakOver is an upper bound of the traces and is one of them. */
  lemma {:induction false} PeakIsMax(p: Packet, width: nat, i: nat, n: nat) returns (k: nat)
    requires n > 0 && i < width && n * width <= |p.trace|
    ensures k < n && k * width + i < |p.trace| && PeakOver(p, width, i, n) == Level(p, k * width + i)
    ensures forall j: nat :: j < n ==>
              j * width + i < |p.trace| && Level(p, j * width + i) <= PeakOver(p, width, i, n)
  {
    TraceBefore(width, n - 1, n);
    k := n - 1;
    if n > 1 {
      var e := PeakIsMax(p, width, i, n - 1);
      if Level(p, k * width + i) <= PeakOver(p, width, i, n - 1) { k := e; }
    }
  }

  /** One frame of peaks per data packet. */
  function TracesIn(c: Profile, info: Info): (n: nat)
    ensures n <= 1 || n * info.width <= info.validPoints
  {
    if !c.fixedPoints || info.width == 0 then 1
    else
      var fit := info.validPoints / info.width;
      assert fit * info.width <= info.validPoints;
      var n: nat := if info.packetFrame < fit then info.packetFrame else fit;
      assert n * info.width <= fit * info.width by { assert (fit - n) * info.width >= 0; }
      n
  }

  /** The traces that are read: the loop starts from trace 0, so even a packet of no
      frames shows its first trace. */
  function TracesRead(c: Profile, info: Info): (n: nat)
    ensures n > 0 && (n == 1 || n * info.width <= info.validPoints)
  {
    var n := TracesIn(c, info);
    if n == 0 then 1 else n
  }

  /** Every index that is read for a frame lies inside a trace buffer that fits. */
  lemma ReadsInside(c: Profile, info: Info, trace: nat, bitmap: nat, k: nat, i: nat)
    requires info.Fits(trace, bitmap) && k < TracesRead(c, info) && i < info.width
    ensures TracesRead(c, info) * info.width <= trace
    ensures k * info.width + i < trace
  {
    TraceBefore(info.width, k, TracesRead(c, info));
  }

  function Frame(p: Packet, c: Profile, info: Info): (f: seq<real>)
    requires info.width <= |p.trace| && info.validPoints <= |p.trace|
    ensures |f| == info.width
  {
    var n := TracesRead(c, info);
    seq(info.width, i requires 0 <= i < info.width => PeakOver(p, info.width, i, n))
  }

  /** The traces that count: with fixed points all that the packet announces and that lie
      in its valid points, otherwise the first; the first one always. */
  predicate Counts(fixed: bool, info: Info, j: nat) {
    j == 0 || (fixed && j < info.packetFrame && (j + 1) * info.width <= info.validPoints)
  }

  /** Bin i of trace j was delivered, at level v. */
  predicate Delivered(p: Packet, width: nat, i: nat, j: nat, v: real) {
    0 <= j * width + i < |p.trace| && v == p.trace[j * width + i] as real * p.scale + p.offset
  }

  /** v is the greatest level of bin i over the traces that count. */
  ghost predicate IsPeak(v: real, p: Packet, fixed: bool, info: Info, i: nat) {
    && (forall j: nat :: Counts(fixed, info, j) ==> exists u :: Delivered(p, info.width, i, j, u) && u <= v)
    && exists j: nat :: Counts(fixed, info, j) && Delivered(p, info.width, i, j, v)
  }

  /** A frame of peaks. */
  ghost predicate Peaks(f: seq<real>, p: Packet, fixed: bool, info: Info) {
    |f| == info.width && forall i :: 0 <= i < |f| ==> IsPeak(f[i], p, fixed, info, i)
  }

  /** Exactly the traces that count are read. */
  lemma CountsAreRead(c: Profile, info: Info, j: nat)
    requires info.width > 0
    ensures Counts(c.fixedPoints, info, j) <==> j < TracesRead(c, info)
  {
    DivGe(info.validPoints, info.width, j + 1);
  }

  lemma FrameIsPeaks(p: Packet, c: Profile, info: Info, bitmap: nat)
    requires info.Fits(|p.trace|, bitmap)
    ensures Peaks(Frame(p, c, info), p, c.fixedPoints, info)
  {
    hide PeakOver, IsPeak;
    var n := TracesRead(c, info);
    forall i | 0 <= i < info.width
      ensures n * info.width <= |p.trace| && IsPeak(PeakOver(p, info.width, i, n), p, c.fixedPoints, info, i)
    {
      BinIsPeak(p, c, info, bitmap, i);
    }
  }

  lemma BinIsPeak(p: Packet, c: Profile, info: Info, bitmap: nat, i: nat)
    requires info.Fits(|p.trace|, bitmap) && i < info.width
    ensures TracesRead(c, info) * info.width <= |p.trace|
    ensures IsPeak(PeakOver(p, info.width, i, TracesRead(c, info)), p, c.fixedPoints, info, i)
  {
    var n := TracesRead(c, info);
    ReadsInside(c, info, |p.trace|, bitmap, 0, i);
    var v := PeakOver(p, info.width, i, n);
    var k := PeakDelivered(p, info.width, i, n);
    CountsAreRead(c, info, k);
    forall j: nat | Counts(c.fixedPoints, info, j)
      ensures exists u :: Delivered(p, info.width, i, j, u) && u <= v
    {
      CountsAreRead(c, info, j);
      var u := TraceDelivered(p, info.width, i, n, j);
    }
  }

  /** The peak is the level of one of the traces that are read. */
  lemma PeakDelivered(p: Packet, width: nat, i: nat, n: nat) returns (k: nat)
    requires n > 0 && i < width && n * width <= |p.trace|
    ensures k < n && Delivered(p, width, i, k, PeakOver(p, width, i, n))
  {
    k := PeakIsMax(p, width, i, n);
    hide PeakOver;
    TraceBefore(width, k, n);
  }

  /** Every trace that is read has a level there, at most the peak. */
  lemma TraceDelivered(p: Packet, width: nat, i: nat, n: nat, j: nat) returns (u: real)
    requires j < n && i < width && n * width <= |p.trace|
    ensures Delivered(p, width, i, j, u) && u <= PeakOver(p, width, i, n)
  {
    TraceBefore(width, j, n);
    var k := PeakIsMax(p, width, i, n);
    hide PeakOver;
    u := Level(p, j * width + i);
  }

  /** Bin-wise maximum of the frames, from the accumulator's start value. */
  function BinMax(frames: seq<seq<real>>, i: nat): real
    requires forall k :: 0 <= k < |frames| ==> i < |frames[k]|
  {
    if frames == [] then SENTINEL else Max(BinMax(frames[..|frames| - 1], i), frames[|frames| - 1][i])
  }

  lemma BinMaxAppend(frames: seq<seq<real>>, f: seq<real>, i: nat)
    requires i < |f| && forall k :: 0 <= k < |frames| ==> i < |frames[k]|
    ensures BinMax(frames + [f], i) == Max(BinMax(frames, i), f[i])
  {
    assert (frames + [f])[..|frames|] == frames;
  }

  /** An accumulator that holds its start value has seen nothing above it. */
  lemma {:induction false} BinMaxSilent(frames: seq<seq<real>>, i: nat)
    requires forall k :: 0 <= k < |frames| ==> i < |frames[k]|
    ensures BinMax(frames, i) >= SENTINEL
    ensures BinMax(frames, i) == SENTINEL <==> forall k :: 0 <= k < |frames| ==> frames[k][i] <= SENTINEL
  {
    if frames != [] {
      var early := frames[..|frames| - 1];
      assert forall k :: 0 <= k < |early| ==> early[k] == frames[k];
      BinMaxSilent(early, i);
    }
  }

  /** Above the start value, BinMax is the least upper bound and is attained. */
  lemma {:induction false} BinMaxIsMax(frames: seq<seq<real>>, i: nat) returns (k: int)
    requires frames != [] && forall j :: 0 <= j < |frames| ==> i < |frames[j]| && frames[j][i] >= SENTINEL
    ensures 0 <= k < |frames| && BinMax(frames, i) == frames[k][i]
    ensures forall j :: 0 <= j < |frames| ==> frames[j][i] <= BinMax(frames, i)
  {
    var last := |frames| - 1;
    k := last;
    if last > 0 {
      var e := BinMaxIsMax(frames[..last], i);
      if BinMax(frames[..last], i) > frames[last][i] || BinMax(frames[..last], i) == frames[last][i] { k := e; }
      assert forall j :: 0 <= j < last ==> frames[..last][j] == frames[j];
    }
  }

  /** The accumulator and every frame are as wide as the geometry says. */
  ghost predicate Fitted(power: seq<real>, frames: seq<seq<real>>, width: nat) {
    |power| == width && forall k :: 0 <= k < |frames| ==> |frames[k]| == width
  }

  /** The accumulator is the bin-wise maximum of the counted frames. */
  ghost predicate Holds(power: seq<real>, frames: seq<seq<real>>, width: nat) {
    Fitted(power, frames, width) && forall i :: 0 <= i < width ==> power[i] == BinMax(frames, i)
  }

  /** The frames that the accumulator has taken in: it stops at the configured count. */
  function Counted(frames: seq<seq<real>>, count: nat): seq<seq<real>> {
    frames[..if |frames| < count then |frames| else count]
  }

  /** No frame rises above the accumulator's start value. */
  ghost predicate Silent(frames: seq<seq<real>>, width: nat) {
    forall k, i :: 0 <= k < |frames| && 0 <= i < width && i < |frames[k]| ==> frames[k][i] <= SENTINEL
  }

  /** A cleared accumulator is right exactly for silent frames. */
  lemma ClearedIsSilent(frames: seq<seq<real>>, power: seq<real>, width: nat)
    requires Fitted(power, frames, width) && forall i :: 0 <= i < width ==> power[i] == SENTINEL
    ensures Holds(power, frames, width) <==> Silent(frames, width)
  {
    forall i | 0 <= i < width
      ensures power[i] == BinMax(frames, i) <==> forall k :: 0 <= k < |frames| ==> frames[k][i] <= SENTINEL
    {
      BinMaxSilent(frames, i);
    }
    hide BinMax;
    if Holds(power, frames, width) {
      forall k, i | 0 <= k < |frames| && 0 <= i < width
        ensures frames[k][i] <= SENTINEL
      {
        assert power[i] == BinMax(frames, i);
      }
    }
  }

  /** The counter counts the unbroken packets since the last configuration. For a
      finite level capture the accumulator is as wide as the frame and holds their
      maximum until the capture is complete. */
  ghost predicate Kept(finite: bool, actual: Actual, unbroken: bool, power: seq<real>, frames: seq<seq<real>>,
                       width: nat)
  {
    && (if unbroken then actual.packetIndex == |frames| else frames == [])
    && (finite ==>
          && Fitted(power, frames, width)
          && (unbroken ==> Holds(power, Counted(frames, actual.packetCount), width)))
  }

  /** A new width keeps an accumulator that stayed exactly when it is the old one. */
  lemma WidthKeeps(finite: bool, actual: Actual, unbroken: bool, power: seq<real>, frames: seq<seq<real>>,
                   width: nat, now: nat)
    requires Kept(finite, actual, unbroken, power, frames, width)
    ensures Kept(finite, actual, unbroken, power, frames, now) <==> (finite ==> now == width)
  {
  }

  /** An accumulator that was replaced loses nothing exactly when it has the new width
      and no counted frame rises above its start value. */
  lemma ClearedKeeps(finite: bool, actual: Actual, unbroken: bool, power: seq<real>, frames: seq<seq<real>>,
                     width: nat, replaced: bool, cleared: nat, now: nat)
    requires Kept(finite, actual, unbroken, power, frames, width)
    ensures Kept(finite, actual, unbroken, Cleared(replaced, cleared), frames, now) <==>
              (finite ==>
                 && now == (if replaced then cleared else 0)
                 && (frames != [] ==> now == width && Silent(Counted(frames, actual.packetCount), now)))
  {
    var counted := Counted(frames, actual.packetCount);
    var start := Cleared(replaced, cleared);
    if frames == [] {
      assert counted == [];
    } else if finite {
      assert |frames[0]| == width;
    }
    if finite && Fitted(start, frames, now) {
      assert Fitted(start, counted, now);
      ClearedIsSilent(counted, start, now);
    }
  }

  class RtaDevice {
    var info: Info
    var configured: Profile
    var actual: Actual
    var packetContinuity: bool
    /** How many elements the trace and the bitmap buffer have. */
    var traceSize: nat
    var bitmapSize: nat
    var capturePower: seq<real>
    /** False once a status said that the device is gone. */
    var usable: bool
    /** The frames since the last configuration or rollback, while unbroken. */
    ghost var frames: seq<seq<real>>

    /** While a capture runs, the buffers are large enough for its geometry, and counter
        and accumulator are kept. */
    ghost predicate Valid()
      reads this
    {
      usable && actual.valid ==>
        && info.Fits(traceSize, bitmapSize)
        && Kept(configured.FiniteLevel(), actual, packetContinuity, capturePower, frames, info.width)
    }

    constructor ()
      ensures Valid() && usable && actual == Actual(false, 0, 0, 0, -1, 0) && capturePower == []
      ensures info == Info(0, 0, 0, 0, 0, 0) && configured == Profile(false, false, false)
      ensures traceSize == 0 && bitmapSize == 0 && packetContinuity && frames == []
    {
      info, configured := Info(0, 0, 0, 0, 0, 0), Profile(false, false, false);
      traceSize, bitmapSize := 0, 0;
      actual, packetContinuity := Actual(false, 0, 0, 0, -1, 0), true;
      capturePower, usable, frames := [], true, [];
    }

    /** A status of -8 or -9 ends the physical session. */
    method Ended(status: int)
      modifies this`usable
      ensures usable == (old(usable) && !S.Lost(status))
    {
      if status == -8 || status == -9 { usable := false; }
    }

    /** The buffers for the new geometry, in this order. */
    method Assign(memory: Allocation, finite: bool) returns (thrown: bool)
      modifies this`traceSize, this`bitmapSize, this`capturePower
      ensures thrown == memory.Throws(finite)
      ensures traceSize == memory.Trace(old(traceSize), info) && bitmapSize == memory.Bitmap(old(bitmapSize), info)
      ensures capturePower == if thrown then old(capturePower) else Cleared(finite, info.width)
    {
      if memory.TraceThrows? { return true; }
      var points := if info.validPoints < info.samplePoints then info.samplePoints else info.validPoints;
      traceSize := (points + 4096) % 0x1_0000_0000;
      if memory.BitmapThrows? { return true; }
      bitmapSize := info.width * info.height + 65536;
      if memory.CaptureThrows? && finite { return true; }
      capturePower := if finite then seq(info.width, _ => -1000000000000000000000000000000.0) else [];
      thrown := false;
    }

    /** san90_rta_configure. The geometry is replaced before it is checked, the
        buffers before the stream starts, and everything else only at the end. */
    method Configure(a: Answers) returns (o: S.Outcome)
      modifies this
      ensures o == a.Outcome()
      ensures o == S.Returned(0) ==>
                && actual == Actual(true, old(actual).generation + 1, 0,
                                    if a.applied.profile.fixedPoints then a.applied.info.packetCount else 0, -1, 0)
                && configured == a.applied.profile && packetContinuity && frames == [] && usable == old(usable)
      ensures o != S.Returned(0) ==>
                && configured == old(configured) && actual == old(actual)
                && packetContinuity == old(packetContinuity) && frames == old(frames)
                && usable == (old(usable) && (o.Returned? ==> !S.Lost(o.status)))
      ensures info == if a.stop == 0 && a.deinit == 0 then a.applied.info else old(info)
      ensures capturePower == if a.Replaces() then Cleared(a.applied.profile.FiniteLevel(), a.applied.info.width)
                              else old(capturePower)
      ensures traceSize == a.Trace(old(traceSize)) && bitmapSize == a.Bitmap(old(bitmapSize))
    {
      if a.stop != 0 { Ended(a.stop); return S.Returned(a.stop); }
      if a.deinit != 0 { Ended(a.deinit); return S.Returned(a.deinit); }
      info := a.applied.info;
      if a.applied.status != 0 { Ended(a.applied.status); return S.Returned(a.applied.status); }
      if info.width < 2 || info.validPoints < info.width || info.width > 65536 || info.height == 0
         || info.height > 65536 {
        return S.Returned(-102);
      }
      var profile := a.applied.profile;
      var thrown := Assign(a.memory, profile.fixedPoints && profile.level && !profile.retrigger);
      if thrown { return S.Thrown; }
      if a.start != 0 { Ended(a.start); return S.Returned(a.start); }
      configured := a.applied.profile;
      actual := Actual(true, actual.generation + 1, 0, if configured.fixedPoints then info.packetCount else 0, -1, 0);
      packetContinuity := true;
      frames := [];
      o := S.Returned(0);
    }

    /** san90_rta_open_v2 after the device is open. A failed or thrown open leaves no
        valid capture; the dispatcher retires the mode of a thrown one. */
    method Open(argsOk: bool, a: Answers) returns (o: S.Outcome)
      requires Valid() && !actual.valid
      modifies this
      ensures o == if argsOk then a.Outcome() else S.Returned(-100)
      ensures o == S.Returned(0) <==> actual.valid
      // consistent, unless the vendor reports a geometry whose buffer size wraps around
      ensures Valid() <==> (usable && o == S.Returned(0) ==> info.Allotted())
      ensures o == S.Returned(0) ==> frames == [] && packetContinuity && actual.complete == -1
      ensures o == S.Returned(0) ==>
                && configured == a.applied.profile && info == a.applied.info
                && traceSize == info.TraceSize() && bitmapSize == info.BitmapSize()
                && capturePower == Cleared(configured.FiniteLevel(), info.width)
      ensures usable == (old(usable) && (o.Returned? ==> !S.Lost(o.status)))
    {
      if !argsOk { return S.Returned(-100); }
      o := Configure(a);
      AllottedFits(info);
    }

    /** A failed configuration that a rollback answers. */
    static ghost predicate RollsBack(o: S.Outcome) { o.Returned? && o.status != 0 && !S.Lost(o.status) }

    /** What a rollback after the given failure gives back. */
    static ghost function Restored(finite: bool, status: int, b: Rollback): S.Outcome {
      if b.stop != 0 then S.Returned(if S.Lost(b.stop) then b.stop else status)
      else if b.applied.status != 0 then S.Returned(if S.Lost(b.applied.status) then b.applied.status else status)
      else if b.memory.Throws(finite) then S.Thrown
      else S.Returned(if S.Lost(b.start) then b.start else status)
    }

    /** What a reconfiguration gives back. */
    static ghost function Reconfigured(finite: bool, a: Answers, b: Rollback): S.Outcome {
      if RollsBack(a.Outcome()) then Restored(finite, a.Outcome().status, b) else a.Outcome()
    }

    /** The buffers that a thrown reconfiguration leaves are large enough for the
        geometry that was reported last. */
    predicate Roomy(a: Answers, b: Rollback)
      reads this
    {
      var trace, bitmap := a.Trace(traceSize), a.Bitmap(bitmapSize);
      if a.Outcome().Thrown? then a.applied.info.Fits(trace, bitmap)
      else b.applied.info.Fits(b.memory.Trace(trace, b.applied.info), b.memory.Bitmap(bitmap, b.applied.info))
    }

    /** Exactly when the state that a thrown reconfiguration leaves is still consistent:
        nothing is running, or the buffers fit and the capture is not a finite level one,
        or the accumulator also has the width of the geometry that was reported last and
        lost no packet. */
    ghost predicate Survives(a: Answers, b: Rollback)
      reads this
    {
      usable && actual.valid ==>
        && Roomy(a, b)
        && (configured.FiniteLevel() ==>
              var width := (if a.Outcome().Thrown? then a.applied else b.applied).info.width;
              if a.Replaces() then
                && width == (if a.applied.profile.FiniteLevel() then a.applied.info.width else 0)
                && (frames != [] ==> width == info.width && Silent(Counted(frames, actual.packetCount), width))
              else width == info.width)
    }

    /** The same from what the device itself knows: an accumulator that was replaced
        loses nothing while no packet is counted. */
    predicate CertainlySurvives(a: Answers, b: Rollback)
      reads this
    {
      usable && actual.valid ==>
        && Roomy(a, b)
        && (configured.FiniteLevel() ==>
              var width := (if a.Outcome().Thrown? then a.applied else b.applied).info.width;
              if a.Replaces() then
                && width == (if a.applied.profile.FiniteLevel() then a.applied.info.width else 0)
                && (packetContinuity ==> actual.packetIndex == 0)
              else width == info.width)
    }

    /** san90_rta_reconfig_v2: a failure puts the last applied profile back, starts a
        new generation and forgets what was counted. When a buffer cannot be allocated,
        on the way or during the rollback, the old profile and counter stay although
        geometry and buffers may have changed: the state is then consistent exactly
        when it Survives, and a caller that cannot tell has to close the capture. The
        geometry of a rollback is not checked, so even a return is consistent exactly
        when the new buffers cover it. */
    method Reconfigure(argsOk: bool, a: Answers, b: Rollback) returns (o: S.Outcome)
      requires Valid()
      modifies this
      ensures o == if !old(usable) then S.Returned(-8) else if !argsOk then S.Returned(-100)
                   else Reconfigured(old(configured).FiniteLevel(), a, b)
      ensures usable == (old(usable) && (o.Returned? ==> !S.Lost(o.status)))
      ensures o.Returned? && !(argsOk && old(usable)) ==> Valid()
      ensures o.Returned? && argsOk && old(usable) ==> (Valid() <==> (usable && actual.valid ==> info.Allotted()))
      ensures o.Thrown? ==> (Valid() <==> old(Survives(a, b)))
      ensures o == S.Returned(0) ==>
                && configured == a.applied.profile && info == a.applied.info && packetContinuity && frames == []
                && actual.valid && actual.generation == old(actual).generation + 1
                && actual.packetIndex == 0 && actual.complete == -1
      ensures o.Returned? && o.status != 0 && argsOk && usable ==>
                && configured == old(configured) && frames == []
                && actual.packetIndex == 0 && actual.complete == -1
                && (actual.valid <==> old(actual).valid && b.Succeeds())
                && packetContinuity == b.Succeeds()
                && actual.generation == old(actual).generation + (if b.Succeeds() then 1 else 0)
                && (b.Succeeds() ==> info == b.applied.info && traceSize == info.TraceSize())
      ensures o.Thrown? ==>
                && configured == old(configured) && actual == old(actual) && frames == old(frames)
                && packetContinuity == old(packetContinuity) && usable
                && info == (if a.Outcome().Thrown? then a.applied else b.applied).info
                && (a.Outcome().Thrown? ==> traceSize == a.Trace(old(traceSize)))
                && capturePower == if a.Replaces() then Cleared(a.applied.profile.FiniteLevel(), a.applied.info.width)
                                   else old(capturePower)
    {
      if !usable { return S.Returned(-8); }
      if !argsOk { return S.Returned(-100); }
      var previous, previousActual := configured, actual;
      ghost var power, width := capturePower, info.width;
      o := Configure(a);
      AllottedFits(info);
      if !o.Thrown? && o.status != 0 && o.status != -8 && o.status != -9 {
        o := Restore(previous, previousActual, o.status, b);
      }
      if o.Thrown? && actual.valid {
        ghost var finite, replaced := configured.FiniteLevel(), a.applied.profile.FiniteLevel();
        if a.Replaces() {
          ClearedKeeps(finite, actual, packetContinuity, power, frames, width, replaced, a.applied.info.width,
                       info.width);
        } else {
          WidthKeeps(finite, actual, packetContinuity, power, frames, width, info.width);
        }
      }
    }

    /** The rollback: the previous profile is applied again after the given failure. */
    method Restore(previous: Profile, before: Actual, status: int, b: Rollback) returns (o: S.Outcome)
      requires usable && RollsBack(S.Returned(status))
      modifies this
      ensures o == Restored(previous.FiniteLevel(), status, b)
      ensures o.Thrown? ==>
                && configured == old(configured) && actual == old(actual) && frames == old(frames) && usable
                && packetContinuity == old(packetContinuity) && capturePower == old(capturePower)
                && info == b.applied.info
                && traceSize == b.memory.Trace(old(traceSize), info)
                && bitmapSize == b.memory.Bitmap(old(bitmapSize), info)
      ensures b.Succeeds() && o.Returned? ==> info == b.applied.info && traceSize == info.TraceSize()
      ensures o.Returned? ==>
                && configured == previous && frames == [] && packetContinuity == b.Succeeds()
                && (Valid() <==> (usable && actual.valid ==> info.Allotted()))
                && usable == !S.Lost(o.status)
                && actual == before.(packetIndex := 0, complete := -1, lastStatus := status,
                                     generation := before.generation + (if b.Succeeds() then 1 else 0),
                                     valid := before.valid && b.Succeeds())
    {
      var restored := b.stop;
      if restored == 0 {
        info := b.applied.info;
        restored := b.applied.status;
      }
      if restored == 0 {
        var thrown := Assign(b.memory, previous.fixedPoints && previous.level && !previous.retrigger);
        if thrown { return S.Thrown; }
        restored := b.start;
      }
      configured := previous;
      actual := before.(packetIndex := 0, complete := -1, lastStatus := status);
      if restored == 0 { actual := actual.(generation := actual.generation + 1); }
      packetContinuity := restored == 0;
      frames := [];
      if restored != 0 { actual := actual.(valid := false); }
      Ended(restored);
      o := S.Returned(if restored == -8 || restored == -9 then restored else status);
      AllottedFits(info);
    }

    /** Any run after an open. A reconfiguration ends it, by a close, when it throws and
        the state does not certainly survive, or leaves a geometry that new buffers do
        not cover; every other state is consistent. */
    method AnyRun() returns (closed: bool)
      requires Valid()
      modifies this
      ensures !closed ==> Valid()
    {
      closed := false;
      var steps: nat := *;
      while steps > 0 && !closed
        invariant !closed ==> Valid()
      {
        var reconfigure: bool := *;
        var argsOk: bool := *;
        if reconfigure {
          var a: Answers := *;
          var b: Rollback := *;
          var certain := CertainlySurvives(a, b);
          var o := Reconfigure(argsOk, a, b);
          closed := if o.Thrown? then !certain else argsOk && usable && actual.valid && !info.Allotted();
        } else {
          var p: Packet := *;
          if |p.trace| == traceSize {
            var status, power := Next(argsOk, info.width, p);
          }
        }
        steps := steps - 1;
      }
    }

    /** san90_rta_next_v2, when the vendor leaves p.trace in the trace buffer. */
    method Next(argsOk: bool, capacity: nat, p: Packet) returns (status: int, power: seq<real>)
      requires Valid() && |p.trace| == traceSize
      modifies this`actual, this`packetContinuity, this`capturePower, this`usable, this`frames
      ensures Valid() && (status == 0 ==> usable && actual.valid)
      ensures status == if !old(usable) then -8
                        else if !argsOk || capacity < info.width then -100
                        else if !old(actual).valid then -102
                        else if p.status in S.WITH_DATA then 0
                        else p.status
      // only a data packet counts, and only while the sequence is unbroken
      ensures status == 0 && old(packetContinuity) ==>
                packetContinuity && frames == old(frames) + [Frame(p, configured, info)]
                && Peaks(frames[|frames| - 1], p, configured.fixedPoints, info)
      ensures status == 0 && !old(packetContinuity) ==> !packetContinuity && frames == old(frames)
      ensures status != 0 ==> frames == old(frames) || (frames == [] && !packetContinuity)
      // exactly the other statuses but two timeouts break it
      ensures packetContinuity ==
                (old(packetContinuity)
                 && (!old(usable) || !argsOk || capacity < info.width || !old(actual).valid
                     || p.status in S.WITH_DATA || p.status == -10 || p.status == -304))
      // complete: by a closing status, or by count after exactly the configured number
      // of unbroken packets, and then the published trace is their bin-wise maximum
      ensures status == 0 ==>
                (actual.complete == 1 <==>
                 (configured.FiniteLevel() && packetContinuity
                  && (p.status == -301 || p.status == -303
                      || (actual.packetCount > 0 && |frames| == actual.packetCount))))
      ensures status == 0 ==>
                (actual.complete == 0 <==>
                 (configured.FiniteLevel() && packetContinuity && p.status != -301 && p.status != -303
                  && |frames| < actual.packetCount))
      ensures status == 0 && configured.FiniteLevel() && packetContinuity && |frames| <= actual.packetCount ==>
                Published(power)
      ensures status == 0 && !(configured.FiniteLevel() && packetContinuity && |frames| <= actual.packetCount) ==>
                Peaks(power, p, configured.fixedPoints, info)
      ensures status != 0 && actual.valid && usable && argsOk && capacity >= info.width ==> actual.complete == -1
    {
      power := [];
      if !usable { return -8, []; }
      if !argsOk || capacity < info.width { return -100, []; }
      if !actual.valid { return -102, []; }
      if !(p.status == 0 || p.status == -12 || (p.status <= -14 && p.status >= -19)
           || (p.status <= -36 && p.status >= -39) || p.status == -301 || p.status == -302 || p.status == -303) {
        NoData(p.status);
        return p.status, [];
      }
      power := Data(p);
      status := 0;
    }

    /** A status without a packet: most of them break the sequence. */
    method NoData(code: int)
      requires Valid() && usable && actual.valid && !HasData(code)
      modifies this`actual, this`packetContinuity, this`usable, this`frames
      ensures Valid() && actual.valid && actual.complete == -1
      ensures actual == old(actual).(lastStatus := code, complete := -1,
                                     packetIndex := if packetContinuity then old(actual).packetIndex else 0)
      ensures usable == !S.Lost(code)
      ensures packetContinuity == (old(packetContinuity) && KeepsContinuity(code))
      ensures frames == if KeepsContinuity(code) then old(frames) else []
    {
      actual := actual.(lastStatus := code);
      if code != -10 && code != -304 {
        packetContinuity := false;
        frames := [];
      }
      actual := actual.(complete := -1);
      if !packetContinuity { actual := actual.(packetIndex := 0); }
      Ended(code);
    }

    /** The peak of every bin over the traces of the packet. */
    method PeakFrame(p: Packet) returns (frame: seq<real>)
      requires info.Fits(|p.trace|, bitmapSize)
      ensures frame == Frame(p, configured, info) && Peaks(frame, p, configured.fixedPoints, info)
    {
      FrameIsPeaks(p, configured, info, bitmapSize);
      hide Peaks, PeakOver;
      frame := [];
      for i := 0 to info.width
        invariant |frame| == i && frame == Frame(p, configured, info)[..i]
      {
        var peak := BinPeak(p, i);
        frame := frame + [peak];
      }
    }

    /** The loop starts from trace 0 and takes in every further one. */
    method BinPeak(p: Packet, i: nat) returns (peak: real)
      requires info.Fits(|p.trace|, bitmapSize) && i < info.width
      ensures TracesRead(configured, info) * info.width <= |p.trace|
      ensures peak == PeakOver(p, info.width, i, TracesRead(configured, info))
    {
      var traces := 1;
      if configured.fixedPoints {
        traces := info.validPoints / info.width;
        if info.packetFrame < traces { traces := info.packetFrame; }
      }
      ghost var n := TracesRead(configured, info);
      assert n == if traces < 1 then 1 else traces;
      ReadsInside(configured, info, |p.trace|, bitmapSize, 0, i);
      hide TracesRead, TracesIn, PeakOver, Level;
      peak := Level(p, i);
      var trace := 1;
      FirstPeak(p, info.width, i);
      while trace < traces
        invariant 1 <= trace <= n
        invariant trace * info.width <= |p.trace| && peak == PeakOver(p, info.width, i, trace)
      {
        TraceBefore(info.width, trace, n);
        NextPeak(p, info.width, i, trace);
        var sample := Level(p, trace * info.width + i);
        if peak < sample { peak := sample; }
        trace := trace + 1;
      }
    }

    /** A packet with data: published, counted and, at the end, complete. */
    method Data(p: Packet) returns (power: seq<real>)
      requires Valid() && usable && actual.valid && HasData(p.status) && |p.trace| == traceSize
      modifies this`actual, this`capturePower, this`frames
      ensures Valid() && actual.valid
      ensures frames == if packetContinuity then old(frames) + [Frame(p, configured, info)] else old(frames)
      ensures packetContinuity ==> Peaks(frames[|frames| - 1], p, configured.fixedPoints, info)
      // outside a running finite level capture the packet's own peaks are shown
      ensures !(configured.FiniteLevel() && packetContinuity && |frames| <= actual.packetCount) ==>
                Peaks(power, p, configured.fixedPoints, info)
      ensures actual == old(actual).(lastStatus := p.status, complete := actual.complete,
                                     packetIndex := old(actual).packetIndex + if packetContinuity then 1 else 0)
      ensures actual.complete == 1 <==>
                (configured.FiniteLevel() && packetContinuity
                 && (p.status == -301 || p.status == -303
                     || (actual.packetCount > 0 && |frames| == actual.packetCount)))
      // between: a finite level capture that still misses packets; otherwise unknown
      ensures actual.complete == 0 <==>
                (configured.FiniteLevel() && packetContinuity && p.status != -301 && p.status != -303
                 && |frames| < actual.packetCount)
      ensures -1 <= actual.complete <= 1
      ensures configured.FiniteLevel() && packetContinuity && |frames| <= actual.packetCount ==> Published(power)
    {
      hide BinMax, Frame, Peaks;
      ghost var before := frames;
      var frame := PeakFrame(p);
      power := Accumulate(frame);
      actual := actual.(lastStatus := p.status);
      if packetContinuity {
        actual := actual.(packetIndex := actual.packetIndex + 1);
        frames := frames + [frame];
      }
      actual := actual.(complete := Completion(p.status));
      KeepAll(frames);
      if packetContinuity && |before| >= actual.packetCount {
        assert frames[..actual.packetCount] == before[..actual.packetCount];
      }
    }

    /** The published trace is the bin-wise maximum of the frames so far. */
    ghost predicate Published(power: seq<real>)
      reads this
    {
      && (forall k :: 0 <= k < |frames| ==> |frames[k]| == info.width)
      && |power| == info.width && forall i :: 0 <= i < info.width ==> power[i] == BinMax(frames, i)
    }

    function Completion(code: int): int
      reads this
    {
      if packetContinuity && configured.FiniteLevel() && (code == -301 || code == -303) then 1
      else if packetContinuity && configured.FiniteLevel() && actual.packetCount > 0
              && actual.packetIndex <= actual.packetCount
      then (if actual.packetIndex == actual.packetCount then 1 else 0)
      else -1
    }

    /** Folds one frame into the accumulator while the capture is still open. */
    method Accumulate(frame: seq<real>) returns (power: seq<real>)
      requires Valid() && usable && actual.valid && |frame| == info.width
      modifies this`capturePower
      ensures |power| == info.width
      ensures configured.FiniteLevel() && packetContinuity && actual.packetIndex < actual.packetCount ==>
                && |capturePower| == info.width && power == capturePower
                && |frames| < actual.packetCount
                && (forall k :: 0 <= k < |frames| ==> |frames[k]| == info.width)
                && forall i :: 0 <= i < info.width ==> capturePower[i] == BinMax(frames + [frame], i)
      ensures !(configured.FiniteLevel() && packetContinuity && actual.packetIndex < actual.packetCount) ==>
                power == frame && capturePower == old(capturePower)
    {
      if !(configured.fixedPoints && !configured.retrigger && configured.level && packetContinuity
           && actual.packetIndex < actual.packetCount) {
        return frame;
      }
      ghost var before := capturePower;
      assert frames[..|frames|] == frames;
      power := frame;
      for i := 0 to info.width
        invariant |power| == info.width && |capturePower| == info.width
        invariant forall k :: i <= k < info.width ==> power[k] == frame[k] && capturePower[k] == before[k]
        invariant forall k :: 0 <= k < i ==> power[k] == capturePower[k] == BinMax(frames + [frame], k)
      {
        BinMaxAppend(frames, frame, i);
        capturePower := capturePower[i := Max(capturePower[i], power[i])];
        power := power[i := capturePower[i]];
      }
    }
  }

  /** A finite level capture of four bins and one trace per packet. */
  const LEVEL_CAPTURE: Answers :=
    Answers(0, 0, Applied(0, Profile(true, true, false), Info(4, 1, 4, 4, 1, 10)), Enough, 0)

  /** The same geometry without a trigger level; the stream then refuses to start. */
  const REFUSED_STREAM: Answers :=
    Answers(0, 0, Applied(0, Profile(true, false, false), Info(4, 1, 4, 4, 1, 10)), Enough, -5)

  /** A capture of the same width with 2000 traces per packet, and no memory for them. */
  const LARGER_PACKETS: Answers :=
    Answers(0, 0, Applied(0, Profile(true, true, false), Info(4, 1, 8000, 8000, 2000, 10)), TraceThrows, 0)

  /** A rollback that succeeds, with traces longer than the buffer that it allocates. */
  const LONG_TRACES: Rollback :=
    Rollback(0, Applied(0, Profile(true, true, false), Info(9000, 1, 4, 4, 1, 10)), Enough, 0)

  /** A run that breaks the accumulator: the refused profile has cleared it, the old
      profile is applied again, and the trace buffer cannot be allocated. The old
      capture is still marked valid, on a usable device, without an accumulator. */
  method LosesAccumulator() returns (device: RtaDevice)
    ensures fresh(device) && device.usable && device.actual.valid && device.configured.FiniteLevel()
    ensures |device.capturePower| == 0 < device.info.width && !device.Valid()
  {
    device := new RtaDevice();
    var started := device.Open(true, LEVEL_CAPTURE);
    var rollback := Rollback(0, LEVEL_CAPTURE.applied, TraceThrows, 0);
    assert REFUSED_STREAM.Replaces() && !device.Survives(REFUSED_STREAM, rollback);
    var changed := device.Reconfigure(true, REFUSED_STREAM, rollback);
    assert changed == S.Thrown && device.info == LEVEL_CAPTURE.applied.info;
  }

  /** A run that outgrows the trace buffer: the larger geometry is already in place when
      its buffer cannot be allocated. The accumulator still fits, but the next frame would
      read 8000 points from the old buffer. */
  method OutgrowsTrace() returns (device: RtaDevice)
    ensures fresh(device) && device.usable && device.actual.valid && |device.capturePower| == device.info.width
    ensures TracesRead(device.configured, device.info) * device.info.width == 8000 > device.traceSize
    ensures !device.Valid()
  {
    device := new RtaDevice();
    var started := device.Open(true, LEVEL_CAPTURE);
    var changed := device.Reconfigure(true, LARGER_PACKETS, LONG_TRACES);
    assert changed == S.Thrown && device.info == LARGER_PACKETS.applied.info;
  }

  /** The same without an exception: the geometry of a rollback is not checked. */
  method OutgrowsRollback() returns (device: RtaDevice)
    ensures fresh(device) && device.usable && device.actual.valid
    ensures TracesRead(device.configured, device.info) * device.info.width == 9000 > device.traceSize
    ensures !device.Valid()
  {
    device := new RtaDevice();
    var started := device.Open(true, LEVEL_CAPTURE);
    var changed := device.Reconfigure(true, REFUSED_STREAM, LONG_TRACES);
    assert LONG_TRACES.Succeeds() && device.info == LONG_TRACES.applied.info;
  }

  lemma KeepAll(frames: seq<seq<real>>)
    ensures frames[..|frames|] == frames
  {
  }
}
