/** The SDK session: a single-flight dispatcher in front of one worker, and the
    life of the physical device handle under any vendor status.

    A vendor call can return any status. A status of -8 or -9 means that the device
    is gone: its handle may never be used again, not even to close it. Every vendor
    call below requires a live handle, so no run can use a lost or closed one. */
module San90Session {
  import opened Channelizer

  ghost predicate Lost(status: int) { status == -8 || status == -9 }

  datatype Kind = Iqs | Rta | Swp | Pnm

  /** What a call of the vendor library does. The Signal steps stand for its
      signal-processing objects, which are not the device. */
  datatype Step = DeviceOpen | DeviceState | DeviceClose | Stop | Reset | Apply | Start | Fetch | Snapshot
                | SignalOpen | SignalReset | SignalApply | Signal

  /** One vendor call: its status, and the number of the first check that what it
      delivered fails, or 0. */
  datatype Call = Call(step: Step, status: int, flaw: nat)

  /** The wrapper object of an open mode. */
  class Mode {
    const kind: Kind
    var handle: Option<nat>
    var triggered: bool
    var dsp: bool
    /** A real-time profile is applied and streaming. */
    var valid: bool
    var started: bool
    var doneCount: nat
    var stall: nat
    const partialUpdates: nat

    constructor (kind: Kind, partialUpdates: nat)
      ensures this.kind == kind && handle.None? && !triggered && !dsp && !valid && !started
      ensures this.partialUpdates == partialUpdates && doneCount == 0 && stall == 0
    {
      this.kind, this.partialUpdates := kind, partialUpdates;
      handle, triggered, dsp, valid, started, doneCount, stall := None, false, false, false, false, 0, 0;
    }
  }

  /** What one operation gives back: a status, or an exception. */
  datatype Outcome = Returned(status: int) | Thrown

  /** IQ samples alone, or with a spectrum for which there is room or not. */
  datatype Want = Samples | Spectrum(room: bool)

  datatype Op =
    | Open(kind: Kind, argsOk: bool)
    | Next(mode: Mode, argsOk: bool, want: Want)
    | Reconfigure(mode: Mode, argsOk: bool)
    | Arm(mode: Mode)
    | Query(mode: Mode, argsOk: bool)
    | Close(mode: Mode)
    | Invalidate(mode: Mode, abandon: bool)
    | ReleaseIdle
    | Finish(force: bool)

  /** A call names the mode it is for; open, release and finish name none. */
  ghost function Target(op: Op): Option<Mode> {
    match op
    case Next(m, _, _) => Some(m)
    case Reconfigure(m, _) => Some(m)
    case Arm(m) => Some(m)
    case Query(m, _) => Some(m)
    case Close(m) => Some(m)
    case Invalidate(m, _) => Some(m)
    case _ => None
  }

  // ------------------------------------------------------- configurations

  /** The vendor calls of a configuration, in order. */
  datatype Script = End | Then(step: Step, next: Script)

  /** A configuration opens a mode, changes it, or restores its last profile. */
  datatype Setup = Opening(kind: Kind) | Changing(kind: Kind) | Restoring(kind: Kind)

  /** An IQ stream stops, goes through a default sweep profile, and is set up. */
  ghost function IqsScript(triggered: bool, next: Script): Script {
    var tune := Then(Reset, Then(Apply, Then(Reset, Then(Apply, next))));
    if triggered then Then(Stop, tune) else tune
  }

  ghost function ScriptOf(setup: Setup, triggered: bool): Script {
    match setup
    case Opening(Iqs) => Then(SignalOpen, Then(SignalReset, Then(SignalApply, IqsScript(triggered, End))))
    case Changing(Iqs) => IqsScript(triggered, Then(Start, End))
    case Restoring(Rta) => Then(Stop, Then(Apply, Then(Start, End)))
    case Restoring(_) => Then(Apply, End)
    case _ =>
      if setup.kind == Rta then Then(Stop, Then(Reset, Then(Apply, Then(Start, End))))
      else Then(Reset, Then(Apply, End))
  }

  /** How the program refuses what a call delivered, when `next` is left to do. A profile
      that is only passed through is not looked at. */
  ghost function Refusal(setup: Setup, next: Script, c: Call): int {
    if setup.Restoring? || c.flaw == 0 then 0
    else if c.step.SignalApply? then -106
    else if !c.step.Apply? || (next.Then? && next.step.Reset?) then 0
    else if setup.kind == Iqs && c.flaw == 2 then -104
    else if setup.kind == Iqs && c.flaw > 2 then -105
    else -102
  }

  /** Going: `rest` is left to do, after `tries` timeouts of its first call. Ended: a call
      failed or was refused. Astray: a call that the script does not allow. */
  datatype Progress = Going(rest: Script, tries: nat) | Ended(o: Outcome) | Astray

  /** Bus timeouts of an Apply are repeated up to five times in all, except for phase noise
      and when a profile is restored. An IQ stream that cannot be stopped goes on, unless
      the device is lost. Every other failure ends the configuration. */
  ghost function Advance(setup: Setup, p: Progress, c: Call): Progress {
    match p
    case Going(Then(step, next), tries) =>
      if c.step != step then Astray
      else if !setup.Restoring? && setup.kind != Pnm && step == Apply && c.status in {-10, -11} && tries < 4 then
        Going(p.rest, tries + 1)
      else if c.status != 0 && !(setup.kind == Iqs && step == Stop && !Lost(c.status)) then Ended(Returned(c.status))
      else if Refusal(setup, next, c) != 0 then Ended(Returned(Refusal(setup, next, c)))
      else Going(next, 0)
    case _ => Astray
  }

  ghost function Onward(setup: Setup, p: Progress, made: seq<Call>): Progress {
    if made == [] then p else Advance(setup, Onward(setup, p, made[..|made| - 1]), made[|made| - 1])
  }

  lemma OnwardNext(setup: Setup, p: Progress, made: seq<Call>, c: Call)
    ensures Onward(setup, p, made + [c]) == Advance(setup, Onward(setup, p, made), c)
  {
    assert (made + [c])[..|made|] == made;
  }

  lemma OnwardOne(setup: Setup, p: Progress, c: Call)
    ensures Onward(setup, p, [c]) == Advance(setup, p, c)
  {
    assert Onward(setup, p, [c][..0]) == p;
  }

  lemma {:induction false} OnwardJoin(setup: Setup, p: Progress, a: seq<Call>, b: seq<Call>)
    ensures Onward(setup, p, a + b) == Onward(setup, Onward(setup, p, a), b)
  {
    if b == [] {
      assert a + b == a;
    } else {
      var last := |b| - 1;
      OnwardJoin(setup, p, a, b[..last]);
      assert (a + b)[..|a + b| - 1] == a + b[..last];
    }
  }

  /** Memory can run out before a sweep is opened, before a real-time stream starts, and at
      the end of a phase-noise configuration. */
  ghost predicate Concludes(setup: Setup, p: Progress, o: Outcome) {
    match p
    case Going(rest, tries) =>
      if o.Thrown? then
        || (setup == Opening(Swp) && rest == ScriptOf(setup, false) && tries == 0)
        || (setup.kind == Rta && rest == Then(Start, End))
        || (setup.kind == Pnm && rest == End)
      else rest == End && o == Returned(0)
    case Ended(x) => o == x
    case Astray => false
  }

  /** The calls are a whole configuration, which ended this way. */
  ghost predicate Configured(setup: Setup, triggered: bool, made: seq<Call>, o: Outcome) {
    Concludes(setup, Onward(setup, Going(ScriptOf(setup, triggered), 0), made), o)
  }

  // ------------------------------------------------ what a caller is told

  /** The session between two operations: the active mode, whether the device can be used
      and is to be closed, and how far the mode has come. */
  datatype Situation = Situation(active: Mode?, usable: bool, invalidated: bool, triggered: bool, dsp: bool,
                                 valid: bool, started: bool)

  /** No mode is open. */
  ghost function Idle(usable: bool): Situation { Situation(null, usable, false, false, false, false, false) }

  /** An IF overflow is a warning that comes with data. */
  const OVERFLOW := -12

  /** Statuses of real-time packets that come with data. */
  const WITH_DATA: set<int> := {0, -12, -14, -15, -16, -17, -18, -19, -36, -37, -38, -39, -301, -302, -303}

  ghost function FirstFailure(made: seq<Call>): int {
    if made == [] then 0 else if made[0].status != 0 then made[0].status else FirstFailure(made[1..])
  }

  ghost predicate IqsNext(want: Want, made: seq<Call>, status: int) {
    made != [] && made[0].step == Fetch &&
    var c := made[0];
    if c.status != 0 && c.status != OVERFLOW then |made| == 1 && status == c.status
    else if c.flaw != 0 then |made| == 1 && status == -103
    else if want.Samples? then |made| == 1 && status == 0
    else if !want.room then |made| == 1 && status == -107
    else
      |made| == 2 && made[1].step == Signal &&
      var d := made[1];
      status == if d.status != 0 && d.status != OVERFLOW then d.status else if d.flaw != 0 then -103 else 0
  }

  ghost predicate SwpNext(made: seq<Call>, status: int) {
    made != [] && made[0].step == Fetch &&
    var c := made[0];
    if c.status != 0 && c.status != OVERFLOW then |made| == 1 && status == c.status
    else if c.flaw != 0 then |made| == 1 && status == if c.status != 0 then c.status else -103
    else
      |made| == 2 && made[1].step == Signal &&
      var cut := made[1].flaw;
      status == if cut == 0 then c.status else if cut == 1 then -108 else if cut == 2 then -103 else -109
  }

  /** Phase noise: a failing start has its own range of codes, a lost device its own, and
      any other failing update means that there is nothing new yet. */
  ghost predicate PnmNext(started: bool, made: seq<Call>, status: int) {
    made != [] && (!started ==> made[0].step == Start) &&
    if !started && made[0].status != 0 then
      |made| == 1 && status == if Lost(made[0].status) then made[0].status else 2000000 + made[0].status
    else
      |made| == (if started then 1 else 2) && made[|made| - 1].step == Fetch &&
      var update := made[|made| - 1].status;
      status == if update == 0 then 0 else if Lost(update) then update else 1
  }

  ghost predicate NextReports(kind: Kind, started: bool, want: Want, made: seq<Call>, status: int) {
    match kind
    case Iqs => IqsNext(want, made, status)
    case Rta =>
      |made| == 1 && made[0].step == Fetch && status == if made[0].status in WITH_DATA then 0 else made[0].status
    case Swp => SwpNext(made, status)
    case Pnm => PnmNext(started, made, status)
  }

  /** The calls that end a mode: its stream stops, its signal object and the device close. */
  ghost predicate Shutdown(stops: bool, signal: bool, closes: bool, made: seq<Call>) {
    var mid := if stops then 1 else 0;
    var end := if signal then mid + 1 else mid;
    && |made| == (if closes then end + 1 else end)
    && (stops ==> made[0].step == Stop) && (signal ==> made[mid].step == Signal)
    && (closes ==> made[end].step == DeviceClose)
  }

  /** After a failed open everything that was begun ends, and the device closes unless it
      is lost. */
  ghost predicate CleanedUp(kind: Kind, dsp: bool, status: int, made: seq<Call>) {
    var stops := kind == Rta && !Lost(status);
    (stops ==> made != []) && Shutdown(stops, dsp, !Lost(status) && !(stops && Lost(made[0].status)), made)
  }

  /** The first n calls configure the new mode; what follows a failure cleans up. */
  ghost predicate Started(kind: Kind, made: seq<Call>, n: nat, o: Outcome) {
    && n <= |made| && Configured(Opening(kind), false, made[..n], o)
    && if o.Thrown? || o.status == 0 then n == |made|
       else CleanedUp(kind, kind == Iqs && n > 0 && made[0].status == 0, o.status, made[n..])
  }

  ghost predicate OpenReports(kind: Kind, argsOk: bool, s: Situation, made: seq<Call>, o: Outcome) {
    if !argsOk then made == [] && o == Returned(-100)
    else if s.active != null then made == [] && o == Returned(-110)
    else if s.usable then exists n :: Started(kind, made, n, o)
    else
      made != [] && made[0].step == DeviceOpen &&
      if made[0].status != 0 && made[0].status != -49 then |made| == 1 && o == Returned(made[0].status)
      else
        |made| > 1 && made[1].step == DeviceState &&
        if Lost(made[1].status) then |made| == 2 && o == Returned(made[1].status)
        else exists n :: Started(kind, made[2..], n, o)
  }

  /** A success leaves the new mode, configured. A failed configuration closed the device. */
  ghost predicate OpenLeaves(kind: Kind, argsOk: bool, s: Situation, o: Outcome, after: Situation) {
    if o.Thrown? then after.active != null && after.usable
    else if o.status == 0 then
      && after == Situation(after.active, true, false, false, kind == Iqs, kind == Rta, false)
      && after.active != null && after.active.kind == kind
    else after == if !argsOk || s.active != null then s else Idle(false)
  }

  /** A real-time or sweep configuration that fails, without losing the device, is followed
      by a rollback. Its loss of the device, or an exception, replaces the status; a failed
      one leaves no valid real-time profile, or a device that is to be closed. */
  ghost predicate Changed(kind: Kind, s: Situation, made: seq<Call>, n: nat, first: Outcome, second: Outcome,
                          o: Outcome, after: Situation)
  {
    && n <= |made| && Configured(Changing(kind), false, made[..n], first)
    && if first.Thrown? || first.status == 0 || Lost(first.status) then
         n == |made| && o == first && after == s.(valid := s.valid || (kind == Rta && first == Returned(0)))
       else
         && Configured(Restoring(kind), false, made[n..], second)
         && o == (if second.Thrown? || Lost(second.status) then second else first)
         && after == s.(valid := s.valid && (kind == Rta ==> second.Thrown? || second.status == 0),
                        invalidated := s.invalidated || (kind == Swp && second.Returned? && second.status != 0
                                                         && !Lost(second.status)))
  }

  ghost predicate ReconfigureReports(kind: Kind, s: Situation, made: seq<Call>, o: Outcome, after: Situation) {
    match kind
    case Iqs =>
      && Configured(Changing(Iqs), s.triggered, made, o) && made != []
      && after == s.(triggered := if made[0].step == Stop && Lost(made[0].status) then s.triggered
                                  else o == Returned(0))
    case Pnm => made == [] && o == Returned(-100) && after == s
    case _ => exists n, first, second :: Changed(kind, s, made, n, first, second, o, after)
  }

  /** Closing a mode stops what it runs. The device closes when it was to be closed, or did
      not stop; a lost one is only forgotten. */
  ghost predicate CloseReports(kind: Kind, s: Situation, made: seq<Call>, o: Outcome, after: Situation) {
    var stops := s.usable && (kind == Rta || kind == Pnm || (kind == Iqs && s.triggered));
    (stops ==> made != []) &&
    var failed := s.invalidated || (stops && made[0].status != 0);
    && Shutdown(stops, kind == Iqs && s.dsp, s.usable && failed && !(stops && Lost(made[0].status)), made)
    && o == Returned(FirstFailure(made)) && after == Idle(s.usable && !failed)
  }

  /** What an operation gives back and leaves, from what it found and the calls it made. */
  ghost predicate Reports(op: Op, s: Situation, made: seq<Call>, o: Outcome, after: Situation) {
    if Target(op).Some? && Target(op).value != s.active then made == [] && o == Returned(-110) && after == s
    else match op
      case Open(kind, argsOk) => OpenReports(kind, argsOk, s, made, o) && OpenLeaves(kind, argsOk, s, o, after)
      case Next(m, argsOk, want) =>
        && after == s.(started := after.started) && (m.kind != Pnm ==> after == s)
        && if !s.usable then made == [] && o == Returned(-8) && after == s
           else if !argsOk || (m.kind == Iqs && !s.triggered) then made == [] && o == Returned(-100) && after == s
           else if m.kind == Rta && !s.valid then made == [] && o == Returned(-102)
           else o.Returned? && NextReports(m.kind, s.started, want, made, o.status)
      case Reconfigure(m, argsOk) =>
        if !s.usable then made == [] && o == Returned(-8) && after == s
        else if !argsOk then made == [] && o == Returned(-100) && after == s
        else ReconfigureReports(m.kind, s, made, o, after)
      case Arm(m) =>
        && after == s.(triggered := s.triggered || o == Returned(0))
        && if !s.usable then made == [] && o == Returned(-8)
           else if s.triggered then made == [] && o == Returned(0)
           else |made| == 1 && made[0].step == Start && o == Returned(made[0].status)
      case Query(m, argsOk) =>
        && after == s
        && if !s.usable then made == [] && o == Returned(-8)
           else if !argsOk then made == [] && o == Returned(-100)
           else |made| == 1 && made[0].step == Snapshot && o == Returned(made[0].status)
      case Close(m) => CloseReports(m.kind, s, made, o, after)
      case Invalidate(m, abandon) =>
        made == [] && o == Returned(0) && after == s.(invalidated := true, usable := s.usable && !abandon)
      case ReleaseIdle =>
        && after == (if s.active == null && o == Returned(0) then Idle(false) else s)
        && if s.active != null then made == [] && o == Returned(-110)
           else if !s.usable then made == [] && o == Returned(0)
           else |made| == 1 && made[0].step == DeviceClose && o == Returned(made[0].status)
      case Finish(force) => FinishReports(force, s, made, o, after)
  }

  /** A forced finish closes the mode first; the device then closes if it is still open. */
  ghost predicate FinishReports(force: bool, s: Situation, made: seq<Call>, o: Outcome, after: Situation) {
    if s.active != null && !force then made == [] && o == Returned(-110) && after == s
    else
      && after == Idle(false)
      && if s.active == null then
           if s.usable then |made| == 1 && made[0].step == DeviceClose && o == Returned(made[0].status)
           else made == [] && o == Returned(0)
         else
           exists usable, n: nat :: n <= |made| && RetiredBy(s, made[..n], usable) &&
             if usable then |made| == n + 1 && made[n].step == DeviceClose && o == Returned(made[n].status)
             else |made| == n && o == Returned(0)
  }

  /** These calls close the active mode and leave a device that can be used, or none. */
  ghost predicate RetiredBy(s: Situation, made: seq<Call>, usable: bool) {
    s.active != null && exists o :: CloseReports(s.active.kind, s, made, o, Idle(usable))
  }

  /** An open that does not reach the configuration leaves the session as it was. */
  lemma OpenRefused(kind: Kind, argsOk: bool, s: Situation, made: seq<Call>, status: int)
    requires status != 0 && (s.active == null ==> s == Idle(s.usable)) && (argsOk && s.active == null ==> !s.usable)
    requires OpenReports(kind, argsOk, s, made, Returned(status))
    ensures Reports(Open(kind, argsOk), s, made, Returned(status), s)
  {
  }

  /** An open that reached it, on a device that was open or that it opened. */
  lemma OpenStarted(kind: Kind, s: Situation, opening: seq<Call>, rest: seq<Call>, n: nat, o: Outcome, after: Situation)
    requires s.active == null && Started(kind, rest, n, o) && OpenLeaves(kind, true, s, o, after)
    requires if s.usable then opening == []
             else |opening| == 2 && opening[0].step == DeviceOpen && opening[0].status in {0, -49}
                  && opening[1].step == DeviceState && !Lost(opening[1].status)
    ensures Reports(Open(kind, true), s, opening + rest, o, after)
  {
    hide Started, OpenLeaves;
    assert (opening + rest)[|opening|..] == rest;
  }

  lemma FinishForced(s: Situation, retiring: seq<Call>, retired: Outcome, usable: bool, last: seq<Call>, status: int)
    requires s.active != null && CloseReports(s.active.kind, s, retiring, retired, Idle(usable))
    requires if usable then last == [Call(DeviceClose, status, 0)] else last == [] && status == 0
    ensures FinishReports(true, s, retiring + last, Returned(status), Idle(false))
  {
    hide CloseReports;
    assert RetiredBy(s, retiring, usable);
    assert (retiring + last)[..|retiring|] == retiring;
  }

  lemma {:induction false} FirstFailureNext(made: seq<Call>, c: Call)
    ensures FirstFailure(made + [c]) == if FirstFailure(made) != 0 then FirstFailure(made) else c.status
  {
    if made == [] {
      assert FirstFailure([c][1..]) == 0;
    } else {
      assert (made + [c])[1..] == made[1..] + [c];
      FirstFailureNext(made[1..], c);
    }
  }

  /** A close stops, closes the signal object and closes the device, as far as each is due. */
  lemma InThisOrder(kind: Kind, s: Situation, stop: seq<Call>, signal: seq<Call>, last: seq<Call>)
    requires if s.usable && (kind == Rta || kind == Pnm || (kind == Iqs && s.triggered)) then
               |stop| == 1 && stop[0].step == Stop
             else stop == []
    requires if kind == Iqs && s.dsp then |signal| == 1 && signal[0].step == Signal else signal == []
    requires if s.usable && (s.invalidated || (stop != [] && stop[0].status != 0))
                && !(stop != [] && Lost(stop[0].status)) then
               |last| == 1 && last[0].step == DeviceClose
             else last == []
    ensures CloseReports(kind, s, stop + signal + last,
                         Returned(if stop != [] && stop[0].status != 0 then stop[0].status
                                  else if signal != [] && signal[0].status != 0 then signal[0].status
                                  else if last != [] then last[0].status else 0),
                         Idle(s.usable && !s.invalidated && !(stop != [] && stop[0].status != 0)))
  {
    OneMore([], stop);
    OneMore(stop, signal);
    OneMore(stop + signal, last);
    assert [] + stop == stop;
    hide FirstFailure;
  }

  lemma OneMore(made: seq<Call>, more: seq<Call>)
    requires |more| <= 1
    ensures FirstFailure([]) == 0
    ensures FirstFailure(made + more) == if FirstFailure(made) != 0 || more == [] then FirstFailure(made)
                                         else more[0].status
  {
    if more == [] {
      assert made + more == made;
    } else {
      FirstFailureNext(made, more[0]);
      assert more == [more[0]];
    }
  }

  /** What a caller is given for an outcome. */
  ghost function Published(o: Outcome): int { if o.Thrown? then -101 else o.status }

  /** What the worker leaves: after an exception a mode that it opened is gone, with its
      device, and another one is marked; a lost device is forgotten. */
  ghost function Settled(s: Situation, o: Outcome, after: Situation): Situation {
    var left := if !o.Thrown? then after else if s.active == null then Idle(false) else after.(invalidated := true);
    if Lost(Published(o)) then left.(usable := false) else left
  }

  /** One executed operation. */
  datatype Report = Report(op: Op, situation: Situation, made: seq<Call>, outcome: Outcome, after: Situation) {
    ghost predicate Right() { Reports(op, situation, made, outcome, after) }

    /** What the worker leaves after it. */
    ghost function Left(): Situation { Settled(situation, outcome, after) }
  }

  /** The situation after these operations, from a session that has never been used. */
  ghost function After(log: seq<Report>): Situation {
    if log == [] then Idle(false) else log[|log| - 1].Left()
  }

  /** Every operation found what the one before it left, and did what it should. */
  ghost predicate Chained(log: seq<Report>) {
    forall i :: 0 <= i < |log| ==> log[i].Right() && log[i].situation == After(log[..i])
  }

  lemma ChainedNext(log: seq<Report>, r: Report)
    requires Chained(log) && r.Right() && r.situation == After(log)
    ensures Chained(log + [r]) && After(log + [r]) == r.Left()
  {
    hide Report.Right, After, Report.Left;
    var more := log + [r];
    LastOf(log, r);
    forall i | 0 <= i < |more|
      ensures more[i].Right() && more[i].situation == After(more[..i])
    {
      if i < |log| { assert more[..i] == log[..i]; } else { assert more[..i] == log; }
    }
  }

  lemma LastOf(log: seq<Report>, r: Report)
    ensures After(log + [r]) == r.Left()
  {
  }

  class Session {
    var handle: Option<nat>
    var healthy: bool
    var invalidate: bool
    var active: Mode?
    /** Handles that may be used, handles that were closed, and the next new one. */
    ghost var alive: set<nat>
    ghost var closed: set<nat>
    var nextHandle: nat
    /** Every vendor call so far. */
    ghost var calls: seq<Call>

    // the dispatcher
    var holder: Option<nat>
    var tickets: nat
    var request: Op
    var waiting: bool
    var operation: Option<Op>
    var running: bool
    var result: int
    var stopping: bool
    ghost var submitted: map<nat, Op>
    ghost var executed: map<nat, int>
    ghost var answered: map<nat, int>
    ghost var reports: map<nat, Report>
    /** Every executed operation, in order. */
    ghost var log: seq<Report>

    // ------------------------------------------------------- the device

    predicate Usable()
      reads this`healthy, this`handle
    {
      healthy && handle.Some?
    }

    ghost function Now(): (s: Situation)
      reads this`active, this`healthy, this`handle, this`invalidate, active
      ensures s.active == active
    {
      if active == null then Situation(null, Usable(), invalidate, false, false, false, false)
      else Situation(active, Usable(), invalidate, active.triggered, active.dsp, active.valid, active.started)
    }

    /** Everything but that the current handle is alive. */
    ghost predicate Core()
      reads this`handle, this`healthy, this`invalidate, this`active, this`alive, this`closed, this`nextHandle, active
    {
      && (healthy <==> handle.Some?)
      && (active != null ==> active.handle.Some? && (handle.Some? ==> active.handle == handle))
      && (active == null ==> !invalidate)
      && alive !! closed
      && (handle.Some? ==> handle.value !in closed && handle.value < nextHandle)
      && (forall h :: h in alive || h in closed ==> h < nextHandle)
    }

    ghost predicate Live()
      reads this`handle, this`alive
    {
      handle.Some? ==> handle.value in alive
    }

    ghost predicate Valid()
      reads this`handle, this`healthy, this`invalidate, this`active, this`alive, this`closed, this`nextHandle, active
    {
      Core() && Live()
    }

    /** A vendor call on the device of the active mode. A lost device is never alive again. */
    method Vendor(step: Step) returns (status: int, flaw: nat)
      requires Core() && Live() && Usable() && active != null
      modifies this`alive, this`calls
      ensures Core() && alive == old(alive) - if Lost(status) then {handle.value} else {}
      ensures calls == old(calls) + [Call(step, status, flaw)]
    {
      status, flaw := *, *;
      if status == -8 || status == -9 { alive := alive - {handle.value}; }
      calls := calls + [Call(step, status, flaw)];
    }

    /** A call on a signal-processing object. */
    method Process(step: Step) returns (status: int, flaw: nat)
      modifies this`calls
      ensures calls == old(calls) + [Call(step, status, flaw)]
    {
      status, flaw := *, *;
      calls := calls + [Call(step, status, flaw)];
    }

    /** Configuration calls are repeated up to five times on bus timeouts. */
    method RetryBus(ghost setup: Setup, ghost next: Script) returns (status: int, flaw: nat, ghost made: seq<Call>)
      requires Core() && Live() && Usable() && active != null
      requires !setup.Restoring? && setup.kind != Pnm
      modifies this`alive, this`calls
      ensures Core() && (!Lost(status) ==> Live())
      ensures calls == old(calls) + made && 1 <= |made| <= 5 && made[|made| - 1] == Call(Apply, status, flaw)
      ensures |made| == 5 || (status != -10 && status != -11)
      ensures forall i :: 0 <= i < |made| - 1 ==> made[i].step == Apply && made[i].status in {-10, -11}
      ensures Onward(setup, Going(Then(Apply, next), 0), made) == Applied(setup, next, status, flaw)
    {
      status, flaw, made := 0, 0, [];
      ghost var p := Going(Then(Apply, next), 0);
      var attempt := 0;
      while attempt < 5
        invariant Core() && Live() && 0 <= attempt <= 5 && |made| == attempt
        invariant calls == old(calls) + made && (attempt > 0 ==> made[attempt - 1] == Call(Apply, status, flaw))
        invariant forall i :: 0 <= i < attempt ==> made[i].step == Apply && made[i].status in {-10, -11}
        invariant Onward(setup, p, made) == if attempt < 5 then Going(Then(Apply, next), attempt)
                                            else Ended(Returned(status))
        invariant attempt == 5 ==> status != 0
      {
        status, flaw := Vendor(Apply);
        OnwardNext(setup, p, made, Call(Apply, status, flaw));
        made := made + [Call(Apply, status, flaw)];
        if status != -10 && status != -11 { return; }
        attempt := attempt + 1;
      }
    }

    /** After the last try of an Apply. */
    static ghost function Applied(setup: Setup, next: Script, status: int, flaw: nat): Progress {
      if status != 0 then Ended(Returned(status))
      else if Refusal(setup, next, Call(Apply, 0, flaw)) != 0 then
        Ended(Returned(Refusal(setup, next, Call(Apply, 0, flaw))))
      else Going(next, 0)
    }

    /** Device_Close, on a live handle only. A closed or lost one is never alive again. */
    method DeviceClose() returns (status: int)
      requires Live() && handle.Some? && alive !! closed
      modifies this`alive, this`closed, this`calls
      ensures handle.value !in old(closed)
      ensures alive == old(alive) - if status == 0 || Lost(status) then {handle.value} else {}
      ensures closed == old(closed) + if status == 0 then {handle.value} else {}
      ensures calls == old(calls) + [Call(Step.DeviceClose, status, 0)]
    {
      status := *;
      if status == 0 || status == -8 || status == -9 { alive := alive - {handle.value}; }
      if status == 0 { closed := closed + {handle.value}; }
      calls := calls + [Call(Step.DeviceClose, status, 0)];
    }

    /** san90_open_device: reuses a healthy physical session or opens a new one. */
    method OpenDevice(m: Mode) returns (status: int, ghost made: seq<Call>)
      requires Valid() && m.handle.None? && m != active
      modifies this`handle, this`healthy, this`active, this`alive, this`nextHandle, this`calls, m`handle
      ensures Valid() && closed == old(closed) && calls == old(calls) + made
      ensures old(active) != null ==> status == -110 && active == old(active) && made == []
      ensures status == 0 ==> active == m && Usable() && m.handle == handle
      ensures status != 0 ==> active == old(active) && Usable() == old(Usable())
      // a healthy physical session is reused, whatever the vendor would say
      ensures old(active) == null && old(Usable()) ==>
                && status == 0 && handle == old(handle) && alive == old(alive) && nextHandle == old(nextHandle)
                && made == []
      // otherwise a handle that was never seen before, which a lost device takes back
      ensures old(active) == null && !old(Usable()) ==>
                && alive == old(alive) + (if status == 0 then {old(nextHandle)} else {})
                && handle == if status == 0 then Some(old(nextHandle)) else None
      ensures old(active) == null && !old(Usable()) ==>
                made != [] && made[0].step == DeviceOpen &&
                if made[0].status != 0 && made[0].status != -49 then |made| == 1 && status == made[0].status
                else |made| == 2 && made[1].step == DeviceState
                     && status == if Lost(made[1].status) then made[1].status else 0
    {
      made := [];
      if active != null { return -110, []; }
      if !Usable() {
        status := *;
        made := [Call(DeviceOpen, status, 0)];
        calls := calls + made;
        if status != 0 && status != -49 {
          handle := None;
          return;
        }
        handle := Some(nextHandle);
        nextHandle := nextHandle + 1;
        alive := alive + {handle.value};
        healthy := true;
        var hardware: int := *;
        made := made + [Call(DeviceState, hardware, 0)];
        calls := calls + [Call(DeviceState, hardware, 0)];
        if hardware == -8 || hardware == -9 {
          alive := alive - {handle.value};
          handle := None;
          healthy := false;
          return hardware, made;
        }
      }
      m.handle := handle;
      active := m;
      status := 0;
    }

    /** san90_open_failed. */
    method OpenFailed(status: int)
      requires Core() && active != null && (Live() || Lost(status))
      modifies this`invalidate, this`handle, this`healthy
      ensures Core() && Live() && invalidate && Usable() == (old(Usable()) && !Lost(status))
      ensures handle == if Lost(status) then None else old(handle)
    {
      invalidate := true;
      if status == -8 || status == -9 {
        handle := None;
        healthy := false;
      }
    }

    /** release: ends the mode; an invalidated device is closed, once. */
    method Release() returns (status: int, ghost made: seq<Call>)
      requires Core() && Live() && active != null
      modifies this`alive, this`closed, this`handle, this`healthy, this`active, this`invalidate, this`calls
      modifies active`handle
      ensures calls == old(calls) + made
      ensures if old(invalidate) && old(Usable()) then made == [Call(Step.DeviceClose, status, 0)]
              else made == [] && status == 0
      ensures Valid() && active == null && !invalidate && old(active).handle.None?
      ensures Now() == Idle(old(Usable()) && !old(invalidate))
      // a mode that was not invalidated leaves the physical session as it is
      ensures !old(invalidate) ==>
                handle == old(handle) && healthy == old(healthy) && alive == old(alive) && closed == old(closed)
      ensures old(invalidate) && !old(Usable()) ==> alive == old(alive) && closed == old(closed)
      ensures old(invalidate) && old(Usable()) ==>
                closed == if status == 0 then old(closed) + {old(handle).value} else old(closed)
    {
      status, made := 0, [];
      if invalidate && Usable() {
        status := DeviceClose();
        made := [Call(Step.DeviceClose, status, 0)];
      }
      if invalidate {
        handle := None;
        healthy := false;
      }
      var m := active;
      active := null;
      invalidate := false;
      m.handle := None;
    }

    /** The failing path of an open: stops what runs and gives the mode back. */
    method AbandonOpen(m: Mode, status: int) returns (ghost made: seq<Call>)
      requires Core() && active == m && status != 0 && (Live() || Lost(status)) && handle.Some? && !m.triggered
      modifies this`alive, this`closed, this`handle, this`healthy, this`active, this`invalidate, this`calls, m
      ensures Valid() && Now() == Idle(false) && calls == old(calls) + made
      ensures CleanedUp(m.kind, old(m.dsp), status, made)
    {
      made := [];
      OpenFailed(status);
      if Usable() && (m.kind == Rta || (m.kind == Iqs && m.triggered)) {
        var stopped, flaw := Vendor(Stop);
        made := made + [Call(Stop, stopped, flaw)];
        if stopped != 0 { OpenFailed(stopped); }
      }
      if m.dsp {
        var closed, flaw := Process(Signal);
        made := made + [Call(Signal, closed, flaw)];
      }
      m.dsp := false;
      var released;
      ghost var last;
      released, last := Release();
      made := made + last;
    }

    /** A default profile, then a configuration with repeats. */
    method ResetAndApply(ghost setup: Setup, ghost next: Script) returns (status: int, flaw: nat, ghost made: seq<Call>)
      requires Core() && Live() && Usable() && active != null
      requires !setup.Restoring? && setup.kind != Pnm
      modifies this`alive, this`calls
      ensures Core() && (Live() || Lost(status)) && calls == old(calls) + made && made != [] && made[0].step == Reset
      ensures Onward(setup, Going(Then(Reset, Then(Apply, next)), 0), made) == Applied(setup, next, status, flaw)
    {
      ghost var p := Going(Then(Reset, Then(Apply, next)), 0);
      status, flaw := Vendor(Reset);
      made := [Call(Reset, status, flaw)];
      OnwardOne(setup, p, made[0]);
      if status != 0 { return; }
      ghost var again;
      status, flaw, again := RetryBus(setup, next);
      OnwardJoin(setup, p, made, again);
      made := made + again;
    }

    /** san90_iqs_configure: `next` is what an opening or a change does afterwards. */
    method ConfigureIqs(m: Mode, ghost setup: Setup, ghost next: Script) returns (status: int, ghost made: seq<Call>)
      requires Core() && Live() && Usable() && active == m
      requires setup.kind == Iqs && !setup.Restoring? && (next == End || next == Then(Start, End))
      modifies this`alive, this`calls, m`triggered
      ensures Core() && (Live() || Lost(status)) && active == m && calls == old(calls) + made && made != []
      ensures Onward(setup, Going(IqsScript(old(m.triggered), next), 0), made)
              == if status == 0 then Going(next, 0) else Ended(Returned(status))
      ensures m.triggered == (old(m.triggered) && Lost(made[0].status)) && (status == 0 ==> !m.triggered)
      ensures old(m.triggered) <==> made[0].step == Stop
    {
      ghost var p := Going(IqsScript(m.triggered, next), 0);
      made := [];
      if m.triggered {
        var flaw;
        status, flaw := Vendor(Stop);
        made := [Call(Stop, status, flaw)];
        OnwardOne(setup, p, made[0]);
        if status == -8 || status == -9 { return; }
        m.triggered := false;
      }
      ghost var tuned;
      status, tuned := TuneIqs(m, setup, next);
      OnwardJoin(setup, p, made, tuned);
      made := made + tuned;
    }

    /** The default sweep profile, then the stream's own. */
    method TuneIqs(m: Mode, ghost setup: Setup, ghost next: Script) returns (status: int, ghost made: seq<Call>)
      requires Core() && Live() && Usable() && active == m
      requires setup.kind == Iqs && !setup.Restoring? && (next == End || next == Then(Start, End))
      modifies this`alive, this`calls
      ensures Core() && (Live() || Lost(status)) && calls == old(calls) + made && made != [] && made[0].step == Reset
      ensures Onward(setup, Going(IqsScript(false, next), 0), made)
              == if status == 0 then Going(next, 0) else Ended(Returned(status))
    {
      ghost var p := Going(IqsScript(false, next), 0);
      ghost var more;
      var flaw;
      status, flaw, made := ResetAndApply(setup, Then(Reset, Then(Apply, next)));
      if status != 0 { return; }
      status, flaw, more := ResetAndApply(setup, next);
      OnwardJoin(setup, p, made, more);
      made := made + more;
      if status != 0 { return; }
      status := if flaw == 0 then 0 else if flaw == 1 then -102 else if flaw == 2 then -104 else -105;
    }

    /** san90_rta_configure: stops the stream first; assigning the new buffers may throw. */
    method ConfigureRta(m: Mode, ghost setup: Setup) returns (o: Outcome, ghost made: seq<Call>)
      requires Core() && Live() && Usable() && active == m && (setup == Opening(Rta) || setup == Changing(Rta))
      modifies this`alive, this`calls, m`valid
      ensures Core() && (Live() || (o.Returned? && Lost(o.status))) && calls == old(calls) + made
      ensures Configured(setup, false, made, o)
      ensures m.valid == (old(m.valid) || o == Returned(0))
    {
      ghost var p := Going(ScriptOf(setup, false), 0);
      ghost var more;
      var status, flaw := Vendor(Stop);
      made := [Call(Stop, status, flaw)];
      OnwardOne(setup, p, made[0]);
      if status != 0 { return Returned(status), made; }
      hide Onward;
      o, more := ApplyRta(m, setup);
      OnwardJoin(setup, p, made, more);
      made := made + more;
    }

    /** The new profile, its buffers, and the stream. */
    method ApplyRta(m: Mode, ghost setup: Setup) returns (o: Outcome, ghost made: seq<Call>)
      requires Core() && Live() && Usable() && active == m && (setup == Opening(Rta) || setup == Changing(Rta))
      modifies this`alive, this`calls, m`valid
      ensures Core() && (Live() || (o.Returned? && Lost(o.status))) && calls == old(calls) + made
      ensures Concludes(setup, Onward(setup, Going(Then(Reset, Then(Apply, Then(Start, End))), 0), made), o)
      ensures m.valid == (old(m.valid) || o == Returned(0))
    {
      ghost var p := Going(Then(Reset, Then(Apply, Then(Start, End))), 0);
      var status, flaw;
      status, flaw, made := ResetAndApply(setup, Then(Start, End));
      if status != 0 { return Returned(status), made; }
      if flaw != 0 { return Returned(-102), made; }
      var throws: bool := *;
      if throws { return Thrown, made; }
      hide Onward;
      status, flaw := Vendor(Start);
      OnwardNext(setup, p, made, Call(Start, status, flaw));
      made := made + [Call(Start, status, flaw)];
      if status == 0 { m.valid := true; }
      o := Returned(status);
    }

    method ConfigureSwp(m: Mode, ghost setup: Setup) returns (status: int, ghost made: seq<Call>)
      requires Core() && Live() && Usable() && active == m && (setup == Opening(Swp) || setup == Changing(Swp))
      modifies this`alive, this`calls
      ensures Core() && (Live() || Lost(status)) && calls == old(calls) + made
      ensures Configured(setup, false, made, Returned(status))
    {
      var flaw;
      status, flaw, made := ResetAndApply(setup, End);
      if status != 0 { return; }
      status := if flaw == 0 then 0 else -102;
    }

    method ConfigurePnm(m: Mode) returns (o: Outcome, ghost made: seq<Call>)
      requires Core() && Live() && Usable() && active == m
      modifies this`alive, this`calls
      ensures Core() && (Live() || (o.Returned? && Lost(o.status))) && calls == old(calls) + made
      ensures Configured(Opening(Pnm), false, made, o)
    {
      ghost var setup := Opening(Pnm);
      ghost var p := Going(ScriptOf(setup, false), 0);
      var status, flaw := Vendor(Reset);
      made := [Call(Reset, status, flaw)];
      OnwardOne(setup, p, made[0]);
      if status != 0 { return Returned(status), made; }
      status, flaw := Vendor(Apply);
      OnwardNext(setup, p, made, Call(Apply, status, flaw));
      made := made + [Call(Apply, status, flaw)];
      if status != 0 { return Returned(status), made; }
      if flaw != 0 { return Returned(-102), made; }
      var throws: bool := *;
      o := if throws then Thrown else Returned(0);
    }

    /** The signal-processing object of an IQ mode: opened, reset and configured. */
    method OpenSignal(m: Mode) returns (status: int, ghost made: seq<Call>)
      requires !m.dsp
      modifies this`calls, m`dsp
      ensures calls == old(calls) + made && made != [] && m.dsp == (made[0].status == 0) && (status == 0 ==> m.dsp)
      ensures Onward(Opening(Iqs), Going(ScriptOf(Opening(Iqs), false), 0), made)
              == if status == 0 then Going(IqsScript(false, End), 0) else Ended(Returned(status))
    {
      ghost var setup := Opening(Iqs);
      ghost var p := Going(ScriptOf(setup, false), 0);
      var flaw;
      status, flaw := Process(SignalOpen);
      made := [Call(SignalOpen, status, flaw)];
      OnwardOne(setup, p, made[0]);
      if status != 0 { return; }
      m.dsp := true;
      status, flaw := Process(SignalReset);
      OnwardNext(setup, p, made, Call(SignalReset, status, flaw));
      made := made + [Call(SignalReset, status, flaw)];
      if status != 0 { return; }
      status, flaw := Process(SignalApply);
      OnwardNext(setup, p, made, Call(SignalApply, status, flaw));
      made := made + [Call(SignalApply, status, flaw)];
      if status == 0 && flaw != 0 { status := -106; }
    }

    /** The configuration of a new mode. */
    method ConfigureMode(m: Mode) returns (o: Outcome, ghost made: seq<Call>)
      requires Core() && Live() && Usable() && active == m && Fresh(m)
      modifies this`alive, this`calls, m`triggered, m`dsp, m`valid
      ensures Core() && (Live() || (o.Returned? && Lost(o.status))) && active == m && calls == old(calls) + made
      ensures Configured(Opening(m.kind), false, made, o) && (o.Returned? ==> made != [])
      ensures !m.triggered && m.dsp == (m.kind == Iqs && made != [] && made[0].status == 0)
      ensures m.valid == (m.kind == Rta && o == Returned(0)) && (o == Returned(0) ==> m.dsp == (m.kind == Iqs))
    {
      made := [];
      match m.kind {
        case Iqs =>
          var status;
          ghost var rest;
          status, made := OpenSignal(m);
          if status != 0 { return Returned(status), made; }
          status, rest := ConfigureIqs(m, Opening(Iqs), End);
          OnwardJoin(Opening(Iqs), Going(ScriptOf(Opening(Iqs), false), 0), made, rest);
          made := made + rest;
          o := Returned(status);
        case Rta =>
          o, made := ConfigureRta(m, Opening(Rta));
        case Swp =>
          var throws: bool := *;
          if throws { return Thrown, []; }
          var status;
          status, made := ConfigureSwp(m, Opening(Swp));
          o := Returned(status);
        case Pnm =>
          o, made := ConfigurePnm(m);
      }
    }

    /** A mode that nothing has been done with. */
    ghost predicate Fresh(m: Mode)
      reads m
    {
      !m.triggered && !m.dsp && !m.valid && !m.started
    }

    /** The open entry points. */
    method OpenMode(kind: Kind, argsOk: bool) returns (o: Outcome, m: Mode?, ghost made: seq<Call>)
      requires Valid()
      modifies this`handle, this`healthy, this`active, this`alive, this`closed, this`nextHandle, this`invalidate
      modifies this`calls
      ensures Core() && (Live() || (o.Returned? && Lost(o.status))) && (o.Returned? ==> Live())
      ensures old(active) != null ==> active == old(active)
      ensures m == (if o == Returned(0) then active else null)
      ensures active == null || active == old(active) || fresh(active)
      ensures calls == old(calls) + made
      ensures Reports(Open(kind, argsOk), old(Now()), made, o, Now())
    {
      ghost var s := Now();
      hide Reports, Started;
      if !argsOk {
        OpenRefused(kind, argsOk, s, [], -100);
        return Returned(-100), null, [];
      }
      var updates: nat := *;
      var mode := new Mode(kind, updates);
      var status;
      status, made := OpenDevice(mode);
      if status != 0 {
        OpenRefused(kind, argsOk, s, made, status);
        return Returned(status), null, made;
      }
      ghost var opening, rest := made, [];
      ghost var n: nat;
      o, rest, n := StartMode(mode);
      m := if o == Returned(0) then mode else null;
      made := opening + rest;
      OpenStarted(kind, s, opening, rest, n, o, Now());
    }

    /** Configures the mode of an open device, or gives it back. */
    method StartMode(m: Mode) returns (o: Outcome, ghost made: seq<Call>, ghost n: nat)
      requires Core() && Live() && Usable() && active == m && Fresh(m) && !invalidate
      modifies this`handle, this`healthy, this`active, this`alive, this`closed, this`invalidate, this`calls, m
      ensures Core() && (Live() || (o.Returned? && Lost(o.status))) && (o.Returned? ==> Live())
      ensures calls == old(calls) + made && Started(m.kind, made, n, o)
      ensures if o.Thrown? then active == m && Usable()
              else if o.status == 0 then
                active == m && Now() == Situation(m, true, false, false, m.kind == Iqs, m.kind == Rta, false)
              else Now() == Idle(false)
    {
      ghost var cleaning: seq<Call> := [];
      hide Configured, CleanedUp;
      o, made := ConfigureMode(m);
      n := |made|;
      assert made[..n] == made;
      if o.Thrown? { return; }
      ghost var first := made;
      if o.status != 0 { cleaning := AbandonOpen(m, o.status); }
      made := first + cleaning;
      assert made[..n] == first && made[n..] == cleaning;
    }

    /** san90_iqs_arm. */
    method ArmMode(m: Mode) returns (status: int, ghost made: seq<Call>)
      requires Core() && Live() && active == m
      modifies this`alive, this`calls, m`triggered
      ensures Core() && (Live() || Lost(status)) && active == m && calls == old(calls) + made
      ensures Reports(Arm(m), old(Now()), made, Returned(status), Now())
    {
      made := [];
      if !Usable() { return -8, []; }
      if m.triggered { return 0, []; }
      var flaw;
      status, flaw := Vendor(Start);
      made := [Call(Start, status, flaw)];
      if status != 0 { return; }
      m.triggered := true;
    }

    /** The next entry points; PNM also drives its measuring cycle. */
    method NextMode(m: Mode, argsOk: bool, want: Want) returns (status: int, ghost made: seq<Call>)
      requires Valid() && active == m
      modifies this`alive, this`calls, m`started, m`doneCount, m`stall
      ensures Core() && (Live() || Lost(status)) && active == m && calls == old(calls) + made
      ensures Reports(Next(m, argsOk, want), old(Now()), made, Returned(status), Now())
    {
      made := [];
      if !Usable() { return -8, []; }
      if !argsOk { return -100, []; }
      match m.kind {
        case Pnm =>
          status, made := NextPnm(m);
        case Iqs =>
          if !m.triggered { return -100, []; }
          status, made := NextIqs(m, want);
        case Rta =>
          if !m.valid { return -102, []; }
          status, made := NextRta(m);
        case Swp =>
          status, made := NextSwp(m);
      }
    }

    /** san90_next_v2: an IF overflow comes with data; the spectrum is computed on request. */
    method NextIqs(m: Mode, want: Want) returns (status: int, ghost made: seq<Call>)
      requires Core() && Live() && Usable() && active == m
      modifies this`alive, this`calls
      ensures Core() && (Live() || Lost(status)) && active == m && calls == old(calls) + made
      ensures IqsNext(want, made, status)
    {
      var flaw;
      status, flaw := Vendor(Fetch);
      made := [Call(Fetch, status, flaw)];
      if status != 0 && status != -12 { return; }
      if flaw != 0 { return -103, made; }
      match want {
        case Samples => return 0, made;
        case Spectrum(room) =>
          if !room { return -107, made; }
      }
      status, flaw := Process(Signal);
      made := made + [Call(Signal, status, flaw)];
      if status != 0 && status != -12 { return; }
      status := if flaw != 0 then -103 else 0;
    }

    /** san90_rta_next_v2: these warnings are carried by a data packet. */
    method NextRta(m: Mode) returns (status: int, ghost made: seq<Call>)
      requires Core() && Live() && Usable() && active == m
      modifies this`alive, this`calls
      ensures Core() && (Live() || Lost(status)) && active == m && calls == old(calls) + made
      ensures |made| == 1 && made[0].step == Fetch
      ensures status == if made[0].status in WITH_DATA then 0 else made[0].status
    {
      var flaw;
      status, flaw := Vendor(Fetch);
      made := [Call(Fetch, status, flaw)];
      if status == 0 || status == -12 || (status <= -14 && status >= -19) || (status <= -36 && status >= -39)
         || status == -301 || status == -302 || status == -303 {
        status := 0;
      }
    }

    /** san90_swp_next_v2: a sweep is fetched, checked and cut to the request. */
    method NextSwp(m: Mode) returns (status: int, ghost made: seq<Call>)
      requires Core() && Live() && Usable() && active == m
      modifies this`alive, this`calls
      ensures Core() && (Live() || Lost(status)) && active == m && calls == old(calls) + made
      ensures SwpNext(made, status)
    {
      var flaw;
      status, flaw := Vendor(Fetch);
      made := [Call(Fetch, status, flaw)];
      if status != 0 && status != -12 { return; }
      if flaw != 0 {
        if status == 0 { status := -103; }
        return;
      }
      var ignored, cut := Process(Signal);
      made := made + [Call(Signal, ignored, cut)];
      if cut == 1 { return -108, made; }
      if cut == 2 { return -103, made; }
      if cut != 0 { return -109, made; }
    }

    method NextPnm(m: Mode) returns (status: int, ghost made: seq<Call>)
      requires Core() && Live() && Usable() && active == m
      modifies this`alive, this`calls, m`started, m`doneCount, m`stall
      ensures Core() && (Live() || Lost(status)) && active == m && calls == old(calls) + made
      ensures PnmNext(old(m.started), made, status)
      // a start that fails, and a lost device, leave the cycle where it is
      ensures made[|made| - 1].step == Start ==>
                m.started == old(m.started) && m.doneCount == old(m.doneCount) && m.stall == old(m.stall)
      ensures made[|made| - 1].step == Fetch && Lost(made[|made| - 1].status) ==> m.started
      // the cycle restarts after its last update, and after too many calls without one
      ensures made[|made| - 1].step == Fetch && made[|made| - 1].status == 0 ==>
                && m.doneCount == (if old(m.started) then old(m.doneCount) else 0) + 1
                && m.stall == 0 && (m.started <==> m.doneCount < m.partialUpdates)
      ensures made[|made| - 1].step == Fetch && made[|made| - 1].status != 0 && !Lost(made[|made| - 1].status) ==>
                && m.doneCount == (if old(m.started) then old(m.doneCount) else 0)
                && m.stall == (if old(m.started) then old(m.stall) else 0) + 1
                && (m.started <==> m.stall <= m.partialUpdates + 8)
    {
      var flaw;
      made := [];
      if !m.started {
        status, flaw := Vendor(Start);
        made := [Call(Start, status, flaw)];
        if status != 0 {
          if status == -8 || status == -9 { return; }
          return 2000000 + status, made;
        }
        m.started, m.doneCount, m.stall := true, 0, 0;
      }
      status, flaw := Vendor(Fetch);
      made := made + [Call(Fetch, status, flaw)];
      if status == -8 || status == -9 { return; }
      if status != 0 {
        m.stall := m.stall + 1;
        if m.stall > m.partialUpdates + 8 { m.started := false; }
        return 1, made;
      }
      m.doneCount, m.stall := m.doneCount + 1, 0;
      if m.doneCount >= m.partialUpdates { m.started := false; }
    }

    /** The reconfigure entry points, with their rollbacks. */
    method ReconfigureMode(m: Mode, argsOk: bool) returns (o: Outcome, ghost made: seq<Call>)
      requires Valid() && active == m
      modifies this`alive, this`calls, this`invalidate, m`triggered, m`valid
      ensures Core() && (Live() || (o.Returned? && Lost(o.status))) && active == m && calls == old(calls) + made
      ensures Reports(Reconfigure(m, argsOk), old(Now()), made, o, Now())
    {
      made := [];
      if !Usable() { return Returned(-8), []; }
      if !argsOk { return Returned(-100), []; }
      ghost var first, second;
      ghost var n;
      match m.kind {
        case Iqs =>
          o, made := ReconfigureIqs(m);
        case Rta =>
          o, made, n, first, second := ReconfigureRta(m);
        case Swp =>
          o, made, n, first, second := ReconfigureSwp(m);
        case Pnm =>
          o := Returned(-100);
      }
    }

    /** A changed IQ stream is armed again. */
    method ReconfigureIqs(m: Mode) returns (o: Outcome, ghost made: seq<Call>)
      requires Valid() && Usable() && active == m && m.kind == Iqs
      modifies this`alive, this`calls, m`triggered
      ensures Core() && (Live() || (o.Returned? && Lost(o.status))) && active == m && calls == old(calls) + made
      ensures ReconfigureReports(Iqs, old(Now()), made, o, Now())
    {
      ghost var setup := Changing(Iqs);
      ghost var p := Going(ScriptOf(setup, m.triggered), 0);
      var status;
      status, made := ConfigureIqs(m, setup, Then(Start, End));
      if status == 0 {
        ghost var armed;
        ghost var configured := made;
        status, armed := ArmMode(m);
        OnwardNext(setup, p, configured, armed[0]);
        made := configured + [armed[0]];
        assert armed == [armed[0]];
      }
      o := Returned(status);
    }

    method ReconfigureRta(m: Mode)
      returns (o: Outcome, ghost made: seq<Call>, ghost n: nat, ghost first: Outcome, ghost second: Outcome)
      requires Valid() && Usable() && active == m && m.kind == Rta
      modifies this`alive, this`calls, m`valid
      ensures Core() && (Live() || (o.Returned? && Lost(o.status))) && active == m && calls == old(calls) + made
      ensures Changed(Rta, old(Now()), made, n, first, second, o, Now())
    {
      hide Configured;
      o, made := ConfigureRta(m, Changing(Rta));
      first, second, n := o, o, |made|;
      assert made[..n] == made;
      if o.Thrown? || o.status == 0 || o.status == -8 || o.status == -9 { return; }
      var restored;
      ghost var rest;
      restored, rest := RestoreRta(m);
      second := restored;
      ghost var configured := made;
      made := configured + rest;
      assert made[..n] == configured && made[n..] == rest;
      if restored.Thrown? || restored.status == -8 || restored.status == -9 { o := restored; }
    }

    method ReconfigureSwp(m: Mode)
      returns (o: Outcome, ghost made: seq<Call>, ghost n: nat, ghost first: Outcome, ghost second: Outcome)
      requires Valid() && Usable() && active == m && m.kind == Swp
      modifies this`alive, this`calls, this`invalidate
      ensures Core() && (Live() || (o.Returned? && Lost(o.status))) && active == m && calls == old(calls) + made
      ensures Changed(Swp, old(Now()), made, n, first, second, o, Now())
    {
      var status;
      status, made := ConfigureSwp(m, Changing(Swp));
      o := Returned(status);
      first, second, n := o, o, |made|;
      assert made[..n] == made;
      if status == 0 || status == -8 || status == -9 { return; }
      var rollback, flaw := Vendor(Apply);
      OnwardOne(Restoring(Swp), Going(ScriptOf(Restoring(Swp), false), 0), Call(Apply, rollback, flaw));
      second := Returned(rollback);
      ghost var configured := made;
      made := configured + [Call(Apply, rollback, flaw)];
      assert made[..n] == configured && made[n..] == [Call(Apply, rollback, flaw)];
      o := Returned(if rollback == -8 || rollback == -9 then rollback else status);
      if rollback != 0 && !(rollback == -8 || rollback == -9) { invalidate := true; }
    }

    /** Stops and restores the last applied profile after a failed reconfiguration;
        assigning its buffers may throw as well. */
    method RestoreRta(m: Mode) returns (o: Outcome, ghost made: seq<Call>)
      requires Core() && Live() && Usable() && active == m
      modifies this`alive, this`calls, m`valid
      ensures Core() && (Live() || (o.Returned? && Lost(o.status))) && active == m && calls == old(calls) + made
      ensures Configured(Restoring(Rta), false, made, o)
      ensures m.valid == (old(m.valid) && (o.Returned? ==> o.status == 0))
    {
      ghost var setup := Restoring(Rta);
      ghost var p := Going(ScriptOf(setup, false), 0);
      var restored, flaw := Vendor(Stop);
      made := [Call(Stop, restored, flaw)];
      OnwardOne(setup, p, made[0]);
      if restored == 0 {
        restored, flaw := Vendor(Apply);
        OnwardNext(setup, p, made, Call(Apply, restored, flaw));
        made := made + [Call(Apply, restored, flaw)];
      }
      if restored == 0 {
        var throws: bool := *;
        if throws { return Thrown, made; }
        restored, flaw := Vendor(Start);
        OnwardNext(setup, p, made, Call(Start, restored, flaw));
        made := made + [Call(Start, restored, flaw)];
      }
      if restored != 0 { m.valid := false; }
      o := Returned(restored);
    }

    /** The close entry points: stop what the mode runs, then release it. */
    method CloseMode(m: Mode) returns (status: int, ghost made: seq<Call>)
      requires Valid() && active == m
      modifies this`alive, this`closed, this`handle, this`healthy, this`active, this`invalidate, this`calls, m`handle
      ensures Valid() && active == null && calls == old(calls) + made
      ensures CloseReports(m.kind, old(Now()), made, Returned(status), Now())
    {
      ghost var s := Now();
      hide CloseReports;
      ghost var stop, signal, last: seq<Call> := [], [], [];
      status, stop := StopMode(m);
      if m.kind == Iqs && m.dsp {
        var closed, flaw := Process(Signal);
        signal := [Call(Signal, closed, flaw)];
        if status == 0 { status := closed; }
      }
      var released;
      released, last := Release();
      if status == 0 { status := released; }
      made := stop + signal + last;
      InThisOrder(m.kind, s, stop, signal, last);
    }

    /** A mode that runs is stopped; a device that does not stop is to be closed. */
    method StopMode(m: Mode) returns (status: int, ghost made: seq<Call>)
      requires Valid() && active == m
      modifies this`alive, this`handle, this`healthy, this`invalidate, this`calls
      ensures Valid() && active == m && calls == old(calls) + made && closed == old(closed)
      ensures if old(Usable()) && (m.kind == Rta || m.kind == Pnm || (m.kind == Iqs && m.triggered)) then
                |made| == 1 && made[0].step == Stop && made[0].status == status
              else made == [] && status == 0
      ensures Now() == old(Now()).(usable := old(Usable()) && !Lost(status),
                                   invalidated := old(invalidate) || status != 0)
    {
      ghost var before := Now();
      status, made := 0, [];
      if Usable() && (m.kind == Rta || m.kind == Pnm || (m.kind == Iqs && m.triggered)) {
        var flaw;
        status, flaw := Vendor(Stop);
        made := [Call(Stop, status, flaw)];
      }
      if status != 0 { OpenFailed(status); }
    }

    method InvalidateMode(m: Mode, abandon: bool) returns (status: int)
      requires Valid() && active == m
      modifies this`invalidate, this`handle, this`healthy
      ensures Valid() && invalidate && status == 0
      ensures Reports(Invalidate(m, abandon), old(Now()), [], Returned(status), Now())
      ensures if abandon then handle.None? && !Usable() else handle == old(handle) && healthy == old(healthy)
    {
      invalidate := true;
      if abandon {
        handle := None;
        healthy := false;
      }
      status := 0;
    }

    /** release_idle: closes an idle healthy handle; never a stale one. */
    method CloseIdle() returns (status: int, ghost made: seq<Call>)
      requires Valid()
      modifies this`alive, this`closed, this`handle, this`healthy, this`invalidate, this`calls
      ensures calls == old(calls) + made && Reports(ReleaseIdle, old(Now()), made, Returned(status), Now())
      ensures Core() && (Live() || Lost(status)) && active == old(active)
      ensures old(active) != null || old(handle).None? ==>
                handle == old(handle) && healthy == old(healthy) && alive == old(alive) && closed == old(closed)
      ensures old(active) == null && old(handle).Some? ==>
                if status == 0 then closed == old(closed) + {old(handle).value}
                else closed == old(closed) && handle == old(handle) && healthy == old(healthy)
    {
      made := [];
      if active != null { return -110, []; }
      if handle.None? { return 0, []; }
      if invalidate || !healthy { return -111, []; }
      status := DeviceClose();
      made := [Call(Step.DeviceClose, status, 0)];
      if status != 0 { return; }
      handle := None;
      healthy := false;
      invalidate := false;
    }

    /** The closing operation of finish. */
    method CloseAll(force: bool) returns (status: int, ghost made: seq<Call>)
      requires Valid()
      modifies this`alive, this`closed, this`handle, this`healthy, this`active, this`invalidate, this`calls, active
      ensures Valid() && calls == old(calls) + made
      ensures Reports(Finish(force), old(Now()), made, Returned(status), Now())
      ensures old(active) != null && !force ==> status == -110 && active == old(active) && handle == old(handle)
      ensures !(old(active) != null && !force) ==> active == null && handle.None?
    {
      ghost var s := Now();
      if active == null {
        status, made := CloseDevice();
        return;
      }
      if !force { return -110, []; }
      var retired;
      ghost var retiring, last;
      retired, retiring := CloseMode(active);
      ghost var usable := Usable();
      status, last := CloseDevice();
      made := retiring + last;
      FinishForced(s, retiring, Returned(retired), usable, last, status);
    }

    /** Closes a device that can be used, and forgets it whatever comes of that. */
    method CloseDevice() returns (status: int, ghost made: seq<Call>)
      requires Valid() && active == null
      modifies this`alive, this`closed, this`handle, this`healthy, this`invalidate, this`calls
      ensures Valid() && calls == old(calls) + made && Now() == Idle(false) && handle.None?
      ensures if old(Usable()) then made == [Call(Step.DeviceClose, status, 0)] else made == [] && status == 0
    {
      status, made := 0, [];
      if Usable() {
        status := DeviceClose();
        made := [Call(Step.DeviceClose, status, 0)];
      }
      handle := None;
      healthy := false;
      invalidate := false;
    }

    /** What the worker does around one operation: it publishes what the operation gave
        back, retires a mode that a throwing open left behind, and forgets the handle of a
        lost device. */
    method Execute(op: Op) returns (r: int, ghost report: Report)
      requires Valid()
      modifies this`handle, this`healthy, this`active, this`alive, this`closed, this`nextHandle, this`invalidate
      modifies this`calls, active
      ensures Valid()
      ensures report.op == op && report.situation == old(Now()) && report.Right() && r == Published(report.outcome)
      ensures old(calls) + report.made <= calls && (report.outcome.Returned? ==> calls == old(calls) + report.made)
      ensures Now() == report.Left()
      ensures active == null || active == old(active) || fresh(active)
    {
      var previous := active;
      ghost var situation := Now();
      var o;
      ghost var made, more;
      o, made := Perform(op);
      report := Report(op, situation, made, o, Now());
      hide Report.Right, Reports, Session.Core, Session.Live, Session.Now;
      match o {
        case Thrown =>
          more := Retire(previous == null);
          r := -101;
        case Returned(status) =>
          r := status;
      }
      ForgetLost(r);
    }

    /** A lost device is forgotten, so that nothing closes it. */
    method ForgetLost(r: int)
      requires Core() && (Live() || Lost(r))
      modifies this`handle, this`healthy
      ensures Valid() && Now() == if Lost(r) then old(Now()).(usable := false) else old(Now())
    {
      if r == -8 || r == -9 {
        handle := None;
        healthy := false;
      }
    }

    /** After an exception: a mode that the operation opened has no caller and is closed
        here, with its device; another one keeps its wrapper. */
    method Retire(unowned: bool) returns (ghost more: seq<Call>)
      requires Valid() && active != null
      modifies this`handle, this`healthy, this`active, this`alive, this`closed, this`invalidate, this`calls
      modifies active`handle
      ensures Valid() && calls == old(calls) + more && (active == null || active == old(active))
      ensures Now() == if unowned then Idle(false) else old(Now()).(invalidated := true)
    {
      more := [];
      invalidate := true;
      if unowned {
        var retired;
        retired, more := CloseMode(active);
      }
    }

    /** One operation of the worker. */
    method Perform(op: Op) returns (o: Outcome, ghost made: seq<Call>)
      requires Valid()
      modifies this`handle, this`healthy, this`active, this`alive, this`closed, this`nextHandle, this`invalidate
      modifies this`calls, active
      ensures Core() && (Live() || (o.Returned? && Lost(o.status)))
      ensures calls == old(calls) + made && Reports(op, old(Now()), made, o, Now())
      ensures Target(op).Some? && Target(op).value != old(active) ==>
                handle == old(handle) && alive == old(alive) && closed == old(closed)
      ensures active == null || active == old(active) || fresh(active)
      ensures o.Thrown? ==>
                active != null && Live() && (active == old(active) || (old(active) == null && fresh(active)))
    {
      made := [];
      var foreign :=
        match op
        case Next(m, _, _) => m != active
        case Reconfigure(m, _) => m != active
        case Arm(m) => m != active
        case Query(m, _) => m != active
        case Close(m) => m != active
        case Invalidate(m, _) => m != active
        case _ => false;
      if foreign { return Returned(-110), []; }
      if op.Open? {
        var m;
        o, m, made := OpenMode(op.kind, op.argsOk);
      } else if op.Reconfigure? {
        o, made := ReconfigureMode(op.mode, op.argsOk);
      } else {
        var status;
        status, made := Simple(op);
        o := Returned(status);
      }
    }

    /** The operations that cannot throw. */
    method Simple(op: Op) returns (status: int, ghost made: seq<Call>)
      requires Valid() && !op.Open? && !op.Reconfigure? && (Target(op).Some? ==> Target(op).value == active)
      modifies this`handle, this`healthy, this`active, this`alive, this`closed, this`nextHandle, this`invalidate
      modifies this`calls, active
      ensures Core() && (Live() || Lost(status)) && (active == null || active == old(active))
      ensures calls == old(calls) + made && Reports(op, old(Now()), made, Returned(status), Now())
    {
      made := [];
      match op {
        case Next(m, argsOk, want) =>
          status, made := NextMode(m, argsOk, want);
        case Arm(m) =>
          status, made := ArmMode(m);
        case Query(m, argsOk) =>
          status, made := QueryMode(m, argsOk);
        case Close(m) =>
          status, made := CloseMode(m);
        case Invalidate(m, abandon) =>
          status := InvalidateMode(m, abandon);
        case ReleaseIdle =>
          status, made := CloseIdle();
        case Finish(force) =>
          status, made := CloseAll(force);
      }
    }

    /** A query reads one snapshot. */
    method QueryMode(m: Mode, argsOk: bool) returns (status: int, ghost made: seq<Call>)
      requires Valid() && active == m
      modifies this`alive, this`calls
      ensures Core() && (Live() || Lost(status)) && active == m && calls == old(calls) + made
      ensures Reports(Query(m, argsOk), old(Now()), made, Returned(status), Now())
    {
      made := [];
      if !Usable() { return -8, []; }
      if !argsOk { return -100, []; }
      var flaw;
      status, flaw := Vendor(Snapshot);
      made := [Call(Snapshot, status, flaw)];
    }

    // --------------------------------------------------- the dispatcher

    /** One caller at a time is past the callers' mutex; its operation is the only
        one, and a result belongs to the operation that was submitted last. */
    ghost predicate Dispatching()
      reads this`holder, this`tickets, this`request, this`waiting, this`operation, this`running, this`result
      reads this`stopping, this`submitted, this`executed, this`answered, this`reports
    {
      && (operation.Some? ==> waiting) && (waiting ==> holder.Some?) && (running ==> operation.Some?)
      && (holder.Some? ==> holder.value !in answered)
      && (waiting ==> holder.value in submitted && submitted[holder.value] == request)
      && (holder.Some? ==> holder.value < tickets)
      && (forall t :: t in answered || t in executed ==> t < tickets)
      && (operation.Some? ==> submitted[holder.value] == operation.value && holder.value !in executed)
      && (waiting && operation.None? ==> holder.value in executed && executed[holder.value] == result)
      && (holder.Some? && !waiting ==> holder.value !in executed)
      && (stopping ==> operation.None?)
      && (forall t :: t in answered ==> t in submitted)
      && Truthful(submitted, executed, reports)
      && (forall t :: t in answered ==>
            answered[t] == if t in executed then executed[t] else Unserved(submitted[t]))
    }

    /** Every published result is that of the operation which the caller submitted. */
    static ghost predicate Truthful(submitted: map<nat, Op>, executed: map<nat, int>, reports: map<nat, Report>) {
      forall t :: t in executed ==>
        && t in submitted && t in reports && reports[t].op == submitted[t]
        && reports[t].Right() && executed[t] == Published(reports[t].outcome)
    }

    static lemma StillTruthful(submitted: map<nat, Op>, executed: map<nat, int>, reports: map<nat, Report>, t: nat,
                               op: Op)
      requires Truthful(submitted, executed, reports) && t !in executed
      ensures Truthful(submitted[t := op], executed, reports)
    {
    }

    /** The executed operations form one chain, which leads to the present situation. */
    ghost predicate Logged()
      reads this`log, this`active, this`healthy, this`handle, this`invalidate, active
    {
      Chained(log) && Now() == After(log)
    }

    ghost predicate Ok()
      reads this, active
    {
      Valid() && Dispatching() && Logged()
    }

    constructor ()
      ensures Ok() && handle.None? && active == null && !stopping && alive == {} && closed == {} && log == []
    {
      handle, healthy, invalidate, active, nextHandle := None, false, false, null, 0;
      alive, closed := {}, {};
      holder, waiting, operation, running, result, stopping := None, false, None, false, 0, false;
      tickets, request := 0, ReleaseIdle;
      submitted, executed, answered, reports, calls, log := map[], map[], map[], map[], [], [];
    }

    /** A new caller passes the callers' mutex. */
    method Enter()
      requires Ok() && holder.None?
      modifies this`holder, this`tickets
      ensures Ok() && holder == Some(old(tickets)) && tickets == old(tickets) + 1
    {
      holder := Some(tickets);
      tickets := tickets + 1;
    }

    /** The answer of a stopped session: there is nothing left to finish, and no
        worker for anything else. */
    static function Unserved(op: Op): int { if op.Finish? then 0 else -112 }

    /** It hands its operation to the worker, or leaves when the session stopped. */
    method Submit(op: Op)
      requires Ok() && holder.Some? && !waiting
      modifies this`operation, this`waiting, this`holder, this`answered, this`submitted, this`request
      ensures Ok() && submitted == old(submitted)[old(holder).value := op]
      ensures stopping ==> holder.None? && answered == old(answered)[old(holder).value := Unserved(op)]
      ensures !stopping ==> waiting && holder == old(holder) && answered == old(answered)
    {
      hide Session.Valid, Session.Dispatching;
      Register(op);
      if stopping { Dismiss(op); } else { HandOver(op); }
    }

    /** The caller's operation is on record. */
    method Register(op: Op)
      requires Dispatching() && holder.Some? && !waiting
      modifies this`submitted
      ensures Dispatching() && submitted == old(submitted)[holder.value := op]
    {
      hide Truthful;
      StillTruthful(submitted, executed, reports, holder.value, op);
      submitted := submitted[holder.value := op];
    }

    /** A stopped session answers at once. */
    method Dismiss(op: Op)
      requires Dispatching() && holder.Some? && !waiting && stopping
      requires holder.value in submitted && submitted[holder.value] == op
      modifies this`holder, this`answered
      ensures Dispatching() && holder.None? && answered == old(answered)[old(holder).value := Unserved(op)]
    {
      hide Truthful;
      answered := answered[holder.value := if op.Finish? then 0 else -112];
      holder := None;
    }

    method HandOver(op: Op)
      requires Dispatching() && holder.Some? && !waiting && !stopping
      requires holder.value in submitted && submitted[holder.value] == op
      modifies this`operation, this`waiting, this`request
      ensures Dispatching() && waiting && operation == Some(op) && request == op
    {
      hide Truthful;
      operation, waiting, request := Some(op), true, op;
    }

    /** The worker picks the operation up. */
    method WorkerTakes()
      requires Ok() && operation.Some? && !running
      modifies this`running
      ensures Ok() && running
    {
      running := true;
    }

    /** The worker runs it and publishes its result. The report is about this call: what it
        found, what it did and what came of it. */
    method WorkerFinishes() returns (ghost report: Report)
      requires Ok() && running
      modifies this`handle, this`healthy, this`active, this`alive, this`closed, this`nextHandle, this`invalidate
      modifies this`result, this`operation, this`running, this`executed, this`reports, this`log, this`calls, active
      ensures Ok() && operation.None? && !running && waiting && stopping == old(stopping)
      ensures holder.value in submitted && report.op == submitted[holder.value]
      ensures executed == old(executed)[holder.value := result] && reports == old(reports)[holder.value := report]
      ensures report.situation == old(Now()) && report.Right() && result == Published(report.outcome)
      ensures log == old(log) + [report] && Now() == report.Left() && old(calls) + report.made <= calls
      ensures active == null || active == old(active) || fresh(active)
    {
      hide Session.Core, Session.Live, Report.Left, Report.Right, Published, Session.Now, Truthful, Session.Logged;
      hide Session.Dispatching, Session.Usable;
      var op := PickedUp();
      var r;
      r, report := ExecuteNext(op);
      Publish(r, report);
    }

    /** The next operation of the chain. */
    method ExecuteNext(op: Op) returns (r: int, ghost report: Report)
      requires Valid() && Logged()
      modifies this`handle, this`healthy, this`active, this`alive, this`closed, this`nextHandle, this`invalidate
      modifies this`calls, this`log, active
      ensures Valid() && Logged() && log == old(log) + [report] && Now() == report.Left()
      ensures report.op == op && report.situation == old(Now()) && report.Right() && r == Published(report.outcome)
      ensures old(calls) + report.made <= calls
      ensures active == null || active == old(active) || fresh(active)
    {
      hide Session.Core, Session.Live, Report.Left, Report.Right, Published, Session.Now, Chained, After;
      r, report := Execute(op);
      ChainedNext(log, report);
      log := log + [report];
    }

    method PickedUp() returns (op: Op)
      requires Dispatching() && running
      ensures operation == Some(op) && waiting && holder.Some?
      ensures holder.value in submitted && submitted[holder.value] == op
    {
      op := operation.value;
    }

    method Publish(r: int, ghost report: Report)
      requires Dispatching() && running && holder.Some? && holder.value in submitted
      requires report.op == submitted[holder.value] && report.Right() && r == Published(report.outcome)
      modifies this`result, this`operation, this`running, this`executed, this`reports
      ensures reports == old(reports)[holder.value := report]
      ensures Dispatching() && operation.None? && !running && waiting && result == r
      ensures executed == old(executed)[holder.value := r]
    {
      result := r;
      operation, running := None, false;
      executed := executed[holder.value := r];
      reports := reports[holder.value := report];
    }

    /** The waiting caller takes the result of its own operation and leaves; a finish
        that was not refused then stops the worker. */
    method Leave() returns (r: int)
      requires Ok() && waiting && operation.None?
      modifies this`holder, this`waiting, this`answered, this`stopping
      ensures Ok() && holder.None? && old(holder).Some?
      ensures old(holder).value in executed && r == executed[old(holder).value]
      ensures answered == old(answered)[old(holder).value := r]
      ensures old(holder).value in submitted
      ensures stopping == (old(stopping) || (submitted[old(holder).value].Finish? && r != -110))
    {
      hide Truthful, Session.Core, Session.Live, Session.Logged, Session.Now;
      r := result;
      answered := answered[holder.value := r];
      holder, waiting := None, false;
      if request.Finish? && r != -110 { stopping := true; }
    }

    /** Any interleaving of callers and worker, with any vendor statuses. */
    method AnyRun()
      requires Ok()
      modifies this, active
      ensures Ok() && old(log) <= log
    {
      hide Session.Core, Session.Live, Session.Dispatching, Session.Logged;
      var steps: nat := *;
      while steps > 0
        invariant Ok() && (active == null || active == old(active) || fresh(active)) && old(log) <= log
      {
        var choice: nat := *;
        var op: Op := *;
        if choice == 0 {
          if holder.None? { Enter(); }
        } else if choice == 1 && holder.Some? && !waiting {
          Submit(op);
        } else if choice == 2 && operation.Some? && !running {
          WorkerTakes();
        } else if choice == 3 && running {
          ghost var report := WorkerFinishes();
        } else if choice == 4 && waiting && operation.None? {
          var r := Leave();
        }
        steps := steps - 1;
      }
    }
  }
}
