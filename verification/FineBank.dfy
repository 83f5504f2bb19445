/** Ordered subscriptions over the selected filter-bank bins: admission, tuning,
    lockstep delivery and selection changes. Rates are exact. */
module FineBank {
  import opened Arith
  import opened Complex
  import opened Channelizer
  import opened Fir
  import opened Narrow
  import opened Oscillator
  import F = FineChannel
  import O = ChannelOpen
  import P = RatePlan

  // ------------------------------------------------------------ exact sums

  function RateSum(s: seq<real>): real {
    if s == [] then 0.0 else RateSum(s[..|s| - 1]) + s[|s| - 1]
  }

  lemma RateAppend(s: seq<real>, v: real)
    ensures RateSum(s + [v]) == RateSum(s) + v
  {
    assert (s + [v])[..|s|] == s;
  }

  lemma {:induction false} RateUpdate(s: seq<real>, i: nat, v: real)
    requires i < |s|
    ensures RateSum(s[i := v]) == RateSum(s) - s[i] + v
  {
    var last := |s| - 1;
    if i == last {
      assert s[i := v][..last] == s[..last];
    } else {
      RateUpdate(s[..last], i, v);
      assert s[i := v][..last] == s[..last][i := v];
    }
  }

  lemma {:induction false} RateRemove(s: seq<real>, i: nat)
    requires i < |s|
    ensures RateSum(Without(s, i)) == RateSum(s) - s[i]
  {
    var last := |s| - 1;
    if i == last {
      assert Without(s, i) == s[..last];
    } else {
      RateRemove(s[..last], i);
      assert Without(s, i)[..last - 1] == Without(s[..last], i);
    }
  }

  lemma {:induction false} RatePositive(s: seq<real>)
    requires forall i :: 0 <= i < |s| ==> s[i] >= 0.0
    ensures RateSum(s) >= 0.0
  {
    if s != [] { RatePositive(s[..|s| - 1]); }
  }

  // ------------------------------------------------------------ cost budget

  /** Measured cost per coarse sample for decimations 2 to 24. */
  datatype Cost = Cost(ns: seq<real>, reserve: real, limit: real) {
    predicate Valid() {
      && |ns| == 23 && (forall i :: 0 <= i < 23 ==> ns[i] > 0.0) && reserve > 0.0 && limit > 0.0
    }
  }

  predicate Calibrated(ds: seq<nat>) { forall i :: 0 <= i < |ds| ==> 2 <= ds[i] <= 24 }

  function CostOf(c: Cost, coarse: real, d: nat): real
    requires c.Valid() && 2 <= d <= 24
  {
    coarse * c.ns[d - 2]
  }

  function Costs(c: Cost, coarse: real, ds: seq<nat>): (r: seq<real>)
    requires c.Valid() && Calibrated(ds)
    ensures |r| == |ds|
  {
    seq(|ds|, i requires 0 <= i < |ds| => CostOf(c, coarse, ds[i]))
  }

  /** All but element i. */
  function Without<T>(s: seq<T>, i: nat): (r: seq<T>)
    requires i < |s|
    ensures |r| == |s| - 1 && r == s[..i] + s[i + 1..]
    ensures forall k :: 0 <= k < |r| ==> r[k] == s[if k < i then k else k + 1]
  {
    s[..i] + s[i + 1..]
  }

  /** FineCostBudget::check. */
  predicate Affordable(c: Cost, coarse: real, ds: seq<nat>) {
    && c.Valid() && coarse > 0.0 && Calibrated(ds)
    && RateSum(Costs(c, coarse, ds)) * c.reserve <= c.limit
  }

  lemma CostsRemove(c: Cost, coarse: real, ds: seq<nat>, i: nat)
    requires c.Valid() && Calibrated(ds) && i < |ds|
    ensures Calibrated(Without(ds, i))
    ensures Costs(c, coarse, Without(ds, i)) == Without(Costs(c, coarse, ds), i)
  {
    hide CostOf;
  }

  /** Giving up a channel keeps the rest affordable. */
  lemma StillAffordable(c: Cost, coarse: real, ds: seq<nat>, i: nat)
    requires Affordable(c, coarse, ds) && i < |ds|
    ensures Affordable(c, coarse, Without(ds, i))
  {
    var all := Costs(c, coarse, ds);
    CostsRemove(c, coarse, ds, i);
    RateRemove(all, i);
    assert all[i] == CostOf(c, coarse, ds[i]) > 0.0;
    Shrinks(RateSum(all), all[i], c.reserve);
  }

  lemma Shrinks(a: real, b: real, r: real)
    requires b > 0.0 && r > 0.0
    ensures (a - b) * r <= a * r
  {
    assert b * r > 0.0;
  }

  /** The demand does not depend on where in the list the replacement stands. */
  lemma ReplacedAffordable(c: Cost, coarse: real, ds: seq<nat>, i: nat, d: nat)
    requires i < |ds| && Calibrated(ds) && Affordable(c, coarse, Without(ds, i) + [d])
    ensures Affordable(c, coarse, ds[i := d])
  {
    var rest, updated := Without(ds, i), ds[i := d];
    assert (rest + [d])[|rest|] == d;
    assert rest == Without(updated, i);
    CostsRemove(c, coarse, updated, i);
    var cu, cr := Costs(c, coarse, updated), Costs(c, coarse, rest);
    hide CostOf;
    RateRemove(cu, i);
    assert Costs(c, coarse, rest + [d]) == cr + [cu[i]];
    RateAppend(cr, cu[i]);
  }

  lemma CostNext(c: Cost, coarse: real, ds: seq<nat>, i: nat)
    requires c.Valid() && i < |ds| && Calibrated(ds[..i]) && 2 <= ds[i] <= 24
    ensures Calibrated(ds[..i + 1])
    ensures RateSum(Costs(c, coarse, ds[..i + 1])) == RateSum(Costs(c, coarse, ds[..i])) + coarse * c.ns[ds[i] - 2]
  {
    assert ds[..i + 1] == ds[..i] + [ds[i]];
    assert Costs(c, coarse, ds[..i + 1]) == Costs(c, coarse, ds[..i]) + [CostOf(c, coarse, ds[i])];
    RateAppend(Costs(c, coarse, ds[..i]), CostOf(c, coarse, ds[i]));
  }

  // ----------------------------------------------------------------- tuning

  /** Round to nearest, halves away from zero. */
  function Round(x: real): int {
    if x >= 0.0 then (x + 0.5).Floor else -((0.5 - x).Floor)
  }

  lemma RoundNearest(x: real)
    ensures -0.5 <= Round(x) as real - x <= 0.5
  {
  }

  /** A tie goes away from zero. */
  lemma RoundTies(x: real)
    ensures (Round(x) as real - x == 0.5 ==> x > 0.0) && (Round(x) as real - x == -0.5 ==> x < 0.0)
  {
  }

  ghost function Abs(x: real): real { if x < 0.0 then -x else x }

  datatype Tuning = Tuning(bin: nat, offset: real, tuned: real)

  /** Frequency of a request: its bin, counted from the centre, minus its offset. */
  ghost function Requested(binCount: nat, coarse: real, bin: nat, offset: real): real {
    (if bin >= binCount / 2 then bin - binCount else bin) as real * (coarse / 2.0) - offset
  }

  ghost function NearestBin(coarse: real, tuned: real): int
    requires coarse > 0.0
  {
    Round(tuned / (coarse / 2.0))
  }

  /** What is left for the fine oscillator. */
  ghost function Rest(coarse: real, tuned: real): real
    requires coarse > 0.0
  {
    NearestBin(coarse, tuned) as real * (coarse / 2.0) - tuned
  }

  /** prepare_with_plan: the nearest provisioned bin and the remaining offset. */
  ghost function Prepare(binCount: nat, bins: seq<nat>, coarse: real, usable: real, flat: real,
                   bin: nat, offset: real, passband: real): Option<Tuning>
  {
    if bin >= binCount || coarse <= 0.0 then None
    else
      var tuned := Requested(binCount, coarse, bin, offset);
      if Abs(tuned) + passband > usable then None
      else
        var nearest := NearestBin(coarse, tuned);
        var rest := Rest(coarse, tuned);
        if nearest < -(binCount / 2) || nearest > binCount / 2 then None
        else if nearest % binCount !in bins then None
        else if Abs(rest) + passband > flat then None
        else Some(Tuning(nearest % binCount, rest, tuned))
  }

  /** Two pairs of a bin and an offset name the same frequency, up to whole turns of the
      bin cycle: bin spacings of half the coarse rate, less the offset. */
  predicate SameFrequency(binCount: nat, coarse: real, bin: nat, offset: real, bin': nat, offset': real, turns: int) {
    (bin' - bin) as real * (coarse / 2.0) - (offset' - offset) == (turns * binCount) as real * (coarse / 2.0)
  }

  /** A prepared channel sits on a selected bin, at most half a spacing from its
      centre, at exactly the requested frequency, inside both passbands. */
  lemma PrepareTuned(binCount: nat, bins: seq<nat>, coarse: real, usable: real, flat: real,
                     bin: nat, offset: real, passband: real) returns (turns: int)
    requires Prepare(binCount, bins, coarse, usable, flat, bin, offset, passband).Some?
    ensures var t := Prepare(binCount, bins, coarse, usable, flat, bin, offset, passband).value;
            && t.bin in bins && t.bin < binCount
            && Abs(t.tuned) + passband <= usable && Abs(t.offset) + passband <= flat
            && Abs(t.offset) <= coarse / 4.0
            && BinFrequency(t, binCount, coarse, turns)
            && exists n :: SameFrequency(binCount, coarse, bin, offset, t.bin, t.offset, n)
  {
    var tuned := Requested(binCount, coarse, bin, offset);
    var nearest := NearestBin(coarse, tuned);
    var t := Tuning(nearest % binCount, Rest(coarse, tuned), tuned);
    var wrapped := if bin >= binCount / 2 then 1 else 0;
    assert tuned == (bin - wrapped * binCount) as real * (coarse / 2.0) - offset;
    hide Requested, Round, Abs, NearestBin, Rest;
    RestBound(coarse, tuned);
    turns := nearest / binCount;
    OnBin(binCount, coarse, tuned);
    SameOf(t, binCount, coarse, bin, offset, wrapped, turns);
    assert SameFrequency(binCount, coarse, bin, offset, t.bin, t.offset, -wrapped - turns);
  }

  lemma SameOf(t: Tuning, binCount: nat, coarse: real, bin: nat, offset: real, wrapped: int, turns: int)
    requires t.tuned == (bin - wrapped * binCount) as real * (coarse / 2.0) - offset
    requires BinFrequency(t, binCount, coarse, turns)
    ensures SameFrequency(binCount, coarse, bin, offset, t.bin, t.offset, -wrapped - turns)
  {
    var a, b, c := bin - wrapped * binCount, t.bin + turns * binCount, (-wrapped - turns) * binCount;
    assert t.bin - bin + (a - b) == c;
    Spread((t.bin - bin) as real, (a - b) as real, coarse / 2.0);
    Spread(b as real, (a - b) as real, coarse / 2.0);
  }

  lemma Spread(a: real, b: real, s: real)
    ensures (a + b) * s == a * s + b * s
  {
  }

  /** A provisioned bin asked for with a small offset is granted, with that offset, exactly
      when both passbands allow it. */
  lemma PrepareKeeps(binCount: nat, bins: seq<nat>, coarse: real, usable: real, flat: real,
                     bin: nat, offset: real, passband: real)
    requires bin < binCount && binCount % 2 == 0 && coarse > 0.0 && -(coarse / 4.0) < offset < coarse / 4.0
    ensures var p := Prepare(binCount, bins, coarse, usable, flat, bin, offset, passband);
            var signed := if bin >= binCount / 2 then bin - binCount else bin;
            && (p.Some? <==> bin in bins && Abs(signed as real * (coarse / 2.0) - offset) + passband <= usable
                             && Abs(offset) + passband <= flat)
            && (p.Some? ==> p.value.bin == bin && p.value.offset == offset)
  {
    var signed := if bin >= binCount / 2 then bin - binCount else bin;
    NearestIs(coarse, signed, offset);
    SignedBin(bin, binCount);
    assert -(binCount / 2) <= signed <= binCount / 2 && signed % binCount == bin;
    assert Requested(binCount, coarse, bin, offset) == signed as real * (coarse / 2.0) - offset;
    hide Abs, NearestBin, Rest, Requested;
  }

  /** A channel on bin', rotating by `step`, receives the requested frequency: bin and
      offset name it, and a provisioned bin with a small offset is kept as it is. */
  ghost predicate Receives(binCount: nat, coarse: real, bins: seq<nat>, bin: nat, offset: real, rotation: real -> C,
                           bin': nat, step: C)
    requires coarse > 0.0
  {
    && bin' in bins
    && (exists rest: real, turns: int ::
          SameFrequency(binCount, coarse, bin, offset, bin', rest, turns)
          && -(coarse / 4.0) <= rest <= coarse / 4.0 && step == rotation(rest / coarse))
    && (bin in bins && binCount % 2 == 0 && -(coarse / 4.0) < offset < coarse / 4.0 ==>
          bin' == bin && step == rotation(offset / coarse))
  }

  lemma PrepareReceives(binCount: nat, bins: seq<nat>, coarse: real, usable: real, flat: real,
                        bin: nat, offset: real, passband: real, rotation: real -> C)
    requires Prepare(binCount, bins, coarse, usable, flat, bin, offset, passband).Some?
    ensures coarse > 0.0
    ensures var t := Prepare(binCount, bins, coarse, usable, flat, bin, offset, passband).value;
            Receives(binCount, coarse, bins, bin, offset, rotation, t.bin, rotation(t.offset / coarse))
  {
    var t := Prepare(binCount, bins, coarse, usable, flat, bin, offset, passband).value;
    var turns := PrepareTuned(binCount, bins, coarse, usable, flat, bin, offset, passband);
    assert coarse > 0.0 && bin < binCount && -(coarse / 4.0) <= t.offset <= coarse / 4.0;
    hide Prepare, SameFrequency;
    var n :| SameFrequency(binCount, coarse, bin, offset, t.bin, t.offset, n);
    if bin in bins && binCount % 2 == 0 && -(coarse / 4.0) < offset < coarse / 4.0 {
      PrepareKeeps(binCount, bins, coarse, usable, flat, bin, offset, passband);
    }
  }

  lemma SignedBin(bin: nat, binCount: nat)
    requires bin < binCount
    ensures bin % binCount == bin && (bin - binCount) % binCount == bin
  {
    DivModUnique(bin, binCount, 0, bin);
    DivModUnique(bin - binCount, binCount, -1, bin);
  }

  /** The bin nearest to a frequency less than half a spacing from it. */
  lemma NearestIs(coarse: real, signed: int, offset: real)
    requires coarse > 0.0 && -(coarse / 4.0) < offset < coarse / 4.0
    ensures var tuned := signed as real * (coarse / 2.0) - offset;
            NearestBin(coarse, tuned) == signed && Rest(coarse, tuned) == offset
  {
    hide Round;
    var tuned := signed as real * (coarse / 2.0) - offset;
    CloseQuotient(tuned, coarse / 2.0, signed as real, offset);
    RoundIs(tuned / (coarse / 2.0), signed);
  }

  lemma RoundIs(x: real, n: int)
    requires -0.5 < x - n as real < 0.5
    ensures Round(x) == n
  {
    RoundNearest(x);
    hide Round;
    assert -1.0 < Round(x) as real - n as real < 1.0;
  }

  lemma CloseQuotient(tuned: real, spacing: real, signed: real, offset: real)
    requires spacing > 0.0 && tuned == signed * spacing - offset && -(spacing / 2.0) < offset < spacing / 2.0
    ensures -0.5 < tuned / spacing - signed < 0.5
  {
    var e := tuned / spacing - signed;
    assert e * spacing == -offset by {
      assert tuned / spacing * spacing == tuned;
      Spread(tuned / spacing, -signed, spacing);
    }
    if e >= 0.5 { Within2(e - 0.5, spacing); }
    if e <= -0.5 { Within2(-0.5 - e, spacing); }
  }

  lemma Within2(a: real, s: real)
    requires a >= 0.0 && s > 0.0
    ensures a * s >= 0.0
  {
  }

  lemma RestBound(coarse: real, tuned: real)
    requires coarse > 0.0
    ensures Abs(Rest(coarse, tuned)) <= coarse / 4.0
  {
    RoundNearest(tuned / (coarse / 2.0));
    OffsetBound(NearestBin(coarse, tuned) as real, tuned, coarse / 2.0);
  }

  lemma OnBin(binCount: nat, coarse: real, tuned: real)
    requires coarse > 0.0 && binCount > 0
    ensures var nearest := NearestBin(coarse, tuned);
            && 0 <= nearest % binCount < binCount
            && BinFrequency(Tuning(nearest % binCount, Rest(coarse, tuned), tuned), binCount, coarse,
                            nearest / binCount)
  {
    TurnsOf(NearestBin(coarse, tuned), binCount);
    hide NearestBin;
  }

  lemma TurnsOf(n: int, m: nat)
    requires m > 0
    ensures 0 <= n % m < m && n % m + (n / m) * m == n
  {
  }

  /** The channel frequency is the centre of its bin, up to whole turns of the
      bin cycle, minus its offset. */
  predicate BinFrequency(t: Tuning, binCount: nat, coarse: real, turns: int) {
    t.tuned == (t.bin + turns * binCount) as real * (coarse / 2.0) - t.offset
  }

  lemma OffsetBound(nearest: real, tuned: real, spacing: real)
    requires spacing > 0.0 && -0.5 <= nearest - tuned / spacing <= 0.5
    ensures Abs(nearest * spacing - tuned) <= spacing / 2.0
  {
    var q := tuned / spacing;
    assert q * spacing == tuned;
    var e := nearest - q;
    assert nearest * spacing - tuned == e * spacing;
    Within(e, spacing);
  }

  lemma Within(e: real, s: real)
    requires s > 0.0 && -0.5 <= e <= 0.5
    ensures -(s / 2.0) <= e * s <= s / 2.0
  {
    assert (0.5 - e) * s >= 0.0;
    assert (e + 0.5) * s >= 0.0;
  }

  function CoarsePassband(coarse: real, taps: nat): Option<real> {
    if coarse <= 0.0 then None
    else if taps == 16 then Some(430000.0 * coarse / 976562.5)
    else if taps == 8 then Some(380000.0 * coarse / 976562.5)
    else if taps == 4 then Some(275000.0 * coarse / 976562.5)
    else None
  }

  predicate Selection(bins: seq<nat>, binCount: nat) {
    && bins != [] && (forall i :: 0 <= i < |bins| ==> bins[i] < binCount)
    && forall i, j :: 0 <= i < j < |bins| ==> bins[i] != bins[j]
  }

  function Position(bins: seq<nat>, bin: nat): (i: nat)
    requires bin in bins
    ensures i < |bins| && bins[i] == bin && forall k :: 0 <= k < i ==> bins[k] != bin
  {
    if bins[0] == bin then 0 else 1 + Position(bins[1..], bin)
  }

  // ------------------------------------------------------------ the account

  /** What the bank knows of a channel without looking at its stream. */
  datatype Entry = Entry(id: nat, epoch: nat, bin: nat, inputHop: nat, decimate: nat, rate: real, planned: bool)

  function Rates(es: seq<Entry>): (r: seq<real>)
    ensures |r| == |es|
  {
    seq(|es|, i requires 0 <= i < |es| => es[i].rate)
  }

  function Decimations(es: seq<Entry>): (r: seq<nat>)
    ensures |r| == |es|
  {
    seq(|es|, i requires 0 <= i < |es| => es[i].decimate)
  }

  predicate Bounded(es: seq<Entry>, last: Option<nat>) {
    es != [] ==> last.Some? && forall i :: 0 <= i < |es| ==> 0 < es[i].id <= last.value
  }

  predicate Distinct(es: seq<Entry>) { forall i, j :: 0 <= i < j < |es| ==> es[i].id != es[j].id }

  datatype Account = Account(entries: seq<Entry>, bins: seq<nat>, epoch: nat, coarse: real, binCount: nat,
                             channelBudget: nat, rateBudget: real, used: real, cost: Option<Cost>,
                             lastId: Option<nat>, failed: bool) {
    predicate WithinRate(total: real) { total <= rateBudget + rateBudget * 0.000000000001 }

    predicate Fits(e: Entry) {
      && e.epoch == epoch && e.bin in bins && e.inputHop == binCount / 2 && e.decimate > 0
      && e.rate == coarse / e.decimate as real && e.rate > 0.0
    }

    /** Every entry fits the bank, and ids are distinct and bounded by the last. */
    predicate Roster() {
      |entries| <= channelBudget && AllFit() && Bounded(entries, lastId) && Distinct(entries)
    }

    predicate AllFit() { forall i :: 0 <= i < |entries| ==> Fits(entries[i]) }

    /** The used rate is the exact sum of the active rates, and within budget. */
    predicate Rated() { used == RateSum(Rates(entries)) && WithinRate(used) }

    predicate Costed() {
      cost.Some? ==> Affordable(cost.value, coarse, Decimations(entries))
                     && forall i :: 0 <= i < |entries| ==> !entries[i].planned
    }

    predicate Ok() {
      && coarse > 0.0 && rateBudget > 0.0 && binCount >= 2 && Selection(bins, binCount)
      && 0 < epoch < 0x1_0000_0000
      && Roster() && Rated() && Costed()
    }

    /** check_admission, for a new channel or a replacement at `at`. */
    predicate Admission(at: Option<nat>, decimate: int)
      requires at.Some? ==> at.value < |entries|
    {
      && !failed && (at.None? ==> |entries| < channelBudget) && decimate > 0
      && WithinRate(used - (if at.Some? then entries[at.value].rate else 0.0) + coarse / decimate as real)
      && (cost.Some? ==>
            Affordable(cost.value, coarse,
                       Decimations(if at.Some? then Without(entries, at.value) else entries) + [decimate as nat]))
    }

    /** check_id: ids increase. */
    predicate GoodId(id: nat) { 0 < id < 0x1_0000_0000 && (lastId.Some? ==> id > lastId.value) }
  }

  lemma Enrolled(a: Account, a': Account, e: Entry)
    requires a.Ok() && a.Admission(None, e.decimate) && a.GoodId(e.id) && a.Fits(e)
    requires e.planned ==> a.cost.None?
    requires a' == a.(entries := a.entries + [e], used := a.used + e.rate, lastId := Some(e.id))
    ensures a'.Ok()
  {
    RateAppend(Rates(a.entries), e.rate);
    assert Rates(a'.entries) == Rates(a.entries) + [e.rate];
    assert Decimations(a'.entries) == Decimations(a.entries) + [e.decimate];
    hide Affordable, RateSum, Selection;
  }

  lemma Replaced(a: Account, a': Account, at: nat, e: Entry)
    requires a.Ok() && at < |a.entries| && a.Admission(Some(at), e.decimate) && a.GoodId(e.id) && a.Fits(e)
    requires e.planned ==> a.cost.None?
    requires a' == a.(entries := a.entries[at := e], used := a.used - a.entries[at].rate + e.rate,
                      lastId := Some(e.id))
    ensures a'.Ok()
  {
    ReplacedRoster(a, a', at, e);
    ReplacedRates(a, a', at, e);
    hide Account.Roster, Account.Rated, Affordable, Selection;
    assert Decimations(a'.entries) == Decimations(a.entries)[at := e.decimate];
    DecimationsWithout(a.entries, at);
    if a.cost.Some? { ReplacedAffordable(a.cost.value, a.coarse, Decimations(a.entries), at, e.decimate); }
  }

  lemma ReplacedRoster(a: Account, a': Account, at: nat, e: Entry)
    requires a.Roster() && at < |a.entries| && a.GoodId(e.id) && a.Fits(e)
    requires a' == a.(entries := a.entries[at := e], used := a'.used, lastId := Some(e.id))
    ensures a'.Roster()
  {
    hide Account.Fits;
    forall i | 0 <= i < |a'.entries|
      ensures a'.Fits(a'.entries[i])
    {
      SameFit(a, a', if i == at then e else a.entries[i]);
    }
  }

  lemma ReplacedRates(a: Account, a': Account, at: nat, e: Entry)
    requires a.Rated() && at < |a.entries| && a.Admission(Some(at), e.decimate)
    requires e.decimate > 0 && e.rate == a.coarse / e.decimate as real
    requires a' == a.(entries := a.entries[at := e], used := a.used - a.entries[at].rate + e.rate,
                      lastId := Some(e.id))
    ensures a'.Rated()
  {
    RateUpdate(Rates(a.entries), at, e.rate);
    assert Rates(a'.entries) == Rates(a.entries)[at := e.rate];
    hide Affordable, RateSum;
  }

  lemma Dropped(a: Account, a': Account, at: nat)
    requires a.Ok() && at < |a.entries|
    requires a' == a.(entries := Without(a.entries, at), used := a.used - a.entries[at].rate)
    ensures a'.Ok() && a'.used >= 0.0
  {
    DroppedRoster(a, a', at);
    DroppedRates(a, a', at);
    hide Account.Roster, Account.Rated, Affordable, Selection;
    DecimationsWithout(a.entries, at);
    if a.cost.Some? { StillAffordable(a.cost.value, a.coarse, Decimations(a.entries), at); }
  }

  lemma BudgetSet(a: Account, budget: Cost)
    requires a.Ok() && Affordable(budget, a.coarse, Decimations(a.entries))
    requires forall i :: 0 <= i < |a.entries| ==> !a.entries[i].planned
    ensures a.(cost := Some(budget)).Ok()
  {
    var b := a.(cost := Some(budget));
    assert b.Roster() && b.Rated() && b.Costed();
  }

  lemma DroppedRoster(a: Account, a': Account, at: nat)
    requires a.Roster() && at < |a.entries| && a' == a.(entries := Without(a.entries, at), used := a'.used)
    ensures a'.Roster()
  {
    DroppedFit(a, a', at);
    DroppedBounded(a.entries, a.lastId, at);
    DroppedDistinct(a.entries, at);
    hide Account.AllFit, Bounded, Distinct;
  }

  lemma DroppedFit(a: Account, a': Account, at: nat)
    requires at < |a.entries| && a' == a.(entries := Without(a.entries, at), used := a'.used)
    requires a.AllFit()
    ensures a'.AllFit()
  {
    hide Account.Fits;
    forall i | 0 <= i < |a'.entries|
      ensures a'.Fits(a'.entries[i])
    {
      var k := if i < at then i else i + 1;
      assert a'.entries[i] == a.entries[k] && a.Fits(a.entries[k]);
      SameFit(a, a', a.entries[k]);
    }
  }

  lemma DroppedBounded(es: seq<Entry>, last: Option<nat>, at: nat)
    requires at < |es| && Bounded(es, last)
    ensures Bounded(Without(es, at), last)
  {
    var rest := Without(es, at);
    forall i | 0 <= i < |rest|
      ensures 0 < rest[i].id <= last.value
    {
      assert rest[i] == es[if i < at then i else i + 1];
    }
  }

  lemma DroppedDistinct(es: seq<Entry>, at: nat)
    requires at < |es| && Distinct(es)
    ensures Distinct(Without(es, at))
  {
    var rest := Without(es, at);
    forall i, j | 0 <= i < j < |rest|
      ensures rest[i].id != rest[j].id
    {
      var k, l := if i < at then i else i + 1, if j < at then j else j + 1;
      assert rest[i] == es[k] && rest[j] == es[l] && k < l < |es|;
    }
  }

  lemma SameFit(a: Account, b: Account, e: Entry)
    requires a.Fits(e) && b.bins == a.bins && b.epoch == a.epoch && b.coarse == a.coarse && b.binCount == a.binCount
    ensures b.Fits(e)
  {
  }

  lemma DroppedRates(a: Account, a': Account, at: nat)
    requires a.Roster() && a.Rated() && at < |a.entries|
    requires a' == a.(entries := Without(a.entries, at), used := a.used - a.entries[at].rate)
    ensures a'.Rated() && a'.used >= 0.0
  {
    RateRemove(Rates(a.entries), at);
    RatesWithout(a.entries, at);
    assert a.Fits(a.entries[at]) && Rates(a.entries)[at] == a.entries[at].rate > 0.0;
    var rates := Rates(a'.entries);
    forall i | 0 <= i < |rates|
      ensures rates[i] >= 0.0
    {
      assert a.Fits(a.entries[if i < at then i else i + 1]);
    }
    RatePositive(rates);
  }

  lemma DecimationsWithout(es: seq<Entry>, at: nat)
    requires at < |es|
    ensures Decimations(Without(es, at)) == Without(Decimations(es), at)
  {
  }

  lemma RatesWithout(es: seq<Entry>, at: nat)
    requires at < |es|
    ensures Rates(Without(es, at)) == Without(Rates(es), at)
  {
  }

  // ------------------------------------------------- the channels together

  /** A channel follows its own bin's column and waits for packet `next`. */
  ghost predicate Follows(ch: F.FineChannel, bins: seq<nat>, next: nat, broken: bool)
    reads ch, ch.repr
  {
    && ch.Valid() && ch.columns == |bins| && ch.column < |bins| && bins[ch.column] == ch.bin
    && (!broken ==> ch.expectedSeq == next)
  }

  ghost function All(chs: seq<F.FineChannel>): set<object> {
    set i, o | 0 <= i < |chs| && o in chs[i].repr :: o
  }

  ghost predicate Separate(chs: seq<F.FineChannel>) {
    && (forall i :: 0 <= i < |chs| ==> chs[i] in chs[i].repr)
    && forall i, j :: 0 <= i < j < |chs| ==> chs[i].repr !! chs[j].repr
  }

  /** Moves every channel to its bin's column in a new selection. */
  method MoveAll(chs: seq<F.FineChannel>, ghost bins: seq<nat>, selection: seq<nat>, ghost next: nat,
                 ghost broken: bool)
    requires Separate(chs) && forall i :: 0 <= i < |chs| ==> Follows(chs[i], bins, next, broken)
    requires forall i :: 0 <= i < |chs| ==> chs[i].bin in selection
    modifies chs
    ensures forall i :: 0 <= i < |chs| ==> Follows(chs[i], selection, next, broken)
    ensures forall i :: 0 <= i < |chs| ==> chs[i].column == Position(selection, chs[i].bin)
    ensures forall i :: 0 <= i < |chs| ==>
              chs[i].fed == old(chs[i].fed) && chs[i].expectedSeq == old(chs[i].expectedSeq)
  {
    hide F.FineChannel.Valid, Position;
    var i := 0;
    while i < |chs|
      invariant 0 <= i <= |chs|
      invariant forall j :: 0 <= j < i ==> Follows(chs[j], selection, next, broken)
      invariant forall j :: 0 <= j < i ==> chs[j].column == Position(selection, chs[j].bin)
      invariant forall j :: i <= j < |chs| ==> Follows(chs[j], bins, next, broken)
      invariant forall j :: 0 <= j < |chs| ==>
                  chs[j].fed == old(chs[j].fed) && chs[j].expectedSeq == old(chs[j].expectedSeq)
    {
      chs[i].Remap(Position(selection, chs[i].bin), |selection|);
      i := i + 1;
    }
  }

  /** What one delivery gives a channel: its own column joins its stream, and the
      output continues the meaning of that stream with its exact clock. */
  ghost predicate Served(ch: F.FineChannel, before: seq<C>, inStep: bool, p: F.PfbOutput, out: F.FineOutput)
    reads ch
  {
    && F.Shaped(p, ch.columns) && ch.column < ch.columns && ch.kernel.Configured()
    && ch.fed == before + F.Column(p.iq, ch.columns, ch.column, p.groups)
    && ch.kernel.Meaning(ch.fed) == ch.kernel.Meaning(before) + out.iq
    && out.channelId == ch.id && out.epoch == ch.epoch && out.bin == ch.bin
    && out.seqno == p.seqno && out.stamp == p.stamp
    && ch.decimate > 0 && out.outputIndex == Count(|before|, ch.decimate)
    && (inStep ==> out.inputIndex == F.OutputInstant(ch.inputHop, ch.joined, ch.decimate, out.outputIndex))
  }

  /** Serves one channel. Its output is handed to the consumer, which may refuse it or
      be too slow; a channel that fails itself gives nothing and stays as it was. */
  method ServeOne(ch: F.FineChannel, ghost bins: seq<nat>, ghost next: nat, p: F.PfbOutput)
    returns (ok: bool, out: seq<F.FineOutput>)
    requires Follows(ch, bins, next, false) && p.inputIndex < CLOCK
    modifies ch.repr
    ensures Follows(ch, bins, next + 1, !ok) && |out| <= 1 && (ok ==> |out| == 1)
    ensures if |out| == 1 then Served(ch, old(ch.fed), old(ch.InStep(p)), p, out[0]) else ch.fed == old(ch.fed)
  {
    hide F.FineChannel.Valid, F.Kernel.Meaning, F.Kernel.Configured, F.OutputInstant, F.Column;
    var r := ch.Process(p);
    var consumed: bool := *;
    var inTime: bool := *;
    if r.Err? { return false, []; }
    ok, out := consumed && inTime, [r.output];
  }

  /** In a bank that failed, a channel need not wait for the next packet. */
  lemma StillFollows(ch: F.FineChannel, bins: seq<nat>, next: nat, other: nat, broken: bool)
    requires Follows(ch, bins, next, broken)
    ensures Follows(ch, bins, other, true)
  {
  }

  /** Serves the channels in order until one fails. The consumer has been handed the
      outputs of a prefix of the channels; exactly these have advanced. */
  method ServeAll(chs: seq<F.FineChannel>, ghost bins: seq<nat>, ghost next: nat, p: F.PfbOutput)
    returns (ok: bool, outputs: seq<F.FineOutput>)
    requires Separate(chs) && p.inputIndex < CLOCK
    requires forall i :: 0 <= i < |chs| ==> Follows(chs[i], bins, next, false)
    modifies All(chs)
    ensures forall i :: 0 <= i < |chs| ==> Follows(chs[i], bins, if ok then next + 1 else next, !ok)
    ensures |outputs| <= |chs| && (ok ==> |outputs| == |chs|)
    ensures forall i :: 0 <= i < |outputs| ==>
              Served(chs[i], old(chs[i].fed), old(chs[i].InStep(p)), p, outputs[i])
    ensures forall i :: |outputs| <= i < |chs| ==> chs[i].fed == old(chs[i].fed)
  {
    hide Follows, Served, F.FineChannel.InStep;
    outputs := [];
    var i := 0;
    while i < |chs|
      invariant 0 <= i <= |chs| && |outputs| == i
      invariant forall j :: 0 <= j < i ==> Follows(chs[j], bins, next + 1, false)
      invariant forall j :: 0 <= j < i ==>
                  Served(chs[j], old(chs[j].fed), old(chs[j].InStep(p)), p, outputs[j])
      invariant forall j :: i <= j < |chs| ==>
                  && Follows(chs[j], bins, next, false)
                  && chs[j].fed == old(chs[j].fed) && chs[j].InStep(p) == old(chs[j].InStep(p))
    {
      var served, out := ServeOne(chs[i], bins, next, p);
      outputs := outputs + out;
      if !served {
        forall j | 0 <= j < |chs|
          ensures Follows(chs[j], bins, next, true)
        {
          if j < i { StillFollows(chs[j], bins, next + 1, next, false); }
          if j > i { StillFollows(chs[j], bins, next, next, false); }
          if j == i { StillFollows(chs[j], bins, next + 1, next, true); }
        }
        return false, outputs;
      }
      i := i + 1;
    }
    ok := true;
  }

  // --------------------------------------------------------------- the bank

  /** subscribe and retune name a decimation, their planned forms a plan. */
  datatype Request = Plain(decimate: int) | ByPlan(plan: P.Plan) {
    function Decimate(): int { if Plain? then decimate else plan.decimate }

    function Passband(coarse: real): real
      requires Decimate() != 0
    {
      if Plain? then coarse / (2 * decimate) as real else plan.occupied / 2.0
    }
  }

  class FineBank {
    var channels: seq<F.FineChannel>
    var bins: seq<nat>
    const epoch: nat
    var nextSeq: nat
    const coarseRate: real
    const binCount: nat
    const usableHalf: real
    const flatHalf: real
    const maxGroups: nat
    const channelBudget: nat
    const rateBudget: real
    var rateUsed: real
    var cost: Option<Cost>
    var lastId: Option<nat>
    var failed: bool

    static function EntryOf(ch: F.FineChannel): Entry {
      Entry(ch.id, ch.epoch, ch.bin, ch.inputHop, ch.decimate, ch.outputRate, ch.kernel.Planned?)
    }

    static function Entries(chs: seq<F.FineChannel>): (es: seq<Entry>)
      ensures |es| == |chs|
    {
      seq(|chs|, i requires 0 <= i < |chs| => EntryOf(chs[i]))
    }

    function View(): Account
      reads this`channels, this`bins, this`rateUsed, this`cost, this`lastId, this`failed
    {
      Account(Entries(channels), bins, epoch, coarseRate, binCount, channelBudget, rateBudget,
              rateUsed, cost, lastId, failed)
    }

    ghost predicate InLockstep(ch: F.FineChannel)
      reads this`bins, this`nextSeq, this`failed, ch, ch.repr
    {
      Follows(ch, bins, nextSeq, failed)
    }

    ghost function Footprint(): set<object>
      reads this`channels
    {
      All(channels)
    }

    ghost predicate Apart()
      reads this`channels
    {
      this !in Footprint() && Separate(channels)
    }

    ghost predicate Valid()
      reads this, channels, Footprint()
    {
      && View().Ok() && Apart() && maxGroups > 0
      && forall i :: 0 <= i < |channels| ==> InLockstep(channels[i])
    }

    constructor (epoch: nat, bins: seq<nat>, coarseRate: real, binCount: nat, usableBandwidth: real,
                 taps: nat, maxGroups: nat, channelBudget: nat, rateBudget: real)
      requires 0 < epoch < 0x1_0000_0000 && 0.0 < usableBandwidth && maxGroups > 0 && channelBudget > 0
      requires rateBudget > 0.0 && binCount >= 2 && Selection(bins, binCount)
      requires CoarsePassband(coarseRate, taps).Some?
      ensures usableHalf == usableBandwidth / 2.0 && this.coarseRate == coarseRate && this.binCount == binCount
      ensures flatHalf == (if taps == 16 then 430000.0 else if taps == 8 then 380000.0 else 275000.0)
                          * coarseRate / 976562.5
      ensures this.epoch == epoch && this.maxGroups == maxGroups && this.channelBudget == channelBudget
      ensures this.rateBudget == rateBudget && cost.None? && rateUsed == 0.0
      ensures Valid() && channels == [] && this.bins == bins && nextSeq == 0 && !failed && lastId.None?
    {
      channels, this.bins, this.epoch, nextSeq := [], bins, epoch, 0;
      this.coarseRate, this.binCount, usableHalf := coarseRate, binCount, usableBandwidth / 2.0;
      flatHalf := CoarsePassband(coarseRate, taps).value;
      this.maxGroups, this.channelBudget, this.rateBudget := maxGroups, channelBudget, rateBudget;
      rateUsed, cost, lastId, failed := 0.0, None, None, false;
    }

    function IndexOf(id: nat): (at: Option<nat>)
      reads this`channels
      ensures at.Some? ==> at.value < |channels| && channels[at.value].id == id
      ensures at.None? ==> forall i :: 0 <= i < |channels| ==> channels[i].id != id
    {
      FindFrom(id, 0)
    }

    function FindFrom(id: nat, from: nat): (at: Option<nat>)
      requires from <= |channels|
      reads this`channels
      ensures at.Some? ==> at.value < |channels| && channels[at.value].id == id
      ensures at.None? ==> forall i :: from <= i < |channels| ==> channels[i].id != id
      decreases |channels| - from
    {
      if from == |channels| then None
      else if channels[from].id == id then Some(from)
      else FindFrom(id, from + 1)
    }

    ghost function Tune(bin: nat, offset: real, passband: real): Option<Tuning>
      reads this`bins
    {
      Prepare(binCount, bins, coarseRate, usableHalf, flatHalf, bin, offset, passband)
    }

    /** A kernel as channel_open returns it: new, with the asked decimation. */
    ghost predicate NewKernel(k: F.Kernel, decimate: int)
      reads this`channels, k.Repr()
    {
      && k.After([]) && k.Decimation() == decimate
      && k.Repr() !! Footprint() && this !in k.Repr()
    }

    /** The kernel of a request can be built: its decimation needs no first stage, or its
        plan is valid and every stage has a filter. */
    ghost predicate Opens(request: Request, scale: real) {
      match request
      case Plain(decimate) => O.Split(coarseRate, decimate, 1)
      case ByPlan(plan) =>
        plan.Valid(coarseRate, scale) && O.AllTaps(scale, coarseRate, P.FactorsOf(plan.decimate), plan)
    }

    /** The filters of a request's kernel: the fused pair of a decimation without a first
        stage, or those of every stage of the plan. */
    ghost predicate Filters(k: F.Kernel, request: Request, scale: real, design: O.Design) {
      match k
      case Pair(c) =>
        && request.Plain? && request.decimate > 0 && c.fused.Some? && c.d1 == 1 && c.d2 == request.decimate
        && c.h1 == design(16, 0.40) && c.h2 == design(32 * request.decimate, 0.49 / request.decimate as real)
      case Planned(c) =>
        request.ByPlan? && O.Designed(c.stages, coarseRate, request.plan, scale, design)
    }

    /** Every plan that the planner returns can be built. */
    lemma PlanOpens(plan: P.Plan, mode: string, occupied: real, scale: real)
      requires P.IsPlan(plan, coarseRate, mode, occupied, scale) && 0.0 < scale <= 1600.0
      ensures Opens(ByPlan(plan), scale)
    {
      O.PlansOpen(plan, coarseRate, mode, occupied, scale);
    }

    /** The kernel of a request: the fused pair, or the planned cascade. */
    method OpenKernel(offset: real, request: Request, rotation: real -> C, scale: real, design: O.Design, avx2: bool)
      returns (kernel: Option<F.Kernel>)
      requires coarseRate > 0.0 && O.Designs(design) && forall angle :: Unit(rotation(angle))
      ensures kernel.Some? ==>
                && fresh(kernel.value.Repr()) && kernel.value.After([])
                && kernel.value.Decimation() == request.Decimate() && kernel.value.Planned? == request.ByPlan?
                && kernel.value.Step() == rotation(offset / coarseRate)
                && Filters(kernel.value, request, scale, design)
      ensures kernel.Some? <==> O.OffsetInBand(coarseRate, offset) && Opens(request, scale)
    {
      hide O.Split, P.Plan.Valid, Unit, O.AllTaps, P.FactorsOf, O.Designed;
      match request
      case Plain(decimate) =>
        var c := O.OpenCoarse(coarseRate, offset, rotation(offset / coarseRate), decimate, design, avx2);
        if c.Some? { kernel := Some(F.Pair(c.value)); } else { kernel := None; }
      case ByPlan(plan) =>
        var c := O.OpenPlanned(coarseRate, offset, rotation(offset / coarseRate), plan, scale, design, avx2);
        if c.Some? { kernel := Some(F.Planned(c.value)); } else { kernel := None; }
    }

    /** Builds the channel for an accepted tuning. */
    method NewChannel(id: nat, bin: nat, decimate: nat, kernel: F.Kernel, ghost joined: nat)
      returns (ch: F.FineChannel)
      requires Valid() && decimate > 0 && NewKernel(kernel, decimate) && bin in bins && maxGroups <= MAX_PACKET
      ensures fresh(ch) && ch.fed == [] && ch.joined == joined && fresh(ch.repr - kernel.Repr())
      ensures EntryOf(ch) ==
              Entry(id, epoch, bin, binCount / 2, decimate, coarseRate / decimate as real, kernel.Planned?)
      ensures ch.kernel == kernel && ch.expectedSeq == nextSeq
      ensures Valid() && InLockstep(ch) && ch in ch.repr && ch.repr !! Footprint() && this !in ch.repr
    {
      hide Account.Ok, F.FineChannel.Valid, F.Kernel.After, F.Kernel.Repr, Position;
      SelectionSize(View(), bin);
      ch := new F.FineChannel(id, epoch, bin, Position(bins, bin), |bins|, nextSeq, binCount / 2, decimate,
                              maxGroups, coarseRate / decimate as real, kernel, joined);
    }

    /** All checks of subscribe, retune and their planned forms before a kernel is opened:
        the tuning when every one of them passes. */
    ghost function Accepted(at: Option<nat>, id: nat, bin: nat, offset: real, decimate: int, passband: real,
                            planned: bool): Option<Tuning>
      requires at.Some? ==> at.value < |channels|
      reads this`channels, this`bins, this`rateUsed, this`cost, this`lastId, this`failed
    {
      if !View().Admission(at, decimate) || !View().GoodId(id) || maxGroups > MAX_PACKET || (planned && cost.Some?)
      then None
      else Tune(bin, offset, passband)
    }

    lemma RateIsPositive()
      requires Valid()
      ensures coarseRate > 0.0
    {
    }

    /** check_rate. */
    method CheckRate(total: real) returns (ok: bool)
      ensures ok <==> View().WithinRate(total)
    {
      ok := !(total > rateBudget + rateBudget * 0.000000000001);
    }

    /** FineCostBudget::check: the calibrated costs are added up one by one. */
    method CheckCost(c: Cost, ds: seq<nat>) returns (ok: bool)
      ensures ok <==> Affordable(c, coarseRate, ds)
    {
      if coarseRate <= 0.0 || |c.ns| != 23 || (exists i :: 0 <= i < |c.ns| && c.ns[i] <= 0.0)
         || c.reserve <= 0.0 || c.limit <= 0.0 {
        return false;
      }
      var cost := 0.0;
      for i := 0 to |ds|
        invariant Calibrated(ds[..i]) && cost == RateSum(Costs(c, coarseRate, ds[..i]))
      {
        if !(2 <= ds[i] <= 24) { return false; }
        CostNext(c, coarseRate, ds, i);
        cost := cost + coarseRate * c.ns[ds[i] - 2];
      }
      assert ds[..|ds|] == ds;
      ok := !(cost * c.reserve > c.limit);
    }

    /** check_admission. */
    method CheckAdmission(at: Option<nat>, decimate: int) returns (ok: bool)
      requires at.Some? ==> at.value < |channels|
      ensures ok <==> View().Admission(at, decimate)
    {
      hide Affordable;
      if failed { return false; }
      if at.None? && |channels| >= channelBudget { return false; }
      if decimate <= 0 { return false; }
      var given := if at.Some? then channels[at.value].outputRate else 0.0;
      assert at.Some? ==> View().entries[at.value].rate == given;
      ok := CheckRate(rateUsed - given + coarseRate / decimate as real);
      if !ok || cost.None? { return; }
      var ds := OtherDecimations(at);
      ok := CheckCost(cost.value, ds + [decimate]);
    }

    /** The decimations of all channels but the replaced one. */
    method OtherDecimations(at: Option<nat>) returns (ds: seq<nat>)
      requires at.Some? ==> at.value < |channels|
      ensures ds == Decimations(if at.Some? then Without(View().entries, at.value) else View().entries)
    {
      ds := [];
      for i := 0 to |channels|
        invariant |ds| == (if at.Some? && at.value < i then i - 1 else i)
        invariant forall k :: 0 <= k < |ds| ==>
                    ds[k] == channels[if at.Some? && at.value <= k then k + 1 else k].decimate
      {
        if at != Some(i) { ds := ds + [channels[i].decimate]; }
      }
      ghost var es := View().entries;
      assert forall k :: 0 <= k < |es| ==> es[k] == EntryOf(channels[k]);
    }

    /** check_id: ids are nonzero 32-bit numbers and increase. */
    method CheckId(id: nat) returns (ok: bool)
      ensures ok <==> View().GoodId(id)
    {
      if id == 0 || id > 0xFFFF_FFFF { return false; }
      ok := lastId.None? || id > lastId.value;
    }

    /** prepare_with_plan: the tuning of a request. */
    method PrepareTuning(bin: nat, offset: real, passband: real) returns (t: Option<Tuning>)
      requires coarseRate > 0.0
      ensures t == Tune(bin, offset, passband)
    {
      hide Round;
      if bin >= binCount { return None; }
      var signed: int := bin;
      if bin >= binCount / 2 { signed := bin - binCount; }
      var spacing := coarseRate / 2.0;
      var tuned := signed as real * spacing - offset;
      assert tuned == Requested(binCount, coarseRate, bin, offset);
      if (if tuned < 0.0 then -tuned else tuned) + passband > usableHalf { return None; }
      var nearest := Round(tuned / spacing);
      assert nearest == NearestBin(coarseRate, tuned);
      hide Requested, NearestBin;
      if nearest < -(binCount / 2) || nearest > binCount / 2 { return None; }
      var selected := nearest % binCount;
      if selected !in bins { return None; }
      var rest := nearest as real * spacing - tuned;
      assert rest == Rest(coarseRate, tuned);
      if (if rest < 0.0 then -rest else rest) + passband > flatHalf { return None; }
      t := Some(Tuning(selected, rest, tuned));
    }

    /** The checks in their order; nothing changes. */
    method Accept(at: Option<nat>, id: nat, bin: nat, offset: real, decimate: int, passband: real, planned: bool)
      returns (t: Option<Tuning>)
      requires Valid() && (at.Some? ==> at.value < |channels|)
      ensures t == Accepted(at, id, bin, offset, decimate, passband, planned)
    {
      hide Prepare, Account.Admission, Account.GoodId;
      RateIsPositive();
      hide FineBank.Valid;
      t := None;
      if planned && cost.Some? { return; }
      var admitted := CheckAdmission(at, decimate);
      if !admitted { return; }
      var fresher := CheckId(id);
      if !fresher || maxGroups > MAX_PACKET { return; }
      t := PrepareTuning(bin, offset, passband);
    }

    /** A channel built for an accepted request fits the account. */
    lemma TuningFits(at: Option<nat>, id: nat, bin: nat, offset: real, decimate: int, passband: real, planned: bool)
      requires Valid() && (at.Some? ==> at.value < |channels|)
      requires Accepted(at, id, bin, offset, decimate, passband, planned).Some?
      ensures decimate > 0 && maxGroups <= MAX_PACKET && (planned ==> cost.None?)
      ensures var t := Accepted(at, id, bin, offset, decimate, passband, planned).value;
              && t.bin in bins && View().Admission(at, decimate) && View().GoodId(id)
              && View().Fits(Entry(id, epoch, t.bin, binCount / 2, decimate, coarseRate / decimate as real, planned))
    {
      Selected(binCount, bins, coarseRate, usableHalf, flatHalf, bin, offset, passband);
      RateOf(coarseRate, decimate);
      hide Prepare, Affordable, Account.Roster, Account.Rated, Account.Costed;
    }

    /** subscribe and subscribe_planned: all checks first, then one channel more.
        A rejection leaves everything as it was. */
    method Subscribe(id: nat, bin: nat, offset: real, decimate: int, passband: real,
                     kernel: Option<F.Kernel>, ghost joined: nat) returns (ok: bool)
      requires Valid() && (kernel.Some? ==> NewKernel(kernel.value, decimate))
      modifies this`channels, this`rateUsed, this`lastId
      ensures Valid()
      ensures ok <==> kernel.Some?
                      && old(Accepted(None, id, bin, offset, decimate, passband, kernel.value.Planned?)).Some?
      ensures !ok ==> View() == old(View()) && channels == old(channels)
      ensures ok ==>
                && |channels| == |old(channels)| + 1 && channels[..|old(channels)|] == old(channels)
                && rateUsed == old(rateUsed) + coarseRate / decimate as real && lastId == Some(id)
                && var ch := channels[|old(channels)|];
                   && ch.id == id && ch.fed == [] && ch.expectedSeq == nextSeq && ch.kernel == kernel.value
                   && ch.joined == joined && ch.epoch == epoch && ch.inputHop == binCount / 2
                   && ch.decimate == decimate && ch.outputRate == coarseRate / decimate as real
                   && ch.bin == old(Tune(bin, offset, passband)).value.bin
    {
      hide FineBank.Valid, FineBank.InLockstep, F.Kernel.After, Account.Admission, Prepare;
      if kernel.None? { return false; }
      var tuning := Accept(None, id, bin, offset, decimate, passband, kernel.value.Planned?);
      assert forall o | o in old(Footprint()) :: unchanged(o);
      assert forall o | o in kernel.value.Repr() :: unchanged(o);
      if tuning.None? { return false; }
      TuningFits(None, id, bin, offset, decimate, passband, kernel.value.Planned?);
      var ch := NewChannel(id, tuning.value.bin, decimate, kernel.value, joined);
      Enroll(ch);
      ok := true;
    }

    /** Every check of a request passes. */
    ghost predicate Allows(at: Option<nat>, id: nat, bin: nat, offset: real, request: Request)
      requires at.Some? ==> at.value < |channels|
      reads this`channels, this`bins, this`rateUsed, this`cost, this`lastId, this`failed
    {
      && request.Decimate() > 0
      && Accepted(at, id, bin, offset, request.Decimate(), request.Passband(coarseRate), request.ByPlan?).Some?
    }

    /** Opens the kernel that an allowed request needs, at the tuned offset. */
    method OpenTuned(at: Option<nat>, id: nat, bin: nat, offset: real, request: Request,
                     rotation: real -> C, scale: real, design: O.Design, avx2: bool)
      returns (kernel: Option<F.Kernel>)
      requires Valid() && O.Designs(design) && (forall angle :: Unit(rotation(angle)))
      requires at.Some? ==> at.value < |channels|
      ensures Valid() && (kernel.Some? ==> Allows(at, id, bin, offset, request))
      ensures kernel.Some? ==>
                && NewKernel(kernel.value, request.Decimate()) && kernel.value.Planned? == request.ByPlan?
                && Filters(kernel.value, request, scale, design)
                && var t := Tune(bin, offset, request.Passband(coarseRate));
                   t.Some? && kernel.value.Step() == rotation(t.value.offset / coarseRate)
      ensures kernel.Some? <==> Allows(at, id, bin, offset, request) && Opens(request, scale)
    {
      hide FineBank.Valid, FineBank.InLockstep, Prepare, Opens, Account.Admission, Account.GoodId, F.Kernel.After;
      hide F.Kernel.Repr, O.OffsetInBand, F.Kernel.Step, FineBank.Filters;
      RateIsPositive();
      kernel := None;
      var decimate := if request.Plain? then request.decimate else request.plan.decimate;
      if decimate <= 0 { return; }
      var passband := if request.Plain? then coarseRate / (2.0 * decimate as real) else request.plan.occupied / 2.0;
      assert passband == request.Passband(coarseRate);
      var tuning := Accept(at, id, bin, offset, decimate, passband, request.ByPlan?);
      assert forall o | o in old(Footprint()) :: unchanged(o);
      if tuning.None? { return; }
      TunedInBand(binCount, bins, coarseRate, usableHalf, flatHalf, bin, offset, passband);
      kernel := OpenKernel(tuning.value.offset, request, rotation, scale, design, avx2);
      assert forall o | o in old(Footprint()) :: unchanged(o);
    }

    /** subscribe and subscribe_planned with everything they open: a request succeeds
        exactly when it is allowed and its kernel can be built. The new channel rotates by
        the remaining offset of its tuning. */
    method SubscribeOpening(id: nat, bin: nat, offset: real, request: Request, rotation: real -> C, scale: real,
                            design: O.Design, avx2: bool, ghost joined: nat) returns (ok: bool)
      requires Valid() && O.Designs(design) && (forall angle :: Unit(rotation(angle)))
      modifies this`channels, this`rateUsed, this`lastId
      ensures Valid()
      ensures ok <==> old(Allows(None, id, bin, offset, request)) && Opens(request, scale)
      ensures !ok ==> View() == old(View()) && channels == old(channels)
      ensures ok ==> coarseRate > 0.0
      ensures ok ==>
                && |channels| == |old(channels)| + 1 && channels[..|old(channels)|] == old(channels)
                && var ch := channels[|old(channels)|];
                   && ch.id == id && ch.fed == [] && ch.expectedSeq == nextSeq && ch.joined == joined
                   && ch.kernel.Planned? == request.ByPlan? && ch.epoch == epoch && ch.inputHop == binCount / 2
                   && ch.decimate == request.Decimate() && ch.outputRate == coarseRate / request.Decimate() as real
                   && Filters(ch.kernel, request, scale, design)
                   && Receives(binCount, coarseRate, bins, bin, offset, rotation, ch.bin, ch.kernel.Step())
    {
      hide FineBank.Valid, FineBank.NewKernel, Prepare, Opens, F.Kernel.Step, Receives, FineBank.Filters;
      var kernel := OpenTuned(None, id, bin, offset, request, rotation, scale, design, avx2);
      if kernel.None? { return false; }
      PrepareReceives(binCount, bins, coarseRate, usableHalf, flatHalf, bin, offset, request.Passband(coarseRate),
                      rotation);
      ok := Subscribe(id, bin, offset, request.Decimate(), request.Passband(coarseRate), kernel, joined);
    }

    method Enroll(ch: F.FineChannel)
      requires Valid() && View().Admission(None, ch.decimate) && View().GoodId(ch.id) && View().Fits(EntryOf(ch))
      requires ch.kernel.Planned? ==> cost.None?
      requires InLockstep(ch) && ch in ch.repr && ch.repr !! Footprint() && this !in ch.repr
      modifies this`channels, this`rateUsed, this`lastId
      ensures Valid() && channels == old(channels) + [ch] && lastId == Some(ch.id)
      ensures rateUsed == old(rateUsed) + ch.outputRate
    {
      ghost var a := View();
      hide Account.Ok, F.FineChannel.Valid;
      rateUsed := rateUsed + ch.outputRate;
      channels := channels + [ch];
      lastId := Some(ch.id);
      assert View().entries == a.entries + [EntryOf(ch)];
      Enrolled(a, View(), EntryOf(ch));
    }

    /** retune and retune_planned: a failed retune keeps the old channel, its
        history and its clock; a good one replaces only that channel. */
    method Retune(oldId: nat, id: nat, bin: nat, offset: real, decimate: int, passband: real,
                  kernel: Option<F.Kernel>, ghost joined: nat) returns (ok: bool)
      requires Valid() && (kernel.Some? ==> NewKernel(kernel.value, decimate))
      modifies this`channels, this`rateUsed, this`lastId
      ensures Valid()
      ensures ok <==> old(IndexOf(oldId)).Some?
                      && kernel.Some?
                      && old(Accepted(IndexOf(oldId), id, bin, offset, decimate, passband, kernel.value.Planned?)).Some?
      ensures !ok ==> View() == old(View()) && channels == old(channels)
      ensures ok ==>
                var at := old(IndexOf(oldId)).value;
                && |channels| == |old(channels)| && channels == old(channels)[at := channels[at]]
                && channels[at].id == id && channels[at].fed == [] && lastId == Some(id)
                && channels[at].expectedSeq == nextSeq && channels[at].joined == joined
                && channels[at].kernel == kernel.value && channels[at].epoch == epoch
                && channels[at].inputHop == binCount / 2 && channels[at].decimate == decimate
                && channels[at].outputRate == coarseRate / decimate as real
                && rateUsed == old(rateUsed) - old(channels)[at].outputRate + channels[at].outputRate
                && channels[at].bin == old(Tune(bin, offset, passband)).value.bin
    {
      hide FineBank.Valid, FineBank.InLockstep, F.Kernel.After, Account.Admission, Prepare;
      var at := IndexOf(oldId);
      if at.None? || kernel.None? { return false; }
      var tuning := Accept(at, id, bin, offset, decimate, passband, kernel.value.Planned?);
      assert forall o | o in old(Footprint()) :: unchanged(o);
      assert forall o | o in kernel.value.Repr() :: unchanged(o);
      if tuning.None? { return false; }
      TuningFits(at, id, bin, offset, decimate, passband, kernel.value.Planned?);
      var ch := NewChannel(id, tuning.value.bin, decimate, kernel.value, joined);
      Replace(at.value, ch);
      ok := true;
    }

    /** retune and retune_planned with everything they open. */
    method RetuneOpening(oldId: nat, id: nat, bin: nat, offset: real, request: Request, rotation: real -> C,
                         scale: real, design: O.Design, avx2: bool, ghost joined: nat) returns (ok: bool)
      requires Valid() && O.Designs(design) && (forall angle :: Unit(rotation(angle)))
      modifies this`channels, this`rateUsed, this`lastId
      ensures Valid()
      ensures ok <==> old(IndexOf(oldId)).Some? && old(Allows(IndexOf(oldId), id, bin, offset, request))
                      && Opens(request, scale)
      ensures !ok ==> View() == old(View()) && channels == old(channels)
      ensures ok ==> coarseRate > 0.0
      ensures ok ==>
                var at := old(IndexOf(oldId)).value;
                && |channels| == |old(channels)| && channels == old(channels)[at := channels[at]]
                && var ch := channels[at];
                   && ch.id == id && ch.fed == [] && ch.expectedSeq == nextSeq && ch.joined == joined
                   && ch.kernel.Planned? == request.ByPlan? && ch.epoch == epoch && ch.inputHop == binCount / 2
                   && ch.decimate == request.Decimate() && ch.outputRate == coarseRate / request.Decimate() as real
                   && Filters(ch.kernel, request, scale, design)
                   && Receives(binCount, coarseRate, bins, bin, offset, rotation, ch.bin, ch.kernel.Step())
    {
      hide FineBank.Valid, FineBank.NewKernel, Prepare, Opens, F.Kernel.Step, Receives, FineBank.Filters;
      var at := IndexOf(oldId);
      if at.None? { return false; }
      var kernel := OpenTuned(at, id, bin, offset, request, rotation, scale, design, avx2);
      if kernel.None? { return false; }
      PrepareReceives(binCount, bins, coarseRate, usableHalf, flatHalf, bin, offset, request.Passband(coarseRate),
                      rotation);
      ok := Retune(oldId, id, bin, offset, request.Decimate(), request.Passband(coarseRate), kernel, joined);
    }

    method Replace(at: nat, ch: F.FineChannel)
      requires Valid() && at < |channels| && View().Admission(Some(at), ch.decimate)
      requires View().GoodId(ch.id) && View().Fits(EntryOf(ch)) && (ch.kernel.Planned? ==> cost.None?)
      requires InLockstep(ch) && ch in ch.repr && ch.repr !! Footprint() && this !in ch.repr
      modifies this`channels, this`rateUsed, this`lastId
      ensures Valid() && channels == old(channels)[at := ch] && lastId == Some(ch.id)
      ensures rateUsed == old(rateUsed) - old(channels)[at].outputRate + ch.outputRate
    {
      ghost var a := View();
      hide Account.Ok, F.FineChannel.Valid;
      rateUsed := rateUsed - channels[at].outputRate + ch.outputRate;
      channels := channels[at := ch];
      lastId := Some(ch.id);
      assert View().entries == a.entries[at := EntryOf(ch)];
      Replaced(a, View(), at, EntryOf(ch));
    }

    /** unsubscribe; its rate is given back exactly. */
    method Unsubscribe(id: nat) returns (ok: bool)
      requires Valid()
      modifies this`channels, this`rateUsed
      ensures Valid()
      ensures ok <==> old(IndexOf(id)).Some?
      ensures !ok ==> View() == old(View()) && channels == old(channels)
      ensures ok ==>
                var at := old(IndexOf(id)).value;
                && channels == Without(old(channels), at)
                && rateUsed == old(rateUsed) - old(channels)[at].outputRate
    {
      hide FineBank.Valid, FineBank.InLockstep, FineBank.Footprint;
      var found := IndexOf(id);
      if found.None? { return false; }
      Remove(found.value);
      ok := true;
    }

    method Remove(at: nat)
      requires Valid() && at < |channels|
      modifies this`channels, this`rateUsed
      ensures Valid() && channels == Without(old(channels), at)
      ensures rateUsed == old(rateUsed) - old(channels)[at].outputRate
    {
      ghost var a := View();
      hide Account.Ok, F.FineChannel.Valid;
      var less := rateUsed - channels[at].outputRate;
      ghost var b := a.(entries := Without(a.entries, at), used := less);
      Dropped(a, b, at);
      rateUsed := if less > 0.0 then less else 0.0;
      channels := Without(channels, at);
      assert View().entries == b.entries;
    }

    /** set_cost_budget: a rejected budget leaves the old one. */
    method SetCostBudget(budget: Cost) returns (ok: bool)
      requires Valid()
      modifies this`cost
      ensures Valid()
      ensures ok <==> (forall i :: 0 <= i < |channels| ==> !channels[i].kernel.Planned?)
                      && Affordable(budget, coarseRate, Decimations(View().entries))
      ensures cost == if ok then Some(budget) else old(cost)
    {
      hide Affordable, RateSum;
      if exists i :: 0 <= i < |channels| && channels[i].kernel.Planned? { return false; }
      var ds := seq(|channels|, i requires 0 <= i < |channels| reads this, channels => channels[i].decimate);
      assert ds == Decimations(View().entries);
      var affordable := CheckCost(budget, ds);
      if !affordable { return false; }
      ghost var a := View();
      assert forall i :: 0 <= i < |channels| ==> View().entries[i] == EntryOf(channels[i]);
      BudgetSet(a, budget);
      hide F.FineChannel.Valid, Account.Ok;
      cost := Some(budget);
      assert View() == a.(cost := Some(budget));
      ok := true;
    }

    method CheckSelection(selection: seq<nat>) returns (ok: bool)
      ensures ok <==> Selection(selection, binCount)
    {
      ok := selection != [] && (forall i :: 0 <= i < |selection| ==> selection[i] < binCount)
            && forall i, j :: 0 <= i < j < |selection| ==> selection[i] != selection[j];
    }

    /** remap_bins: every channel follows its bin to its new column; histories,
        phases and clocks stay, so nothing a channel outputs changes. */
    method RemapBins(selection: seq<nat>) returns (ok: bool)
      requires Valid()
      modifies this`bins, channels
      ensures Valid() && nextSeq == old(nextSeq)
      ensures ok <==> Selection(selection, binCount)
                      && forall i :: 0 <= i < |channels| ==> channels[i].bin in selection
      ensures bins == if ok then selection else old(bins)
      ensures forall i :: 0 <= i < |channels| ==>
                channels[i].fed == old(channels[i].fed) && channels[i].expectedSeq == old(channels[i].expectedSeq)
      ensures ok ==> forall i :: 0 <= i < |channels| ==> channels[i].column == Position(selection, channels[i].bin)
    {
      hide F.FineChannel.Valid, Account.Ok, Follows, Position, Selection;
      var distinct := CheckSelection(selection);
      assert forall o | o in old(Footprint()) :: unchanged(o);
      if !distinct { return false; }
      if exists i :: 0 <= i < |channels| && channels[i].bin !in selection { return false; }
      ghost var a := View();
      forall k | 0 <= k < |channels|
        ensures a.entries[k].bin in selection
      {
        assert a.entries[k] == EntryOf(channels[k]);
      }
      Reselected(a, selection);
      MoveAll(channels, bins, selection, nextSeq, failed);
      bins := selection;
      assert View() == a.(bins := selection);
      ok := true;
    }

    /** deliver: serves every channel in order. A packet out of order changes
        nothing; any other failure is final. */
    method Deliver(p: F.PfbOutput) returns (ok: bool, outputs: seq<F.FineOutput>)
      requires Valid() && p.inputIndex < CLOCK
      modifies this`nextSeq, this`failed, Footprint()
      ensures Valid() && bins == old(bins)
      ensures old(failed) || p.epoch != epoch || p.seqno != old(nextSeq) ==>
                !ok && outputs == [] && failed == old(failed) && nextSeq == old(nextSeq)
      ensures ok ==> nextSeq == old(nextSeq) + 1 && !failed && |outputs| == |channels|
      // what the consumer was handed, also before a failure, and who did not advance
      ensures |outputs| <= |channels|
      ensures forall i :: 0 <= i < |outputs| ==>
                Served(channels[i], old(channels[i].fed), old(channels[i].InStep(p)), p, outputs[i])
      ensures forall i :: |outputs| <= i < |channels| ==> channels[i].fed == old(channels[i].fed)
      ensures !ok ==> nextSeq == old(nextSeq)
      ensures !ok && !old(failed) && p.epoch == epoch && p.seqno == old(nextSeq) ==> failed
    {
      hide F.FineChannel.Valid, F.FineChannel.InStep, Account.Ok, Follows, Served, Separate, F.Column, F.OutputInstant;
      if failed { return false, []; }
      if p.epoch != epoch || p.seqno != nextSeq { return false, []; }
      ghost var a := View();
      ok, outputs := ServeAll(channels, bins, nextSeq, p);
      if ok { nextSeq := nextSeq + 1; } else { failed := true; }
      Broken(a);
      assert View() == a || View() == a.(failed := true);
    }
  }

  lemma TunedInBand(binCount: nat, bins: seq<nat>, coarse: real, usable: real, flat: real,
                    bin: nat, offset: real, passband: real)
    requires Prepare(binCount, bins, coarse, usable, flat, bin, offset, passband).Some?
    ensures coarse > 0.0
    ensures O.OffsetInBand(coarse, Prepare(binCount, bins, coarse, usable, flat, bin, offset, passband).value.offset)
  {
    var turns := PrepareTuned(binCount, bins, coarse, usable, flat, bin, offset, passband);
    hide Requested, NearestBin, Rest, BinFrequency;
  }

  lemma Broken(a: Account)
    requires a.Ok()
    ensures a.(failed := true).Ok()
  {
    var b := a.(failed := true);
    assert b.Roster() && b.Rated() && b.Costed();
  }

  lemma Reselected(a: Account, selection: seq<nat>)
    requires a.Ok() && Selection(selection, a.binCount)
    requires forall i :: 0 <= i < |a.entries| ==> a.entries[i].bin in selection
    ensures a.(bins := selection).Ok()
  {
    var b := a.(bins := selection);
    assert b.Roster() && b.Rated() && b.Costed();
  }

  lemma Selected(binCount: nat, bins: seq<nat>, coarse: real, usable: real, flat: real,
                 bin: nat, offset: real, passband: real)
    ensures var t := Prepare(binCount, bins, coarse, usable, flat, bin, offset, passband);
            t.Some? ==> t.value.bin in bins
  {
  }

  lemma SelectionSize(a: Account, bin: nat)
    requires a.Ok() && bin in a.bins
    ensures a.binCount / 2 > 0 && Position(a.bins, bin) < |a.bins| && a.bins[Position(a.bins, bin)] == bin
  {
  }

  lemma RateOf(coarse: real, decimate: int)
    ensures coarse > 0.0 && decimate > 0 ==> coarse / decimate as real > 0.0
  {
  }
}
