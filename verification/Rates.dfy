/** The rate calculator: a cache tagged with scrape generations against "compare with the previous scrape". */
module Rates {
  import opened Model

  const GENERATIONS: int := 0x1_0000_0000_0000_0000
  const I64_MAX: int := 0x7FFF_FFFF_FFFF_FFFF
  const I64_MIN: int := -0x8000_0000_0000_0000

  datatype Snapshot = Snapshot(port: Port, protocol: Protocol, connections: nat, rx: nat, tx: nat)

  datatype Rate = Rate(port: Port, protocol: Protocol, connections: nat, rx: real, tx: real)

  datatype Sample = Sample(rx: nat, tx: nat, timestampMs: int, generation: int)

  /** What one scrape said about a listener. */
  datatype Reading = Reading(rx: nat, tx: nat, timestampMs: int)

  type Scrape = map<int, Reading>

  /** The port and the protocol packed into one number. */
  function ListenerKey(port: Port, protocol: Protocol): int {
    port as int * 4 + match protocol case Tcp => 0 case Udp => 1 case Both => 2
  }

  lemma ListenerKeyInjective(p: Port, a: Protocol, q: Port, b: Protocol)
    requires ListenerKey(p, a) == ListenerKey(q, b)
    ensures p == q && a == b
  {
  }

  function KeyOf(s: Snapshot): int {
    ListenerKey(s.port, s.protocol)
  }

  function SaturatingSub(a: int, b: int): int {
    if a - b > I64_MAX then I64_MAX else if a - b < I64_MIN then I64_MIN else a - b
  }

  function BytesPerSecond(current: nat, previous: nat, elapsedSeconds: real): real
    requires elapsedSeconds > 0.0
  {
    if current <= previous then 0.0 else (current - previous) as real / elapsedSeconds
  }

  function ElapsedSeconds(now: int, before: int): real {
    SaturatingSub(now, before) as real / 1000.0
  }

  function RateSince(s: Snapshot, previous: Option<Reading>, now: int): Rate {
    if previous.Some? && SaturatingSub(now, previous.value.timestampMs) > 0 then
      var elapsed := ElapsedSeconds(now, previous.value.timestampMs);
      Rate(s.port, s.protocol, s.connections,
           BytesPerSecond(s.rx, previous.value.rx, elapsed), BytesPerSecond(s.tx, previous.value.tx, elapsed))
    else Rate(s.port, s.protocol, s.connections, 0.0, 0.0)
  }

  /** A rate is about its row, and is zero without a previous reading, without elapsed time or without gain. */
  lemma RateSinceMeans(s: Snapshot, previous: Option<Reading>, now: int)
    ensures var rate := RateSince(s, previous, now);
            && rate.port == s.port && rate.protocol == s.protocol && rate.connections == s.connections
            && (previous.None? || now <= previous.value.timestampMs ==> rate.rx == 0.0 && rate.tx == 0.0)
            && (previous.Some? && s.rx <= previous.value.rx ==> rate.rx == 0.0)
            && (previous.Some? && s.tx <= previous.value.tx ==> rate.tx == 0.0)
            && (previous.Some? && 0 < now - previous.value.timestampMs ==>
                  var passed := now - previous.value.timestampMs;
                  var millis := (if passed <= I64_MAX then passed else I64_MAX) as real;
                  && (s.rx > previous.value.rx ==> rate.rx * millis == 1000.0 * (s.rx - previous.value.rx) as real)
                  && (s.tx > previous.value.tx ==> rate.tx * millis == 1000.0 * (s.tx - previous.value.tx) as real))
  {
  }

  // ------------------------------------------------------- the reference reading

  /** A scrape as a table: the last row for a listener counts. */
  function Recorded(rows: seq<Snapshot>, now: int): Scrape {
    if rows == [] then map[]
    else
      var last := rows[|rows| - 1];
      Recorded(rows[..|rows| - 1], now)[KeyOf(last) := Reading(last.rx, last.tx, now)]
  }

  function Look(scrape: Scrape, key: int): Option<Reading> {
    if key in scrape then Some(scrape[key]) else None
  }

  ghost predicate FirstRow(rows: seq<Snapshot>, i: nat)
    requires i < |rows|
  {
    forall j :: 0 <= j < i ==> KeyOf(rows[j]) != KeyOf(rows[i])
  }

  /**
   Each listener's first row is compared with the previous scrape alone; a repeated row has had no
   time to change.
   */
  ghost predicate ComparedWithPrevious(previous: Scrape, rows: seq<Snapshot>, now: int, rates: seq<Rate>) {
    && |rates| == |rows|
    && forall i: nat :: i < |rows| ==>
         rates[i] == if FirstRow(rows, i) then RateSince(rows[i], Look(previous, KeyOf(rows[i])), now)
                     else Rate(rows[i].port, rows[i].protocol, rows[i].connections, 0.0, 0.0)
  }

  // -------------------------------------------------------------------- the cache

  /** The cache without its tags. */
  function Untagged(samples: map<int, Sample>): Scrape {
    map key | key in samples :: Reading(samples[key].rx, samples[key].tx, samples[key].timestampMs)
  }

  /** While a scrape is being read: its rows so far are tagged with it, the rest is untouched. */
  ghost predicate Midway(before: map<int, Sample>, samples: map<int, Sample>, rows: seq<Snapshot>, i: nat,
                         now: int, generation: int) {
    && i <= |rows|
    && (forall key :: key in samples <==> key in before || key in Recorded(rows[..i], now))
    && (forall key :: key in samples ==>
          if key in Recorded(rows[..i], now)
          then var reading := Recorded(rows[..i], now)[key];
               samples[key] == Sample(reading.rx, reading.tx, reading.timestampMs, generation)
          else key in before && samples[key] == before[key])
  }

  lemma {:induction false} RecordedRows(rows: seq<Snapshot>, now: int, key: int)
    ensures key in Recorded(rows, now) <==> exists i :: 0 <= i < |rows| && KeyOf(rows[i]) == key
    ensures key in Recorded(rows, now) ==> Recorded(rows, now)[key].timestampMs == now
  {
    if rows != [] {
      var front := rows[..|rows| - 1];
      RecordedRows(front, now, key);
      if i :| 0 <= i < |front| && KeyOf(front[i]) == key { assert KeyOf(rows[i]) == key; }
      assert KeyOf(rows[|rows| - 1]) in Recorded(rows, now);
    }
  }

  class RateCalculator {
    var samples: map<int, Sample>
    var generation: int

    /** Between scrapes every sample carries the current tag. */
    ghost predicate Valid()
      reads this
    {
      && 0 <= generation < GENERATIONS
      && forall key :: key in samples ==> samples[key].generation == generation
    }

    constructor ()
      ensures Valid() && Untagged(samples) == map[]
    {
      samples, generation := map[], 0;
    }

    /**
     One scrape: the rates are those of comparing with the previous scrape, and the cache then
     stands for exactly this scrape, also when the tag wraps around.
     */
    method Calculate(rows: seq<Snapshot>, now: int) returns (rates: seq<Rate>)
      requires Valid()
      modifies this
      ensures Valid()
      ensures Untagged(samples) == Recorded(rows, now)
      ensures ComparedWithPrevious(old(Untagged(samples)), rows, now, rates)
    {
      ghost var before := samples;
      generation := if generation + 1 == GENERATIONS then 0 else generation + 1;
      var tag := generation;
      rates := [];
      for i := 0 to |rows|
        invariant generation == tag && Midway(before, samples, rows, i, now, tag)
        invariant |rates| == i
        invariant ComparedWithPrevious(Untagged(before), rows[..i], now, rates)
      {
        var key := KeyOf(rows[i]);
        var previous := if key in samples then Some(samples[key]) else None;
        Turn(before, samples, rows, i, now, tag);
        samples := samples[key := Sample(rows[i].rx, rows[i].tx, now, tag)];
        var reading :=
          if previous.Some? then Some(Reading(previous.value.rx, previous.value.tx, previous.value.timestampMs))
          else None;
        rates := rates + [RateSince(rows[i], reading, now)];
        Compared(Untagged(before), rows, i, now, rates);
      }
      assert rows[..|rows|] == rows;
      RetainExact(before, samples, rows, now, tag);
      samples := Retain(samples, tag);
    }
  }

  function Retain(samples: map<int, Sample>, tag: int): map<int, Sample> {
    map key | key in samples && samples[key].generation == tag :: samples[key]
  }

  /** Dropping what does not carry the new tag leaves exactly the rows of this scrape. */
  lemma RetainExact(before: map<int, Sample>, samples: map<int, Sample>, rows: seq<Snapshot>, now: int, tag: int)
    requires Midway(before, samples, rows, |rows|, now, tag) && rows[..|rows|] == rows
    requires forall key :: key in before ==> before[key].generation != tag
    ensures Untagged(Retain(samples, tag)) == Recorded(rows, now)
  {
    var kept := Retain(samples, tag);
    forall key ensures key in kept <==> key in Recorded(rows, now) {}
    forall key | key in kept ensures Untagged(kept)[key] == Recorded(rows, now)[key] {}
  }

  /** Reading one row keeps the halfway picture, and finds the previous scrape for a first row. */
  lemma Turn(before: map<int, Sample>, samples: map<int, Sample>, rows: seq<Snapshot>, i: nat, now: int,
             generation: int)
    requires i < |rows| && Midway(before, samples, rows, i, now, generation)
    ensures Midway(before, samples[KeyOf(rows[i]) := Sample(rows[i].rx, rows[i].tx, now, generation)], rows, i + 1,
                   now, generation)
    ensures var key := KeyOf(rows[i]);
            if FirstRow(rows, i) then
              (key in samples <==> key in before) && (key in samples ==> samples[key] == before[key])
            else key in samples && samples[key].timestampMs == now
  {
    var key := KeyOf(rows[i]);
    assert rows[..i + 1][..i] == rows[..i] && rows[..i + 1][i] == rows[i];
    RecordedRows(rows[..i], now, key);
    if !FirstRow(rows, i) {
      var j :| 0 <= j < i && KeyOf(rows[j]) == key;
      assert KeyOf(rows[..i][j]) == key;
    }
  }

  lemma FirstRowPrefix(rows: seq<Snapshot>, m: nat, k: nat)
    requires k < m <= |rows|
    ensures FirstRow(rows[..m], k) == FirstRow(rows, k)
  {
    if FirstRow(rows[..m], k) {
      forall j | 0 <= j < k ensures KeyOf(rows[j]) != KeyOf(rows[k]) {
        assert KeyOf(rows[..m][j]) != KeyOf(rows[..m][k]);
      }
    }
  }

  lemma Compared(previous: Scrape, rows: seq<Snapshot>, i: nat, now: int, rates: seq<Rate>)
    requires i < |rows| && |rates| == i + 1
    requires ComparedWithPrevious(previous, rows[..i], now, rates[..i])
    requires rates[i] == if FirstRow(rows, i) then RateSince(rows[i], Look(previous, KeyOf(rows[i])), now)
                         else Rate(rows[i].port, rows[i].protocol, rows[i].connections, 0.0, 0.0)
    ensures ComparedWithPrevious(previous, rows[..i + 1], now, rates)
  {
    var longer, shorter := rows[..i + 1], rows[..i];
    forall k: nat | k < |longer|
      ensures rates[k] == if FirstRow(longer, k) then RateSince(longer[k], Look(previous, KeyOf(longer[k])), now)
                          else Rate(longer[k].port, longer[k].protocol, longer[k].connections, 0.0, 0.0)
    {
      FirstRowPrefix(rows, i + 1, k);
      if k < i {
        FirstRowPrefix(rows, i, k);
        assert rates[..i][k] == rates[k] && shorter[k] == longer[k];
      }
    }
  }

  // ------------------------------------------------------------------- over runs

  datatype Scraped = Scraped(rows: seq<Snapshot>, now: int)

  /** What scrape k is compared with: the scrape before it, or what the calculator knew at the start. */
  function Previous(start: Scrape, scrapes: seq<Scraped>, k: nat): Scrape
    requires k < |scrapes|
  {
    if k == 0 then start else Recorded(scrapes[k - 1].rows, scrapes[k - 1].now)
  }

  ghost predicate StepOfRun(start: Scrape, scrapes: seq<Scraped>, all: seq<seq<Rate>>, k: nat)
    requires k < |scrapes| && k < |all|
  {
    ComparedWithPrevious(Previous(start, scrapes, k), scrapes[k].rows, scrapes[k].now, all[k])
  }

  /** The rates of a run are those of comparing each scrape with the one before. */
  ghost predicate RunCompared(start: Scrape, scrapes: seq<Scraped>, all: seq<seq<Rate>>) {
    |all| == |scrapes| && forall k: nat :: k < |scrapes| ==> StepOfRun(start, scrapes, all, k)
  }

  /** Any run of scrapes: each scrape's rates come from the scrape just before it and from nothing else. */
  method RunScrapes(calculator: RateCalculator, scrapes: seq<Scraped>) returns (all: seq<seq<Rate>>)
    requires calculator.Valid()
    modifies calculator
    ensures calculator.Valid() && RunCompared(old(Untagged(calculator.samples)), scrapes, all)
  {
    ghost var start := Untagged(calculator.samples);
    all := [];
    for k := 0 to |scrapes|
      invariant calculator.Valid() && |all| == k
      invariant k < |scrapes| ==> Untagged(calculator.samples) == Previous(start, scrapes, k)
      invariant forall j: nat :: j < k ==> StepOfRun(start, scrapes, all, j)
    {
      var rates := calculator.Calculate(scrapes[k].rows, scrapes[k].now);
      ghost var before := all;
      all := all + [rates];
      forall j: nat | j < k ensures StepOfRun(start, scrapes, all, j) { assert StepOfRun(start, scrapes, before, j); }
    }
  }

  ghost predicate OnlyRow(rows: seq<Snapshot>, i: nat) {
    i < |rows| && forall j :: 0 <= j < |rows| && j != i ==> KeyOf(rows[j]) != KeyOf(rows[i])
  }

  /** The order of the rows does not matter to a listener that has one row. */
  lemma {:induction false} RecordedSingle(rows: seq<Snapshot>, now: int, i: nat)
    requires OnlyRow(rows, i)
    ensures Look(Recorded(rows, now), KeyOf(rows[i])) == Some(Reading(rows[i].rx, rows[i].tx, now))
  {
    if i < |rows| - 1 { RecordedSingle(rows[..|rows| - 1], now, i); }
  }

  /** Reordering the rows of a scrape changes neither the listener's rate nor what is remembered of it. */
  lemma OrderIrrelevant(previous: Scrape, rows: seq<Snapshot>, rows': seq<Snapshot>, now: int,
                        rates: seq<Rate>, rates': seq<Rate>, i: nat, j: nat)
    requires ComparedWithPrevious(previous, rows, now, rates) && ComparedWithPrevious(previous, rows', now, rates')
    requires OnlyRow(rows, i) && OnlyRow(rows', j) && rows[i] == rows'[j]
    ensures rates[i] == rates'[j]
    ensures Look(Recorded(rows, now), KeyOf(rows[i])) == Look(Recorded(rows', now), KeyOf(rows[i]))
  {
    RecordedSingle(rows, now, i);
    RecordedSingle(rows', now, j);
    assert FirstRow(rows, i) && FirstRow(rows', j);
  }

  /** Rate times elapsed time, summed over the scrapes of a run. */
  function Integrated(rates: seq<real>, times: seq<int>): real
    requires |rates| == |times|
  {
    if |rates| <= 1 then 0.0
    else
      var n := |rates| - 1;
      Integrated(rates[..n], times[..n]) + rates[n] * ElapsedSeconds(times[n], times[n - 1])
  }

  /** The rate at step k, times the time it covers, is what the counter gained. */
  ghost predicate Accounts(rates: seq<real>, times: seq<int>, totals: seq<nat>, k: nat)
    requires |rates| == |times| == |totals| && 0 < k < |rates|
  {
    rates[k] * ElapsedSeconds(times[k], times[k - 1]) == totals[k] as real - totals[k - 1] as real
  }

  /** Rates that account for each step account for the whole. */
  lemma {:induction false} Telescopes(rates: seq<real>, times: seq<int>, totals: seq<nat>)
    requires |rates| == |times| == |totals| > 0
    requires forall k: nat :: 0 < k < |rates| ==> Accounts(rates, times, totals, k)
    ensures Integrated(rates, times) == totals[|totals| - 1] as real - totals[0] as real
  {
    var n: nat := |rates| - 1;
    if n > 0 {
      forall k: nat | 0 < k < n ensures Accounts(rates[..n], times[..n], totals[..n], k) {
        assert Accounts(rates, times, totals, k);
      }
      Telescopes(rates[..n], times[..n], totals[..n]);
      assert Accounts(rates, times, totals, n);
    }
  }

  function Times(scrapes: seq<Scraped>): (r: seq<int>)
    ensures |r| == |scrapes|
  {
    seq(|scrapes|, k requires 0 <= k < |scrapes| => scrapes[k].now)
  }

  /** One listener through a run: at[k] is its only row in scrape k, time advances, its totals never fall. */
  ghost predicate Tracked(scrapes: seq<Scraped>, at: seq<nat>, key: int) {
    && |at| == |scrapes|
    && (forall k: nat :: k < |scrapes| ==> OnlyRow(scrapes[k].rows, at[k]) && KeyOf(scrapes[k].rows[at[k]]) == key)
    && (forall k: nat :: 0 < k < |scrapes| ==> Advances(scrapes, at, k))
  }

  ghost predicate Advances(scrapes: seq<Scraped>, at: seq<nat>, k: nat)
    requires 0 < k < |scrapes| == |at| && at[k - 1] < |scrapes[k - 1].rows| && at[k] < |scrapes[k].rows|
  {
    && scrapes[k - 1].now < scrapes[k].now
    && scrapes[k - 1].rows[at[k - 1]].rx <= scrapes[k].rows[at[k]].rx
    && scrapes[k - 1].rows[at[k - 1]].tx <= scrapes[k].rows[at[k]].tx
  }

  function RxRates(all: seq<seq<Rate>>, at: seq<nat>): (r: seq<real>)
    requires |at| == |all| && forall k :: 0 <= k < |all| ==> at[k] < |all[k]|
    ensures |r| == |all|
  {
    seq(|all|, k requires 0 <= k < |all| => all[k][at[k]].rx)
  }

  function TxRates(all: seq<seq<Rate>>, at: seq<nat>): (r: seq<real>)
    requires |at| == |all| && forall k :: 0 <= k < |all| ==> at[k] < |all[k]|
    ensures |r| == |all|
  {
    seq(|all|, k requires 0 <= k < |all| => all[k][at[k]].tx)
  }

  lemma RateTimesElapsed(current: nat, previous: nat, elapsed: real)
    requires elapsed > 0.0 && previous <= current
    ensures BytesPerSecond(current, previous, elapsed) * elapsed == current as real - previous as real
  {
  }

  /** The rate of a tracked listener between two scrapes accounts for what it counted between them. */
  lemma TrackedRate(start: Scrape, scrapes: seq<Scraped>, all: seq<seq<Rate>>, at: seq<nat>, key: int, n: nat)
    requires RunCompared(start, scrapes, all) && Tracked(scrapes, at, key) && 0 < n < |scrapes|
    ensures at[n] < |all[n]|
    ensures var elapsed := ElapsedSeconds(scrapes[n].now, scrapes[n - 1].now);
            var row, before := scrapes[n].rows[at[n]], scrapes[n - 1].rows[at[n - 1]];
            && all[n][at[n]].rx * elapsed == row.rx as real - before.rx as real
            && all[n][at[n]].tx * elapsed == row.tx as real - before.tx as real
  {
    var k: nat := n - 1;
    assert Advances(scrapes, at, n);
    assert OnlyRow(scrapes[k].rows, at[k]) && OnlyRow(scrapes[n].rows, at[n]);
    var row, before := scrapes[n].rows[at[n]], scrapes[k].rows[at[k]];
    var elapsed := ElapsedSeconds(scrapes[n].now, scrapes[k].now);
    RecordedSingle(scrapes[k].rows, scrapes[k].now, at[k]);
    assert StepOfRun(start, scrapes, all, n) && FirstRow(scrapes[n].rows, at[n]);
    RateTimesElapsed(row.rx, before.rx, elapsed);
    RateTimesElapsed(row.tx, before.tx, elapsed);
  }

  lemma RowsInRange(start: Scrape, scrapes: seq<Scraped>, all: seq<seq<Rate>>, at: seq<nat>, key: int)
    requires RunCompared(start, scrapes, all) && Tracked(scrapes, at, key)
    ensures forall k :: 0 <= k < |all| ==> at[k] < |all[k]|
  {
    forall k | 0 <= k < |all| ensures at[k] < |all[k]| {
      assert StepOfRun(start, scrapes, all, k) && OnlyRow(scrapes[k].rows, at[k]);
    }
  }

  ghost function RxTotals(scrapes: seq<Scraped>, at: seq<nat>): (r: seq<nat>)
    requires |at| == |scrapes| && forall k :: 0 <= k < |scrapes| ==> at[k] < |scrapes[k].rows|
    ensures |r| == |scrapes|
  {
    seq(|scrapes|, k requires 0 <= k < |scrapes| => scrapes[k].rows[at[k]].rx)
  }

  ghost function TxTotals(scrapes: seq<Scraped>, at: seq<nat>): (r: seq<nat>)
    requires |at| == |scrapes| && forall k :: 0 <= k < |scrapes| ==> at[k] < |scrapes[k].rows|
    ensures |r| == |scrapes|
  {
    seq(|scrapes|, k requires 0 <= k < |scrapes| => scrapes[k].rows[at[k]].tx)
  }

  lemma EveryStepAccounts(start: Scrape, scrapes: seq<Scraped>, all: seq<seq<Rate>>, at: seq<nat>, key: int, k: nat)
    requires RunCompared(start, scrapes, all) && Tracked(scrapes, at, key) && 0 < k < |scrapes|
    requires forall j :: 0 <= j < |all| ==> at[j] < |all[j]|
    ensures Accounts(RxRates(all, at), Times(scrapes), RxTotals(scrapes, at), k)
    ensures Accounts(TxRates(all, at), Times(scrapes), TxTotals(scrapes, at), k)
  {
    TrackedRate(start, scrapes, all, at, key, k);
  }

  /** Conservation: over any run, a tracked listener's rates account for every byte it counted. */
  lemma RatesConserveBytes(start: Scrape, scrapes: seq<Scraped>, all: seq<seq<Rate>>, at: seq<nat>, key: int)
    requires RunCompared(start, scrapes, all) && Tracked(scrapes, at, key) && |scrapes| > 0
    ensures forall k :: 0 <= k < |all| ==> at[k] < |all[k]|
    ensures var first, last := scrapes[0].rows[at[0]], scrapes[|scrapes| - 1].rows[at[|scrapes| - 1]];
            && Integrated(RxRates(all, at), Times(scrapes)) == last.rx as real - first.rx as real
            && Integrated(TxRates(all, at), Times(scrapes)) == last.tx as real - first.tx as real
  {
    RowsInRange(start, scrapes, all, at, key);
    forall k: nat | 0 < k < |scrapes|
      ensures Accounts(RxRates(all, at), Times(scrapes), RxTotals(scrapes, at), k)
              && Accounts(TxRates(all, at), Times(scrapes), TxTotals(scrapes, at), k)
    {
      EveryStepAccounts(start, scrapes, all, at, key, k);
    }
    Telescopes(RxRates(all, at), Times(scrapes), RxTotals(scrapes, at));
    Telescopes(TxRates(all, at), Times(scrapes), TxTotals(scrapes, at));
  }
}
