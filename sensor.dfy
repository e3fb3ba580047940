/**
  What one poll of the meter does to the meter's state, as pure functions:
  the sensor kinds, the conversion of a raw reading into the stored value,
  the filter that decides whether the observer is told, one step of the
  poll (a read, its decoding and its effect) and the poll loop, which stops
  at the first failure.
 */
module Sensor {
  import Frame

  /** Sensor kinds, as sent in byte 0 of a report. */
  const CO2: int := 0x50
  const Temperature: int := 0x42
  const Humidity: int := 0x41

  /**
    A stored reading. CO2 and every unknown kind keep the raw value as it is.
    Temperature and humidity are floating-point values in `CO2Meter._convert_value`
    (raw / 16.0 - 273.1 and raw / 100.0, each rounded to one decimal); they
    are kept here as the raw value they were computed from.
   */
  datatype Value = Count(raw: int) | Celsius(raw: int) | Percent(raw: int)

  /** The conversion of a raw value by sensor kind. */
  function Convert(kind: int, raw: int): (v: Value)
    ensures v.raw == raw
    ensures kind == CO2 ==> v == Count(raw)
    ensures v.Celsius? <==> kind == Temperature
    ensures v.Percent? <==> kind == Humidity
  {
    if kind == Temperature then Celsius(raw)
    else if kind == Humidity then Percent(raw)
    else Count(raw)
  }

  /**
    Whether a stored humidity compares equal to 0: raw / 100.0 rounded to one
    decimal is 0.0 exactly for raw values 0 to 4 (raw 5 gives the double just
    above 0.05, which rounds up to 0.1).
   */
  predicate RoundsToZero(v: Value): (zero: bool)
    requires v.Percent? && 0 <= v.raw
    ensures zero <==> (v.raw as real) / 100.0 < 0.05
  {
    v.raw < 5
  }

  /** A table entry as an accepted report leaves it: the conversion, by the
      entry's own kind, of a 16-bit raw value. */
  predicate WellFormed(kind: int, v: Value)
  {
    0 <= v.raw < 0x1_0000 && v == Convert(kind, v.raw)
  }

  /** Every entry of the table came from an accepted report. */
  predicate TableWellFormed(entries: map<int, Value>)
  {
    forall k :: k in entries ==> WellFormed(k, entries[k])
  }

  /** The observer hears of CO2 and temperature reports always, of humidity
      reports only with a nonzero raw value, and of no other kind. */
  predicate Notifies(kind: int, raw: int)
    ensures Notifies(kind, raw) ==> kind == CO2 || kind == Temperature || kind == Humidity
    ensures kind == Humidity ==> (Notifies(kind, raw) <==> raw != 0)
    ensures kind == CO2 || kind == Temperature ==> Notifies(kind, raw)
  {
    kind in {CO2, Temperature} || (kind == Humidity && raw != 0)
  }

  /** What the observer was called with. */
  datatype Report = Report(sensor: int, value: int)

  /** The outcome of one 8-byte read of the device: the bytes it returned, or
      an error raised by the read itself. */
  datatype ReadOutcome = Bytes(data: seq<bv8>) | ReadError

  /** One poll: what the read returned, and whether the observer raises if
      it is called. */
  datatype Poll = Poll(read: ReadOutcome, observerRaises: bool)

  /** Decoding of one read; an error of the read is a fault like any other. */
  function DecodeRead(r: ReadOutcome): (o: Frame.Outcome)
    ensures r.ReadError? ==> o.Fault?
    ensures r.Bytes? ==> o == Frame.Decode(r.data)
  {
    match r
    case ReadError => Frame.Fault
    case Bytes(data) => Frame.Decode(data)
  }

  /** The state one poll reads and writes: the latest-value table, the
      liveness flag and the calls made to the observer so far. */
  datatype Snapshot = Snapshot(entries: map<int, Value>, running: bool, reports: seq<Report>)

  /** Whether the observer is called by a poll. */
  predicate Fires(observed: bool, p: Poll)
  {
    var o := DecodeRead(p.read);
    observed && o.Accepted? && Notifies(o.kind, o.raw)
  }

  /**
    One poll. A fault stops the meter and changes nothing else. A rejected
    report changes nothing at all. An accepted report overwrites the entry of
    its kind, and nothing else of the table; the observer, if there is one,
    is called when the filter allows, and stops the meter if it raises.
   */
  function Step(s: Snapshot, observed: bool, p: Poll): (t: Snapshot)
    ensures t.running ==> s.running
    ensures DecodeRead(p.read).Fault? ==> t == s.(running := false)
    ensures DecodeRead(p.read).Rejected? ==> t == s
    ensures DecodeRead(p.read).Accepted? ==>
              var o := DecodeRead(p.read);
              && o.kind in t.entries && t.entries[o.kind] == Convert(o.kind, o.raw)
              && t.entries.Keys == s.entries.Keys + {o.kind}
              && (forall k :: k in s.entries && k != o.kind ==> t.entries[k] == s.entries[k])
              && t.running == (s.running && !(Fires(observed, p) && p.observerRaises))
    ensures t.reports == s.reports + (if Fires(observed, p) then [Report(DecodeRead(p.read).kind, DecodeRead(p.read).raw)] else [])
    ensures TableWellFormed(s.entries) ==> TableWellFormed(t.entries)
  {
    match DecodeRead(p.read)
    case Fault => s.(running := false)
    case Rejected => s
    case Accepted(kind, raw) =>
      var stored := s.(entries := s.entries[kind := Convert(kind, raw)]);
      if observed && Notifies(kind, raw) then
        stored.(reports := s.reports + [Report(kind, raw)], running := s.running && !p.observerRaises)
      else stored
  }

  /**
    The poll loop: it polls, then stops if the meter is no longer running,
    and otherwise polls again. It ends when the polls run out, which stands
    for the meter object being gone.
   */
  function Run(s: Snapshot, observed: bool, polls: seq<Poll>): (t: Snapshot)
    ensures polls == [] ==> t == s
    ensures polls != [] && !Step(s, observed, polls[0]).running ==> t == Step(s, observed, polls[0])
    decreases |polls|
  {
    if polls == [] then s
    else
      var next := Step(s, observed, polls[0]);
      if !next.running then next else Run(next, observed, polls[1..])
  }

  /** Once stopped, the meter never runs again, and a meter that is still
      running was running before. */
  lemma {:induction false} RunLatch(s: Snapshot, observed: bool, polls: seq<Poll>)
    ensures Run(s, observed, polls).running ==> s.running
    ensures polls != [] && !s.running ==> !Run(s, observed, polls).running
    decreases |polls|
  {
    if polls != [] {
      var next := Step(s, observed, polls[0]);
      if next.running {
        RunLatch(next, observed, polls[1..]);
      }
    }
  }

  /** The loop consumes no poll after the one that stopped it. */
  lemma {:induction false} RunStopsAtFailure(s: Snapshot, observed: bool, polls: seq<Poll>, later: seq<Poll>)
    requires polls != [] && !Run(s, observed, polls).running
    ensures Run(s, observed, polls + later) == Run(s, observed, polls)
    decreases |polls|
  {
    var next := Step(s, observed, polls[0]);
    assert (polls + later)[0] == polls[0];
    if next.running {
      assert (polls + later)[1..] == polls[1..] + later;
      RunStopsAtFailure(next, observed, polls[1..], later);
    }
  }

  /** The table only ever holds values of accepted reports. */
  lemma {:induction false} RunKeepsTableWellFormed(s: Snapshot, observed: bool, polls: seq<Poll>)
    requires TableWellFormed(s.entries)
    ensures TableWellFormed(Run(s, observed, polls).entries)
    decreases |polls|
  {
    if polls != [] {
      var next := Step(s, observed, polls[0]);
      if next.running {
        RunKeepsTableWellFormed(next, observed, polls[1..]);
      }
    }
  }

  /** The table only grows: no kind, once stored, disappears. */
  lemma {:induction false} RunKeepsKinds(s: Snapshot, observed: bool, polls: seq<Poll>)
    ensures s.entries.Keys <= Run(s, observed, polls).entries.Keys
    ensures s.reports <= Run(s, observed, polls).reports
    decreases |polls|
  {
    if polls != [] {
      var next := Step(s, observed, polls[0]);
      if next.running {
        RunKeepsKinds(next, observed, polls[1..]);
      }
    }
  }

  /** Last write wins: of two consecutive accepted reports of one kind, the
      table keeps the second, whatever the state before them. */
  lemma LastWriteWins(s: Snapshot, observed: bool, first: Poll, second: Poll)
    requires DecodeRead(first.read).Accepted? && DecodeRead(second.read).Accepted?
    requires DecodeRead(first.read).kind == DecodeRead(second.read).kind
    ensures var o := DecodeRead(second.read);
            Step(Step(s, observed, first), observed, second).entries[o.kind] == Convert(o.kind, o.raw)
  {
  }

  /** A rejected report leaves the table, the flag and the observer alone,
      however many of them arrive. */
  lemma {:induction false} RejectedReportsChangeNothing(s: Snapshot, observed: bool, polls: seq<Poll>)
    requires forall i :: 0 <= i < |polls| ==> DecodeRead(polls[i].read).Rejected?
    ensures Run(s, observed, polls) == s
    decreases |polls|
  {
    if polls != [] {
      RejectedReportsChangeNothing(s, observed, polls[1..]);
    }
  }

  /** The loop's state after a prefix of the polls, one poll at a time. */
  lemma RunPrefix(s: Snapshot, observed: bool, polls: seq<Poll>, n: nat, before: Snapshot)
    requires n < |polls|
    requires n == 0 ==> before == s
    requires n > 0 ==> Run(s, observed, polls[..n]) == before && before.running
    ensures Run(s, observed, polls[..n + 1]) == Step(before, observed, polls[n])
  {
    RunSnoc(s, observed, polls[..n], polls[n]);
    assert polls[..n] + [polls[n]] == polls[..n + 1];
  }

  /** Extending the polls by one extends the run by one step, if the run
      still goes. */
  lemma {:induction false} RunSnoc(s: Snapshot, observed: bool, polls: seq<Poll>, last: Poll)
    requires polls == [] || Run(s, observed, polls).running
    ensures Run(s, observed, polls + [last]) == Step(Run(s, observed, polls), observed, last)
    decreases |polls|
  {
    if polls == [] {
      assert [] + [last] == [last];
    } else {
      var next := Step(s, observed, polls[0]);
      assert (polls + [last])[0] == polls[0];
      assert (polls + [last])[1..] == polls[1..] + [last];
      if next.running {
        RunSnoc(next, observed, polls[1..], last);
      } else {
        assert false;
      }
    }
  }
}
