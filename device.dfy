/**
  The meter object: the latest-value table it fills, its liveness flag,
  one poll of the device (read, decode, validate, store, notify), the poll
  loop, and the accessors that serve the latest values while the meter runs.
 */
module Device {
  import Frame
  import opened Sensor

  /** What an accessor returns: a dictionary from value names to values, or
      the error raised once the poll loop has stopped. */
  datatype Result<T> = Ok(value: T) | Unavailable

  /** The latest-value table, keyed by sensor kind. It is an object of its own
      because `CO2Meter` keeps it in one dictionary that is updated in
      place, and that dictionary may be shared (see Meter.AsWritten). */
  class ValueTable {
    var entries: map<int, Value>

    constructor ()
      ensures entries == map[]
    {
      entries := map[];
    }
  }

  class Meter {
    /** The table this meter stores into and serves from. */
    const table: ValueTable
    /** Whether an observer callback was given. */
    const observed: bool
    /** Cleared by the first failure of a poll; never set again. */
    var running: bool
    /** The calls made to the observer, in order. */
    var reports: seq<Report>

    /** The state a poll reads and writes. */
    function State(): Snapshot
      reads this, table
    {
      Snapshot(table.entries, running, reports)
    }

    /** Every entry of the table is the conversion of an accepted report. */
    predicate Valid()
      reads this, table
    {
      TableWellFormed(table.entries)
    }

    /** A meter with a table of its own, empty, running, with no reports yet.
        The handshake with the device is not part of the model. */
    constructor (observed: bool)
      ensures fresh(table)
      ensures State() == Snapshot(map[], true, [])
      ensures this.observed == observed
      ensures Valid()
    {
      table := new ValueTable();
      this.observed := observed;
      running := true;
      reports := [];
    }

    /** A meter as `CO2Meter.__init__` constructs it: the table is the one dictionary
        shared by every instance, and it is not emptied. */
    constructor AsWritten(classTable: ValueTable, observed: bool)
      ensures table == classTable
      ensures table.entries == old(classTable.entries)
      ensures running && reports == [] && this.observed == observed
    {
      table := classTable;
      this.observed := observed;
      running := true;
      reports := [];
    }

    /**
      One iteration of the poll loop, performing one read. A fault (an error
      of the read, a read too short for byte 4, or a read too short for the
      reversal) stops the meter. A report that fails the terminator or
      checksum test is dropped without any effect. An accepted report replaces
      the entry of its kind and, when the filter allows, is passed to the
      observer; an observer that raises stops the meter.
     */
    method ReadFrame(p: Poll)
      modifies this, table
      ensures State() == Step(old(State()), observed, p)
      ensures old(Valid()) ==> Valid()
    {
      var outcome := Receive(p.read);
      match outcome
      case Fault =>
        running := false;
      case Rejected =>
      case Accepted(operation, val) =>
        table.entries := table.entries[operation := Convert(operation, val)];
        if observed && (operation in {CO2, Temperature} || (operation == Humidity && val != 0)) {
          reports := reports + [Report(operation, val)];
          if p.observerRaises {
            running := false;
          }
        }
    }

    /**
      The poll loop: poll, then stop if the meter no longer runs. The polls
      running out stands for the meter object being collected. Returns how
      many polls were made; the rest are never read.
     */
    method Work(polls: seq<Poll>) returns (consumed: nat)
      modifies this, table
      ensures consumed <= |polls|
      ensures State() == Run(old(State()), observed, polls)
      ensures State() == Run(old(State()), observed, polls[..consumed])
      ensures consumed < |polls| ==> !running
      ensures old(Valid()) ==> Valid()
    {
      consumed := 0;
      while consumed < |polls|
        invariant consumed <= |polls|
        invariant Run(old(State()), observed, polls) == Run(State(), observed, polls[consumed..])
        invariant consumed > 0 ==> Run(old(State()), observed, polls[..consumed]) == State() && running
        invariant consumed == 0 ==> State() == old(State())
        invariant old(Valid()) ==> Valid()
      {
        ghost var before := State();
        ReadFrame(polls[consumed]);
        assert polls[consumed..][1..] == polls[consumed + 1..];
        RunPrefix(old(State()), observed, polls, consumed, before);
        consumed := consumed + 1;
        if !running {
          break;
        }
      }
      assert polls[..|polls|] == polls;
    }

    /** The CO2 reading, while the meter runs. */
    function GetCo2(): (r: Result<map<string, Value>>)
      reads this, table
      ensures r.Unavailable? <==> !running
      ensures r.Ok? ==> r.value.Keys <= {"co2"}
      ensures r.Ok? ==> ("co2" in r.value <==> CO2 in table.entries)
      ensures r.Ok? && "co2" in r.value ==> r.value["co2"] == table.entries[CO2]
    {
      if !running then Unavailable
      else if CO2 in table.entries then Ok(map["co2" := table.entries[CO2]])
      else Ok(map[])
    }

    /** The temperature reading, while the meter runs. */
    function GetTemperature(): (r: Result<map<string, Value>>)
      reads this, table
      ensures r.Unavailable? <==> !running
      ensures r.Ok? ==> r.value.Keys <= {"temperature"}
      ensures r.Ok? ==> ("temperature" in r.value <==> Temperature in table.entries)
      ensures r.Ok? && "temperature" in r.value ==> r.value["temperature"] == table.entries[Temperature]
    {
      if !running then Unavailable
      else if Temperature in table.entries then Ok(map["temperature" := table.entries[Temperature]])
      else Ok(map[])
    }

    /** The humidity reading, while the meter runs, unless it compares equal
        to 0 (devices without the sensor send 0). */
    function GetHumidity(): (r: Result<map<string, Value>>)
      requires Valid()
      reads this, table
      ensures r.Unavailable? <==> !running
      ensures r.Ok? ==> r.value.Keys <= {"humidity"}
      ensures r.Ok? ==> ("humidity" in r.value <==> Humidity in table.entries && table.entries[Humidity].raw >= 5)
      ensures r.Ok? && "humidity" in r.value ==> r.value["humidity"] == table.entries[Humidity]
    {
      if !running then Unavailable
      else if Humidity in table.entries && !RoundsToZero(table.entries[Humidity]) then
        Ok(map["humidity" := table.entries[Humidity]])
      else Ok(map[])
    }

    /** All readings the three accessors serve, in one dictionary. */
    function GetData(): (r: Result<map<string, Value>>)
      requires Valid()
      reads this, table
      ensures r.Unavailable? <==> !running
      ensures r.Ok? ==> r.value.Keys <= {"co2", "temperature", "humidity"}
      ensures r.Ok? ==> GetCo2().Ok? && GetTemperature().Ok? && GetHumidity().Ok?
      ensures r.Ok? ==> r.value == GetCo2().value + GetTemperature().value + GetHumidity().value
      ensures r.Ok? ==> forall name :: name in r.value <==>
                          name in GetCo2().value || name in GetTemperature().value || name in GetHumidity().value
      ensures r.Ok? ==> ("humidity" in r.value <==> Humidity in table.entries && table.entries[Humidity].raw >= 5)
    {
      if !running then Unavailable
      else
        Ok(GetCo2().value + GetTemperature().value + GetHumidity().value)
    }
  }

  /**
    The decoding half of one poll, as `CO2Meter._read_data` performs it: byte 4 is
    looked at (a fault if there is none), the reversal is applied unless it
    is the terminator (a fault if fewer than eight bytes were read), and the
    result is checked and its fields extracted.
   */
  method Receive(read: ReadOutcome) returns (outcome: Frame.Outcome)
    ensures outcome == DecodeRead(read)
  {
    if read.ReadError? {
      return Frame.Fault;
    }
    var data := read.data;
    if |data| < 5 {
      return Frame.Fault;
    }
    if data[4] == Frame.Terminator {
      outcome := Frame.Check(data);
    } else if |data| < 8 {
      outcome := Frame.Fault;
    } else {
      var frame := Frame.Decrypt(data);
      outcome := Frame.Check(frame);
    }
  }

  /** The reference report, read by a new meter: the CO2 accessor then
      serves 400 ppm. */
  method KnownVectorServesCo2() returns (r: Result<map<string, Value>>)
    ensures r == Ok(map["co2" := Count(400)])
  {
    var m := new Meter(false);
    Frame.DecodeKnownVector();
    m.ReadFrame(Poll(Bytes([0x50, 0x01, 0x90, 0xE1, 0x0D, 0x00, 0x00, 0x00]), false));
    r := m.GetCo2();
  }

  /** A humidity report with raw value 3 reaches the observer, yet the
      humidity accessor hides it: the observer tests the raw value, the
      accessor the converted one. */
  method LowHumidityReportedButHidden() returns (heard: seq<Report>, r: Result<map<string, Value>>)
    ensures heard == [Report(Humidity, 3)]
    ensures r == Ok(map[])
  {
    var m := new Meter(true);
    assert Frame.Decode([0x41, 0x00, 0x03, 0x44, 0x0D, 0x00, 0x00, 0x00]) == Frame.Accepted(Humidity, 3);
    m.ReadFrame(Poll(Bytes([0x41, 0x00, 0x03, 0x44, 0x0D, 0x00, 0x00, 0x00]), false));
    heard := m.reports;
    r := m.GetHumidity();
  }

  /** A CO2 report with raw value 0 reaches the observer, and the CO2
      accessor serves it: only humidity is filtered on its value. */
  method ZeroCo2ReportedAndServed() returns (heard: seq<Report>, r: Result<map<string, Value>>)
    ensures heard == [Report(CO2, 0)]
    ensures r == Ok(map["co2" := Count(0)])
  {
    var m := new Meter(true);
    assert Frame.Decode([0x50, 0x00, 0x00, 0x50, 0x0D, 0x00, 0x00, 0x00]) == Frame.Accepted(CO2, 0);
    m.ReadFrame(Poll(Bytes([0x50, 0x00, 0x00, 0x50, 0x0D, 0x00, 0x00, 0x00]), false));
    heard := m.reports;
    r := m.GetCo2();
  }

  /** After a failed read every accessor raises, although the table still
      holds the value read before. */
  method DeadMeterServesNothing() returns (before: Result<map<string, Value>>, after: Result<map<string, Value>>, kept: bool)
    ensures before == Ok(map["co2" := Count(400)])
    ensures after == Unavailable
    ensures kept
  {
    var m := new Meter(false);
    Frame.DecodeKnownVector();
    m.ReadFrame(Poll(Bytes([0x50, 0x01, 0x90, 0xE1, 0x0D, 0x00, 0x00, 0x00]), false));
    assert m.GetTemperature() == Ok(map[]) && m.GetHumidity() == Ok(map[]);
    before := m.GetData();
    assert before.value == map["co2" := Count(400)];
    m.ReadFrame(Poll(ReadError, false));
    after := m.GetData();
    kept := CO2 in m.table.entries && m.table.entries[CO2] == Count(400);
  }

  /** As written, the table is shared by all instances: a meter created after
      another one died serves the dead meter's reading before it has read
      anything itself. */
  method SharedTableServesStaleReading() returns (r: Result<map<string, Value>>)
    ensures r == Ok(map["co2" := Count(400)])
  {
    var classTable := new ValueTable();
    var first := new Meter.AsWritten(classTable, false);
    Frame.DecodeKnownVector();
    first.ReadFrame(Poll(Bytes([0x50, 0x01, 0x90, 0xE1, 0x0D, 0x00, 0x00, 0x00]), false));
    first.ReadFrame(Poll(ReadError, false));
    var second := new Meter.AsWritten(classTable, false);
    r := second.GetCo2();
  }

  /** With a table per meter, the same sequence of events leaves the new
      meter with nothing to serve until it reads a report of its own. */
  method OwnTableServesNoStaleReading() returns (r: Result<map<string, Value>>)
    ensures r == Ok(map[])
  {
    var first := new Meter(false);
    Frame.DecodeKnownVector();
    first.ReadFrame(Poll(Bytes([0x50, 0x01, 0x90, 0xE1, 0x0D, 0x00, 0x00, 0x00]), false));
    first.ReadFrame(Poll(ReadError, false));
    var second := new Meter(false);
    r := second.GetCo2();
  }
}
