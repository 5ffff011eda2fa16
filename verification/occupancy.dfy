/**
 * The occupancy map of the booking widget and the functions that specify
 * how it is built and read.
 *
 * The map goes from a date key to a map from a half-hour tick to the list of
 * table ids booked at that tick. Dates are day numbers (the date key of a day
 * is its day number), ticks count half hours from midnight (14:30 is tick 29)
 * and durations count half hours, so the source's `hourBlock += 0.5` step is
 * a step of one tick.
 */
module Occupancy {

  type Booked = map<int, map<int, seq<int>>>

  /** A one-off event or a confirmed booking, as fetched. */
  datatype Record = Record(date: int, hour: int, duration: int, table: int)

  /** A repeating event, as fetched: it has a rule instead of a date. */
  datatype RepeatRecord = RepeatRecord(repeat: string, hour: int, duration: int, table: int)

  const Daily: string := "daily"

  /** The ticks of one day, or the empty day when the date key is missing. */
  function DayOf(booked: Booked, date: int): map<int, seq<int>>
  {
    if date in booked then booked[date] else map[]
  }

  /** The list stored at (date, tick), or the empty list when a key is missing. */
  function ListAt(booked: Booked, date: int, tick: int): seq<int>
  {
    if date in booked && tick in booked[date] then booked[date][tick] else []
  }

  /** The lookup's `allAvailable`: the date key or the tick key is missing. */
  predicate AllAvailable(booked: Booked, date: int, tick: int)
    ensures AllAvailable(booked, date, tick) ==> ListAt(booked, date, tick) == []
  {
    date !in booked || tick !in booked[date]
  }

  /** The lookup's per-table answer: the table gets the "booked" mark. */
  predicate IsMarkedBooked(booked: Booked, date: int, tick: int, table: int)
    ensures IsMarkedBooked(booked, date, tick, table) <==> table in ListAt(booked, date, tick)
  {
    !AllAvailable(booked, date, tick) && table in booked[date][tick]
  }

  /** Every stored tick holds at least one table. */
  ghost predicate NoEmptyTicks(booked: Booked)
  {
    forall date, tick :: date in booked && tick in booked[date] ==> booked[date][tick] != []
  }

  /** One `push` of the makeBooked loop, creating the keys it needs. */
  function Push(booked: Booked, date: int, tick: int, table: int): Booked
  {
    booked[date := DayOf(booked, date)[tick := ListAt(booked, date, tick) + [table]]]
  }

  /**
   * The state makeBooked leaves: the date key created, then `table` pushed at
   * every tick from `start` up to, not including, `start + duration`.
   */
  function Ingest(booked: Booked, date: int, start: int, duration: int, table: int): (r: Booked)
    ensures date in r
    ensures forall d :: d in booked ==> d in r
    ensures forall t :: start <= t < start + duration ==> t in r[date] && table in r[date][t]
    decreases duration
  {
    if duration <= 0 then booked[date := DayOf(booked, date)]
    else Push(Ingest(booked, date, start, duration - 1, table), date, start + duration - 1, table)
  }

  /** Record-level helpers for the characterisations below. */
  predicate Covers(r: Record, date: int, tick: int)
  {
    r.date == date && r.hour <= tick < r.hour + r.duration
  }

  predicate DailyCovers(r: RepeatRecord, minDate: int, maxDate: int, date: int, tick: int)
  {
    r.repeat == Daily && minDate <= date <= maxDate && r.hour <= tick < r.hour + r.duration
  }

  /** Ingesting a list of records in order, as the parseData loops do. */
  function IngestAll(booked: Booked, records: seq<Record>): (m: Booked)
    ensures forall d :: d in booked ==> d in m
    ensures forall i :: 0 <= i < |records| ==> records[i].date in m
    decreases |records|
  {
    if records == [] then booked
    else
      var r := records[|records| - 1];
      Ingest(IngestAll(booked, records[..|records| - 1]), r.date, r.hour, r.duration, r.table)
  }

  /** Some repeating record has the rule `daily`. */
  predicate HasDaily(records: seq<RepeatRecord>)
  {
    exists i :: 0 <= i < |records| && records[i].repeat == Daily
  }

  /** One repeating record ingested on every date `lo <= d < hi`. */
  function ExpandDays(booked: Booked, r: RepeatRecord, lo: int, hi: int): (m: Booked)
    ensures forall d :: d in booked ==> d in m
    ensures forall d :: lo <= d < hi ==> d in m
    decreases hi - lo
  {
    if hi <= lo then booked
    else Ingest(ExpandDays(booked, r, lo, hi - 1), hi - 1, r.hour, r.duration, r.table)
  }

  /** The repeating records ingested in order; only `daily` ones contribute. */
  function ExpandRepeats(booked: Booked, records: seq<RepeatRecord>, minDate: int, maxDate: int): (m: Booked)
    ensures forall d :: d in booked ==> d in m
    ensures HasDaily(records) ==> forall d :: minDate <= d <= maxDate ==> d in m
    decreases |records|
  {
    if records == [] then booked
    else
      var n := |records| - 1;
      var prev := ExpandRepeats(booked, records[..n], minDate, maxDate);
      var r := records[n];
      assert HasDaily(records) ==> HasDaily(records[..n]) || r.repeat == Daily by {
        assert forall i :: 0 <= i < n ==> records[..n][i] == records[i];
      }
      if r.repeat == Daily then ExpandDays(prev, r, minDate, maxDate + 1) else prev
  }

  /** The map parseData builds from the three fetched lists. */
  function Parse(bookings: seq<Record>, eventsCurrent: seq<Record>, eventsRepeat: seq<RepeatRecord>,
                 minDate: int, maxDate: int): (m: Booked)
    ensures forall i :: 0 <= i < |eventsCurrent| ==> eventsCurrent[i].date in m
    ensures forall i :: 0 <= i < |bookings| ==> bookings[i].date in m
    ensures HasDaily(eventsRepeat) ==> forall d :: minDate <= d <= maxDate ==> d in m
  {
    ExpandRepeats(IngestAll(IngestAll(map[], eventsCurrent), bookings), eventsRepeat, minDate, maxDate)
  }

  // ---------------------------------------------------------------------------
  // makeBooked

  /**
   * What makeBooked does to the map, pointwise: the date key exists afterwards,
   * other dates keep their ticks, a tick of that date is present exactly when
   * it was present or lies in [start, start + duration), and its list is the
   * old list with `table` appended once when it lies in that range.
   */
  lemma {:induction false} IngestEffect(booked: Booked, date: int, start: int, duration: int, table: int)
    ensures Ingest(booked, date, start, duration, table).Keys == booked.Keys + {date}
    ensures forall d :: d in booked && d != date ==> Ingest(booked, date, start, duration, table)[d] == booked[d]
    ensures forall t :: AllAvailable(Ingest(booked, date, start, duration, table), date, t) <==>
                        AllAvailable(booked, date, t) && !(start <= t < start + duration)
    ensures forall t :: ListAt(Ingest(booked, date, start, duration, table), date, t) ==
                        ListAt(booked, date, t) + (if start <= t < start + duration then [table] else [])
    decreases duration
  {
    if duration > 0 {
      IngestEffect(booked, date, start, duration - 1, table);
      var prev := Ingest(booked, date, start, duration - 1, table);
      assert date in prev;
      forall t ensures AllAvailable(Ingest(booked, date, start, duration, table), date, t) <==>
                       AllAvailable(prev, date, t) && t != start + duration - 1 {
      }
    }
  }

  /** The lookup after makeBooked: a table is marked exactly when it was, or it is the ingested table in range. */
  lemma {:induction false} IngestMarked(booked: Booked, date: int, start: int, duration: int, table: int, d: int, t: int, x: int)
    ensures IsMarkedBooked(Ingest(booked, date, start, duration, table), d, t, x) <==>
            IsMarkedBooked(booked, d, t, x) || (d == date && start <= t < start + duration && x == table)
    ensures AllAvailable(Ingest(booked, date, start, duration, table), d, t) <==>
            AllAvailable(booked, d, t) && !(d == date && start <= t < start + duration)
  {
    IngestEffect(booked, date, start, duration, table);
    var r := Ingest(booked, date, start, duration, table);
    if d == date {
      assert ListAt(r, d, t) == ListAt(booked, d, t) + (if start <= t < start + duration then [table] else []);
    }
  }

  /**
   * makeBooked leaves `date` present, marks `table` at every tick of the
   * interval and leaves the tick `start + duration` exactly as it was.
   */
  lemma {:induction false} IngestCovers(booked: Booked, date: int, start: int, duration: int, table: int, t: int)
    requires start <= t < start + duration
    ensures date in Ingest(booked, date, start, duration, table)
    ensures IsMarkedBooked(Ingest(booked, date, start, duration, table), date, t, table)
    ensures AllAvailable(Ingest(booked, date, start, duration, table), date, start + duration) ==
            AllAvailable(booked, date, start + duration)
    ensures ListAt(Ingest(booked, date, start, duration, table), date, start + duration) ==
            ListAt(booked, date, start + duration)
  {
    IngestEffect(booked, date, start, duration, table);
    IngestMarked(booked, date, start, duration, table, date, t, table);
  }

  /** makeBooked touches nothing outside its date and interval. */
  lemma {:induction false} IngestFrame(booked: Booked, date: int, start: int, duration: int, table: int, d: int, t: int)
    requires d != date || !(start <= t < start + duration)
    ensures ListAt(Ingest(booked, date, start, duration, table), d, t) == ListAt(booked, d, t)
    ensures AllAvailable(Ingest(booked, date, start, duration, table), d, t) == AllAvailable(booked, d, t)
    ensures d != date ==> (d in Ingest(booked, date, start, duration, table) <==> d in booked)
    ensures d != date && d in booked ==> Ingest(booked, date, start, duration, table)[d] == booked[d]
  {
    IngestEffect(booked, date, start, duration, table);
  }

  /**
   * Duplicates are kept: ingesting the same booking twice appends the table
   * twice at every tick of the interval, yet the lookup answers as after one.
   */
  lemma {:induction false} IngestTwice(booked: Booked, date: int, start: int, duration: int, table: int, d: int, t: int, x: int)
    ensures start <= t < start + duration ==>
      ListAt(Ingest(Ingest(booked, date, start, duration, table), date, start, duration, table), date, t) ==
      ListAt(booked, date, t) + [table, table]
    ensures IsMarkedBooked(Ingest(Ingest(booked, date, start, duration, table), date, start, duration, table), d, t, x) ==
            IsMarkedBooked(Ingest(booked, date, start, duration, table), d, t, x)
    ensures AllAvailable(Ingest(Ingest(booked, date, start, duration, table), date, start, duration, table), d, t) ==
            AllAvailable(Ingest(booked, date, start, duration, table), d, t)
  {
    var once := Ingest(booked, date, start, duration, table);
    IngestEffect(booked, date, start, duration, table);
    IngestEffect(once, date, start, duration, table);
    IngestMarked(booked, date, start, duration, table, d, t, x);
    IngestMarked(once, date, start, duration, table, d, t, x);
    if start <= t < start + duration {
      assert ListAt(booked, date, t) + [table] + [table] == ListAt(booked, date, t) + [table, table];
    }
  }

  /** makeBooked never stores an empty list. */
  lemma {:induction false} IngestNoEmptyTicks(booked: Booked, date: int, start: int, duration: int, table: int)
    requires NoEmptyTicks(booked)
    ensures NoEmptyTicks(Ingest(booked, date, start, duration, table))
  {
    var r := Ingest(booked, date, start, duration, table);
    IngestEffect(booked, date, start, duration, table);
    forall d, t | d in r && t in r[d]
      ensures r[d][t] != []
    {
      if d == date {
        assert ListAt(r, d, t) == ListAt(booked, d, t) + (if start <= t < start + duration then [table] else []);
        if !(start <= t < start + duration) {
          assert !AllAvailable(r, d, t);
          assert !AllAvailable(booked, d, t);
        }
      } else {
        assert r[d] == booked[d];
      }
    }
  }

  /**
   * The interval example: booking 10:00 for an hour and a half (ticks 20, 21
   * and 22) for table 7 on an empty map marks exactly those ticks.
   */
  lemma IngestExample(day: int)
    ensures IsMarkedBooked(Ingest(map[], day, 20, 3, 7), day, 20, 7)
    ensures IsMarkedBooked(Ingest(map[], day, 20, 3, 7), day, 22, 7)
    ensures AllAvailable(Ingest(map[], day, 20, 3, 7), day, 23)
    ensures AllAvailable(Ingest(map[], day, 20, 3, 7), day, 19)
  {
  }

  // ---------------------------------------------------------------------------
  // parseData

  /** After ingesting a list, (d, t, x) is marked exactly when it was or some record books x there. */
  lemma {:induction false} IngestAllMarked(booked: Booked, records: seq<Record>, d: int, t: int, x: int)
    ensures IsMarkedBooked(IngestAll(booked, records), d, t, x) <==>
            IsMarkedBooked(booked, d, t, x) ||
            exists i :: 0 <= i < |records| && Covers(records[i], d, t) && records[i].table == x
    ensures AllAvailable(IngestAll(booked, records), d, t) <==>
            AllAvailable(booked, d, t) && forall i :: 0 <= i < |records| ==> !Covers(records[i], d, t)
    decreases |records|
  {
    if records != [] {
      var n := |records| - 1;
      var prefix := records[..n];
      var r := records[n];
      IngestAllMarked(booked, prefix, d, t, x);
      IngestMarked(IngestAll(booked, prefix), r.date, r.hour, r.duration, r.table, d, t, x);
      assert forall i :: 0 <= i < n ==> prefix[i] == records[i];
    }
  }

  lemma IngestAllNoEmptyTicks(booked: Booked, records: seq<Record>)
    requires NoEmptyTicks(booked)
    ensures NoEmptyTicks(IngestAll(booked, records))
    decreases |records|
  {
    if records != [] {
      var n := |records| - 1;
      IngestAllNoEmptyTicks(booked, records[..n]);
      IngestNoEmptyTicks(IngestAll(booked, records[..n]), records[n].date, records[n].hour,
                         records[n].duration, records[n].table);
    }
  }

  /** A daily record expanded over [lo, hi) marks its table on those dates only. */
  lemma {:induction false} ExpandDaysMarked(booked: Booked, r: RepeatRecord, lo: int, hi: int, d: int, t: int, x: int)
    ensures IsMarkedBooked(ExpandDays(booked, r, lo, hi), d, t, x) <==>
            IsMarkedBooked(booked, d, t, x) ||
            (lo <= d < hi && r.hour <= t < r.hour + r.duration && x == r.table)
    ensures AllAvailable(ExpandDays(booked, r, lo, hi), d, t) <==>
            AllAvailable(booked, d, t) && !(lo <= d < hi && r.hour <= t < r.hour + r.duration)
    decreases hi - lo
  {
    if lo < hi {
      ExpandDaysMarked(booked, r, lo, hi - 1, d, t, x);
      IngestMarked(ExpandDays(booked, r, lo, hi - 1), hi - 1, r.hour, r.duration, r.table, d, t, x);
    }
  }

  lemma ExpandDaysNoEmptyTicks(booked: Booked, r: RepeatRecord, lo: int, hi: int)
    requires NoEmptyTicks(booked)
    ensures NoEmptyTicks(ExpandDays(booked, r, lo, hi))
    decreases hi - lo
  {
    if lo < hi {
      ExpandDaysNoEmptyTicks(booked, r, lo, hi - 1);
      IngestNoEmptyTicks(ExpandDays(booked, r, lo, hi - 1), hi - 1, r.hour, r.duration, r.table);
    }
  }

  /**
   * Expanding the repeating records: a `daily` record marks its table on every
   * date of [minDate, maxDate] and nowhere else; other rules contribute nothing.
   */
  lemma {:induction false} ExpandRepeatsMarked(booked: Booked, records: seq<RepeatRecord>, minDate: int, maxDate: int,
                                               d: int, t: int, x: int)
    ensures IsMarkedBooked(ExpandRepeats(booked, records, minDate, maxDate), d, t, x) <==>
            IsMarkedBooked(booked, d, t, x) ||
            exists i :: 0 <= i < |records| && DailyCovers(records[i], minDate, maxDate, d, t) && records[i].table == x
    ensures AllAvailable(ExpandRepeats(booked, records, minDate, maxDate), d, t) <==>
            AllAvailable(booked, d, t) &&
            forall i :: 0 <= i < |records| ==> !DailyCovers(records[i], minDate, maxDate, d, t)
    decreases |records|
  {
    if records != [] {
      var n := |records| - 1;
      var prefix := records[..n];
      var r := records[n];
      ExpandRepeatsMarked(booked, prefix, minDate, maxDate, d, t, x);
      if r.repeat == Daily {
        ExpandDaysMarked(ExpandRepeats(booked, prefix, minDate, maxDate), r, minDate, maxDate + 1, d, t, x);
      }
      assert forall i :: 0 <= i < n ==> prefix[i] == records[i];
    }
  }

  /** Repeating records whose rule is not `daily` leave the map exactly as it was. */
  lemma {:induction false} NonDailyIgnored(booked: Booked, records: seq<RepeatRecord>, minDate: int, maxDate: int)
    requires forall i :: 0 <= i < |records| ==> records[i].repeat != Daily
    ensures ExpandRepeats(booked, records, minDate, maxDate) == booked
    decreases |records|
  {
    if records != [] {
      NonDailyIgnored(booked, records[..|records| - 1], minDate, maxDate);
    }
  }

  lemma ExpandRepeatsNoEmptyTicks(booked: Booked, records: seq<RepeatRecord>, minDate: int, maxDate: int)
    requires NoEmptyTicks(booked)
    ensures NoEmptyTicks(ExpandRepeats(booked, records, minDate, maxDate))
    decreases |records|
  {
    if records != [] {
      var n := |records| - 1;
      ExpandRepeatsNoEmptyTicks(booked, records[..n], minDate, maxDate);
      if records[n].repeat == Daily {
        ExpandDaysNoEmptyTicks(ExpandRepeats(booked, records[..n], minDate, maxDate), records[n], minDate, maxDate + 1);
      }
    }
  }

  /**
   * What parseData builds: table x is marked at (d, t) exactly when a one-off
   * event, a booking, or a daily event on a date of [minDate, maxDate] books
   * x at that tick; and the slot is "all available" exactly when no record
   * of any source covers it.
   */
  lemma ParseMarked(bookings: seq<Record>, eventsCurrent: seq<Record>, eventsRepeat: seq<RepeatRecord>,
                    minDate: int, maxDate: int, d: int, t: int, x: int)
    ensures IsMarkedBooked(Parse(bookings, eventsCurrent, eventsRepeat, minDate, maxDate), d, t, x) <==>
            (exists i :: 0 <= i < |eventsCurrent| && Covers(eventsCurrent[i], d, t) && eventsCurrent[i].table == x) ||
            (exists i :: 0 <= i < |bookings| && Covers(bookings[i], d, t) && bookings[i].table == x) ||
            (exists i :: 0 <= i < |eventsRepeat| && DailyCovers(eventsRepeat[i], minDate, maxDate, d, t) &&
                         eventsRepeat[i].table == x)
    ensures AllAvailable(Parse(bookings, eventsCurrent, eventsRepeat, minDate, maxDate), d, t) <==>
            (forall i :: 0 <= i < |eventsCurrent| ==> !Covers(eventsCurrent[i], d, t)) &&
            (forall i :: 0 <= i < |bookings| ==> !Covers(bookings[i], d, t)) &&
            (forall i :: 0 <= i < |eventsRepeat| ==> !DailyCovers(eventsRepeat[i], minDate, maxDate, d, t))
  {
    var events := IngestAll(map[], eventsCurrent);
    IngestAllMarked(map[], eventsCurrent, d, t, x);
    IngestAllMarked(events, bookings, d, t, x);
    ExpandRepeatsMarked(IngestAll(events, bookings), eventsRepeat, minDate, maxDate, d, t, x);
  }

  /** parseData never stores an empty list, so a present slot always has an occupied table. */
  lemma ParseNoEmptyTicks(bookings: seq<Record>, eventsCurrent: seq<Record>, eventsRepeat: seq<RepeatRecord>,
                          minDate: int, maxDate: int)
    ensures NoEmptyTicks(Parse(bookings, eventsCurrent, eventsRepeat, minDate, maxDate))
  {
    IngestAllNoEmptyTicks(map[], eventsCurrent);
    IngestAllNoEmptyTicks(IngestAll(map[], eventsCurrent), bookings);
    ExpandRepeatsNoEmptyTicks(IngestAll(IngestAll(map[], eventsCurrent), bookings), eventsRepeat, minDate, maxDate);
  }

  /** In a map without empty lists, a slot that is not all available has a marked table. */
  lemma NotAvailableHasMarkedTable(booked: Booked, d: int, t: int)
    requires NoEmptyTicks(booked)
    requires !AllAvailable(booked, d, t)
    ensures IsMarkedBooked(booked, d, t, booked[d][t][0])
  {
  }
}
