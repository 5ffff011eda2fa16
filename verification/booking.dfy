/**
 * The Booking widget's state and its operations on it: makeBooked, parseData,
 * the lookup of updateDOM, the starter checkbox toggle, and sendBooking with
 * the patch it applies once the POST request has resolved.
 *
 * The DOM, the pickers and the network are outside the model: the values the
 * source reads from widgets (picked date and hour, amounts, phone, address,
 * the ids of the table elements) are parameters, the fetched lists are given
 * sequences, and "the POST promise resolved" is a call of PostResolved.
 */
module BookingWidget {
  import opened Occupancy
  import Starters

  /** The JSON body that sendBooking posts. */
  datatype Payload = Payload(
    date: int,
    hour: int,
    table: int,
    duration: int,
    ppl: int,
    starters: seq<string>,
    phone: string,
    address: string)

  class Booking {
    /** date key -> half-hour tick -> ids of the tables booked then */
    var booked: Booked
    /** values of the checked starter checkboxes, in click order */
    var starters: seq<string>
    /** the date and start tick the lookup last ran for (set by UpdateDOM) */
    var date: int
    var hour: int

    /** No stored tick is empty: a present slot always has an occupied table. */
    ghost predicate Valid()
      reads this`booked
    {
      NoEmptyTicks(booked)
    }

    /** The source leaves `booked` unset until the first parseData; here it starts empty. */
    constructor ()
      ensures Valid()
      ensures booked == map[] && starters == []
    {
      booked := map[];
      starters := [];
      date := 0;
      hour := 0;
    }

    /**
     * Creates the date key when missing, then for every tick from `hour` up
     * to, not including, `hour + duration` creates the tick key when missing
     * and appends `table` to its list.
     */
    method MakeBooked(date: int, hour: int, duration: int, table: int)
      requires Valid()
      modifies this`booked
      ensures Valid()
      ensures booked == Ingest(old(booked), date, hour, duration, table)
    {
      IngestNoEmptyTicks(booked, date, hour, duration, table);
      if date !in booked {
        booked := booked[date := map[]];
      }
      assert booked == old(booked)[date := DayOf(old(booked), date)];
      var startHour := hour;
      var hourBlock := startHour;
      while hourBlock < startHour + duration
        invariant startHour <= hourBlock
        invariant hourBlock <= startHour + duration || hourBlock == startHour
        invariant booked == Ingest(old(booked), date, startHour, hourBlock - startHour, table)
        decreases startHour + duration - hourBlock
      {
        ghost var prev := booked;
        var day := booked[date];
        if hourBlock !in day {
          day := day[hourBlock := []];
        }
        day := day[hourBlock := day[hourBlock] + [table]];
        booked := booked[date := day];
        PushInPlace(prev, date, hourBlock, table);
        hourBlock := hourBlock + 1;
      }
    }

    /**
     * Rebuilds `booked` from scratch: one-off events, then bookings, then
     * every `daily` repeating event on each date from minDate to maxDate
     * inclusive; then runs the lookup for the picked slot.
     */
    method ParseData(bookings: seq<Record>, eventsCurrent: seq<Record>, eventsRepeat: seq<RepeatRecord>,
                     minDate: int, maxDate: int, pickedDate: int, pickedHour: int, tables: seq<int>)
      returns (marks: seq<bool>)
      modifies this`booked, this`date, this`hour
      ensures Valid()
      ensures booked == Parse(bookings, eventsCurrent, eventsRepeat, minDate, maxDate)
      ensures date == pickedDate && hour == pickedHour
      ensures |marks| == |tables|
      ensures forall i :: 0 <= i < |tables| ==> marks[i] == IsMarkedBooked(booked, date, hour, tables[i])
    {
      booked := map[];

      for i := 0 to |eventsCurrent|
        invariant Valid()
        invariant booked == IngestAll(map[], eventsCurrent[..i])
      {
        var item := eventsCurrent[i];
        assert eventsCurrent[..i + 1][..i] == eventsCurrent[..i];
        MakeBooked(item.date, item.hour, item.duration, item.table);
      }
      assert eventsCurrent[..|eventsCurrent|] == eventsCurrent;
      ghost var afterEvents := booked;

      for i := 0 to |bookings|
        invariant Valid()
        invariant booked == IngestAll(afterEvents, bookings[..i])
      {
        var item := bookings[i];
        assert bookings[..i + 1][..i] == bookings[..i];
        MakeBooked(item.date, item.hour, item.duration, item.table);
      }
      assert bookings[..|bookings|] == bookings;
      ghost var afterBookings := booked;

      for i := 0 to |eventsRepeat|
        invariant Valid()
        invariant booked == ExpandRepeats(afterBookings, eventsRepeat[..i], minDate, maxDate)
      {
        var item := eventsRepeat[i];
        assert eventsRepeat[..i + 1][..i] == eventsRepeat[..i];
        if item.repeat == Daily {
          ghost var before := booked;
          // Day numbers are their own date keys and the next day is loopDate + 1.
          var loopDate := minDate;
          while loopDate <= maxDate
            invariant minDate <= loopDate
            invariant loopDate <= maxDate + 1 || loopDate == minDate
            invariant Valid()
            invariant booked == ExpandDays(before, item, minDate, loopDate)
            decreases maxDate + 1 - loopDate
          {
            MakeBooked(loopDate, item.hour, item.duration, item.table);
            loopDate := loopDate + 1;
          }
          assert booked == ExpandDays(before, item, minDate, maxDate + 1);
        }
      }
      assert eventsRepeat[..|eventsRepeat|] == eventsRepeat;

      marks := UpdateDOM(pickedDate, pickedHour, tables);
    }

    /**
     * The lookup: the slot is "all available" when its date key or its tick
     * key is missing; otherwise a table gets the booked mark exactly when the
     * stored list contains its id. `marks[i]` is the mark of `tables[i]`.
     */
    method UpdateDOM(pickedDate: int, pickedHour: int, tables: seq<int>) returns (marks: seq<bool>)
      modifies this`date, this`hour
      ensures date == pickedDate && hour == pickedHour
      ensures |marks| == |tables|
      ensures forall i :: 0 <= i < |tables| ==> marks[i] == IsMarkedBooked(booked, date, hour, tables[i])
    {
      date := pickedDate;
      hour := pickedHour;

      var allAvailable := false;
      if date !in booked || hour !in booked[date] {
        allAvailable := true;
      }

      marks := [];
      for i := 0 to |tables|
        invariant |marks| == i
        invariant forall k :: 0 <= k < i ==> marks[k] == IsMarkedBooked(booked, date, hour, tables[k])
      {
        var tableId := tables[i];
        if !allAvailable && tableId in booked[date][hour] {
          marks := marks + [true];
        } else {
          marks := marks + [false];
        }
      }
    }

    /** A click on the checkbox of starter `value`: push when checked, splice at indexOf when unchecked. */
    method ToggleStarter(value: string, checked: bool)
      modifies this`starters
      ensures starters == Starters.Toggle(old(starters), value, checked)
    {
      if checked {
        starters := starters + [value];
      } else {
        var index := Starters.IndexOf(starters, value);
        starters := Starters.SpliceOne(starters, index);
      }
    }

    /**
     * Builds the payload that is posted: the date of the last lookup, the
     * picked hour, the selected table, the amounts, contact fields, and a
     * fresh list holding the chosen starters in order. It changes no state:
     * `booked` is patched only by PostResolved.
     */
    method SendBooking(pickedHour: int, hoursAmount: int, peopleAmount: int, selectedTable: int,
                       phone: string, address: string)
      returns (payload: Payload)
      ensures payload == Payload(date, pickedHour, selectedTable, hoursAmount, peopleAmount, starters, phone, address)
    {
      payload := Payload(date, pickedHour, selectedTable, hoursAmount, peopleAmount, [], phone, address);
      for i := 0 to |starters|
        invariant payload == Payload(date, pickedHour, selectedTable, hoursAmount, peopleAmount, starters[..i], phone, address)
      {
        payload := payload.(starters := payload.starters + [starters[i]]);
      }
      assert starters[..|starters|] == starters;
    }

    /** The continuation of the POST request: the posted booking is folded into `booked` by makeBooked. */
    method PostResolved(payload: Payload)
      requires Valid()
      modifies this`booked
      ensures Valid()
      ensures booked == Ingest(old(booked), payload.date, payload.hour, payload.duration, payload.table)
    {
      MakeBooked(payload.date, payload.hour, payload.duration, payload.table);
    }
  }

  /** The two nested in-place updates of one makeBooked step are one Push. */
  lemma PushInPlace(booked: Booked, date: int, tick: int, table: int)
    requires date in booked
    ensures var day0 := booked[date];
            var day1 := if tick !in day0 then day0[tick := []] else day0;
            booked[date := day1[tick := day1[tick] + [table]]] == Push(booked, date, tick, table)
  {
    var day0 := booked[date];
    var day1 := if tick !in day0 then day0[tick := []] else day0;
    assert day1[tick] == ListAt(booked, date, tick);
    assert day1[tick := day1[tick] + [table]] == DayOf(booked, date)[tick := ListAt(booked, date, tick) + [table]];
  }

  /**
   * A booking posted for 18:00 (tick 36) lasting two hours (four ticks) at
   * table 3 marks that table at 18:00 and 19:30 once the request resolves,
   * and leaves 20:00 as it was.
   */
  lemma SubmitExample(booked: Booked, day: int)
    ensures var p := Payload(day, 36, 3, 4, 2, [], "", "");
            var after := Ingest(booked, p.date, p.hour, p.duration, p.table);
            && IsMarkedBooked(after, day, 36, 3)
            && IsMarkedBooked(after, day, 39, 3)
            && IsMarkedBooked(after, day, 40, 3) == IsMarkedBooked(booked, day, 40, 3)
  {
  }
}
