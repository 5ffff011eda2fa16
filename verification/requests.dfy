/**
 * The three query-parameter lists getData builds for the date window, and
 * the resource URLs made from them with `join('&')`.
 *
 * The keys and resource names come from the application's settings and the
 * two date strings from the date formatter; both are parameters here.
 */
module Requests {

  datatype DbSettings = DbSettings(
    url: string,
    booking: string,
    event: string,
    dateStartParamKey: string,
    dateEndParamKey: string,
    notRepeatParam: string,
    repeatParam: string)

  datatype Params = Params(booking: seq<string>, eventsCurrent: seq<string>, eventsRepeat: seq<string>)

  datatype Urls = Urls(booking: string, eventsCurrent: string, eventsRepeat: string)

  function Param(key: string, value: string): string
  {
    key + "=" + value
  }

  /**
   * Bookings and one-off events are scoped by both ends of the window and the
   * one-off events add the "does not repeat" marker; repeating events add the
   * "repeats" marker and are scoped by the end of the window only.
   */
  function DataParams(db: DbSettings, minDateStr: string, maxDateStr: string): (p: Params)
    ensures |p.booking| == 2
    ensures p.eventsCurrent == [db.notRepeatParam] + p.booking
    ensures p.eventsRepeat == [db.repeatParam] + p.booking[1..]
    ensures p.booking[0] == Param(db.dateStartParamKey, minDateStr)
    ensures p.booking[1] == Param(db.dateEndParamKey, maxDateStr)
  {
    var startDateParam := Param(db.dateStartParamKey, minDateStr);
    var endDateParam := Param(db.dateEndParamKey, maxDateStr);
    Params([startDateParam, endDateParam],
           [db.notRepeatParam, startDateParam, endDateParam],
           [db.repeatParam, endDateParam])
  }

  /** `Array.prototype.join(sep)` on a list of strings. */
  function Join(parts: seq<string>, sep: char): (r: string)
    ensures parts == [] ==> r == ""
    ensures parts != [] ==> parts[0] <= r
    ensures FreeOf(parts, sep) ==> (sep in r <==> |parts| >= 2)
    decreases |parts|
  {
    if parts == [] then ""
    else if |parts| == 1 then parts[0]
    else parts[0] + [sep] + Join(parts[1..], sep)
  }

  /** Splitting a string at every `sep`: the reference inverse of Join. */
  function Split(s: string, sep: char): (r: seq<string>)
    ensures |r| >= 1
    decreases |s|
  {
    if s == [] then [""]
    else
      var rest := Split(s[1..], sep);
      if s[0] == sep then [""] + rest else [[s[0]] + rest[0]] + rest[1..]
  }

  /** The part of a resource URL in front of its query string. */
  function Base(db: DbSettings, resource: string): string
  {
    db.url + "/" + resource + "?"
  }

  /** Bookings are fetched from the booking resource, both event lists from the event resource. */
  function DataUrls(db: DbSettings, p: Params): (u: Urls)
    ensures Base(db, db.booking) <= u.booking
    ensures Base(db, db.event) <= u.eventsCurrent && Base(db, db.event) <= u.eventsRepeat
  {
    Urls(Base(db, db.booking) + Join(p.booking, '&'),
         Base(db, db.event) + Join(p.eventsCurrent, '&'),
         Base(db, db.event) + Join(p.eventsRepeat, '&'))
  }

  predicate FreeOf(parts: seq<string>, sep: char)
  {
    forall i :: 0 <= i < |parts| ==> sep !in parts[i]
  }

  lemma {:induction false} SplitPrefix(a: string, tail: string, sep: char)
    requires sep !in a
    ensures Split(a + tail, sep) == [a + Split(tail, sep)[0]] + Split(tail, sep)[1..]
    decreases |a|
  {
    if a != [] {
      assert (a + tail)[0] == a[0] && a[0] != sep;
      assert (a + tail)[1..] == a[1..] + tail;
      SplitPrefix(a[1..], tail, sep);
      assert [a[0]] + (a[1..] + Split(tail, sep)[0]) == a + Split(tail, sep)[0];
    } else {
      assert a + tail == tail;
      assert a + Split(tail, sep)[0] == Split(tail, sep)[0];
    }
  }

  /** Join and Split are inverse on a non-empty list of parts that do not contain the separator. */
  lemma {:induction false} SplitJoin(parts: seq<string>, sep: char)
    requires parts != [] && FreeOf(parts, sep)
    ensures Split(Join(parts, sep), sep) == parts
    decreases |parts|
  {
    if |parts| == 1 {
      SplitPrefix(parts[0], "", sep);
      assert Split("", sep) == [""];
      assert parts[0] + "" == parts[0] == Join(parts, sep);
      assert Split(Join(parts, sep), sep) == [parts[0]];
    } else {
      var rest := Join(parts[1..], sep);
      assert Join(parts, sep) == parts[0] + ([sep] + rest);
      SplitPrefix(parts[0], [sep] + rest, sep);
      assert ([sep] + rest)[0] == sep && ([sep] + rest)[1..] == rest;
      assert Split([sep] + rest, sep) == [""] + Split(rest, sep);
      SplitJoin(parts[1..], sep);
      assert parts[0] + "" == parts[0];
      assert parts == [parts[0]] + parts[1..];
    }
  }

  /**
   * Each of the three URLs is its resource's base followed by a query string
   * that splits at '&' back into exactly its parameter list.
   */
  lemma DataUrlsCarryParams(db: DbSettings, minDateStr: string, maxDateStr: string)
    requires '&' !in db.dateStartParamKey && '&' !in db.dateEndParamKey
    requires '&' !in db.notRepeatParam && '&' !in db.repeatParam
    requires '&' !in minDateStr && '&' !in maxDateStr
    ensures var p := DataParams(db, minDateStr, maxDateStr);
            var u := DataUrls(db, p);
            && u.booking[..|Base(db, db.booking)|] == Base(db, db.booking)
            && Split(u.booking[|Base(db, db.booking)|..], '&') == p.booking
            && u.eventsCurrent[..|Base(db, db.event)|] == Base(db, db.event)
            && Split(u.eventsCurrent[|Base(db, db.event)|..], '&') == p.eventsCurrent
            && u.eventsRepeat[..|Base(db, db.event)|] == Base(db, db.event)
            && Split(u.eventsRepeat[|Base(db, db.event)|..], '&') == p.eventsRepeat
  {
    var p := DataParams(db, minDateStr, maxDateStr);
    var u := DataUrls(db, p);
    assert FreeOf(p.booking, '&') && FreeOf(p.eventsCurrent, '&') && FreeOf(p.eventsRepeat, '&');
    SplitJoin(p.booking, '&');
    SplitJoin(p.eventsCurrent, '&');
    SplitJoin(p.eventsRepeat, '&');
    assert u.booking[|Base(db, db.booking)|..] == Join(p.booking, '&');
    assert u.eventsCurrent[|Base(db, db.event)|..] == Join(p.eventsCurrent, '&');
    assert u.eventsRepeat[|Base(db, db.event)|..] == Join(p.eventsRepeat, '&');
  }
}
