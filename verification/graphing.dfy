/** The snapshot record the graphs are drawn from (`InstantaneousMetrics`) and the data
    preparation around it: totals, sparse look-ups, axis labels and the x/y series for one
    member or channel. Drawing the figure is not modelled. */
module Graphing {
  import opened Outcomes
  import opened Text
  import opened Counts
  import Calendar

  /** The stored document: `{datetime, author_counts, channel_counts}`. */
  datatype Document = Document(datetime: Calendar.Time, authorCounts: Counts, channelCounts: Counts)

  /** All the message counts stored for one point in time. */
  datatype InstantaneousMetrics = InstantaneousMetrics(time: Calendar.Time, authorCounts: Counts, channelCounts: Counts)

  /** A failed dictionary look-up (`KeyError`) while building a series. */
  datatype GraphError = UnknownObject(id: string) | UnknownSelector(name: string)

  /** The x/y arrays of one plotted line. */
  datatype Series = Series(x: seq<string>, y: seq<int>)

  datatype Selector = Channel | Member
  datatype TimeUnit = Hours | Days

  /** Converts a database response into the record, field by field. */
  function ParseData(doc: Document): (m: InstantaneousMetrics)
    ensures m.time == doc.datetime
    ensures m.authorCounts == doc.authorCounts && m.channelCounts == doc.channelCounts
  {
    InstantaneousMetrics(doc.datetime, doc.authorCounts, doc.channelCounts)
  }

  /** Total number of messages in the snapshot: the sum of the per-author counts. */
  function TotalCount(m: InstantaneousMetrics): (r: int)
    ensures r == Sum(m.authorCounts)
    ensures m.authorCounts == [] ==> r == 0
    ensures (forall i :: 0 <= i < |m.authorCounts| ==> m.authorCounts[i].1 >= 0) ==>
              r >= 0 && forall k :: HasKey(m.authorCounts, k) ==> Get(m.authorCounts, k).value <= r
  {
    SumBoundsCounts(m.authorCounts);
    Sum(m.authorCounts)
  }

  /** With no negative count the sum is non-negative and at least every single count. */
  lemma SumBoundsCounts(d: Counts)
    ensures (forall i :: 0 <= i < |d| ==> d[i].1 >= 0) ==>
              Sum(d) >= 0 && forall k :: HasKey(d, k) ==> Get(d, k).value <= Sum(d)
  {
    if forall i :: 0 <= i < |d| ==> d[i].1 >= 0 {
      SumNonNegative(d);
      forall k | HasKey(d, k)
        ensures Get(d, k).value <= Sum(d)
      {
        GetAtMostSum(d, k);
      }
    }
  }

  /** The count stored for one author; an author without an entry is an error, not zero. */
  function GetPersonalCount(m: InstantaneousMetrics, person: string): (r: Result<int, GraphError>)
    ensures r.Ok? <==> HasKey(m.authorCounts, person)
    ensures r.Ok? ==> exists i :: 0 <= i < |m.authorCounts| && m.authorCounts[i] == (person, r.value)
    ensures r.Err? ==> r.error == UnknownObject(person)
  {
    GetFinds(m.authorCounts, person);
    match Get(m.authorCounts, person)
    case Some(n) => Ok(n)
    case None => Err(UnknownObject(person))
  }

  /** The count stored for one channel; a channel without an entry is an error, not zero. */
  function GetChannelCount(m: InstantaneousMetrics, channel: string): (r: Result<int, GraphError>)
    ensures r.Ok? <==> HasKey(m.channelCounts, channel)
    ensures r.Ok? ==> exists i :: 0 <= i < |m.channelCounts| && m.channelCounts[i] == (channel, r.value)
    ensures r.Err? ==> r.error == UnknownObject(channel)
  {
    GetFinds(m.channelCounts, channel);
    match Get(m.channelCounts, channel)
    case Some(n) => Ok(n)
    case None => Err(UnknownObject(channel))
  }

  /** `strftime("%H")`: the zero-padded hour of day. */
  function CleanHoursRepr(m: InstantaneousMetrics): (r: string)
    ensures |r| == 2 && AllDigits(r)
    ensures DecimalValue(r) == m.time % Calendar.SecondsPerDay / Calendar.SecondsPerHour
    ensures DecimalValue(r) < 24
  {
    TwoDigits(Calendar.ToDateTime(m.time).hour)
  }

  /** `strftime("%d/%m/")`: zero-padded day and month, each followed by a slash. */
  function CleanDateRepr(m: InstantaneousMetrics): (r: string)
    ensures |r| == 6 && r[2] == '/' && r[5] == '/'
    ensures AllDigits(r[..2]) && AllDigits(r[3..5])
    ensures DecimalValue(r[..2]) == Calendar.ToDateTime(m.time).day
    ensures DecimalValue(r[3..5]) == Calendar.ToDateTime(m.time).month
    ensures 1 <= DecimalValue(r[..2]) <= 31 && 1 <= DecimalValue(r[3..5]) <= 12
  {
    var dt := Calendar.ToDateTime(m.time);
    var r := TwoDigits(dt.day) + "/" + TwoDigits(dt.month) + "/";
    assert r[..2] == TwoDigits(dt.day);
    assert r[3..5] == TwoDigits(dt.month);
    r
  }

  /** Two snapshots taken on the same day carry the same date label. */
  lemma SameDaySameDateLabel(a: InstantaneousMetrics, b: InstantaneousMetrics)
    requires a.time / Calendar.SecondsPerDay == b.time / Calendar.SecondsPerDay
    ensures CleanDateRepr(a) == CleanDateRepr(b)
    ensures a.time % Calendar.SecondsPerDay / Calendar.SecondsPerHour == b.time % Calendar.SecondsPerDay / Calendar.SecondsPerHour
            <==> CleanHoursRepr(a) == CleanHoursRepr(b)
  {
    var da, db := Calendar.ToDateTime(a.time), Calendar.ToDateTime(b.time);
    assert da.year == db.year && da.month == db.month && da.day == db.day;
  }

  /** The `channel_or_member` table, looked up with `type_.lower()`. */
  function SelectorNamed(name: string): (r: Option<Selector>)
    ensures r == Some(Channel) <==> Lower(name) == "channel"
    ensures r == Some(Member) <==> Lower(name) == "member"
  {
    var key := Lower(name);
    if key == "channel" then Some(Channel) else if key == "member" then Some(Member) else None
  }

  /** The `hours_or_days` table, looked up with `time_unit.lower()`. */
  function UnitNamed(name: string): (r: Option<TimeUnit>)
    ensures r == Some(Hours) <==> Lower(name) == "hours"
    ensures r == Some(Days) <==> Lower(name) == "days"
  {
    var key := Lower(name);
    if key == "hours" then Some(Hours) else if key == "days" then Some(Days) else None
  }

  function CountsOf(sel: Selector, m: InstantaneousMetrics): Counts {
    match sel
    case Channel => m.channelCounts
    case Member => m.authorCounts
  }

  function CountFor(sel: Selector, m: InstantaneousMetrics, id: string): (r: Result<int, GraphError>)
    ensures r.Ok? <==> HasKey(CountsOf(sel, m), id)
    ensures r.Ok? ==> Get(CountsOf(sel, m), id) == Some(r.value)
    ensures r.Err? ==> r.error == UnknownObject(id)
  {
    match sel
    case Channel => GetChannelCount(m, id)
    case Member => GetPersonalCount(m, id)
  }

  function Label(unit: TimeUnit, m: InstantaneousMetrics): string {
    match unit
    case Hours => CleanHoursRepr(m)
    case Days => CleanDateRepr(m)
  }

  /** The counts of one id across the snapshots, failing at the first snapshot without it. */
  function CountSeries(sel: Selector, id: string, data: seq<InstantaneousMetrics>): (r: Result<seq<int>, GraphError>)
    ensures r.Ok? <==> forall i :: 0 <= i < |data| ==> HasKey(CountsOf(sel, data[i]), id)
    ensures r.Err? ==> r.error == UnknownObject(id)
    ensures r.Ok? ==> |r.value| == |data|
    ensures r.Ok? ==> forall i :: 0 <= i < |data| ==> Get(CountsOf(sel, data[i]), id) == Some(r.value[i])
  {
    if data == [] then Ok([])
    else
      var head := CountFor(sel, data[0], id);
      if head.Err? then Err(head.error)
      else
        var rest := CountSeries(sel, id, data[1..]);
        if rest.Err? then
          assert exists j :: 0 <= j < |data[1..]| && !HasKey(CountsOf(sel, data[1..][j]), id);
          assert exists j :: 1 <= j < |data| && !HasKey(CountsOf(sel, data[j]), id);
          Err(rest.error)
        else
          var r := [head.value] + rest.value;
          assert forall i :: 1 <= i < |data| ==> data[i] == data[1..][i - 1] && r[i] == rest.value[i - 1];
          Ok(r)
  }

  /** The y list comprehension: the table look-up is inside the loop, so an empty `data`
      never consults it. */
  function YValues(type_: string, id: string, data: seq<InstantaneousMetrics>): (r: Result<seq<int>, GraphError>)
    ensures data == [] ==> r == Ok([])
    ensures data != [] && SelectorNamed(type_).None? ==> r == Err(UnknownSelector(Lower(type_)))
    ensures r.Ok? <==> (data == [] ||
                        (SelectorNamed(type_).Some? &&
                         forall i :: 0 <= i < |data| ==> HasKey(CountsOf(SelectorNamed(type_).value, data[i]), id)))
    ensures r.Ok? ==> |r.value| == |data|
    ensures r.Ok? && data != [] ==>
              forall i :: 0 <= i < |data| ==> Get(CountsOf(SelectorNamed(type_).value, data[i]), id) == Some(r.value[i])
  {
    if data == [] then Ok([])
    else
      match SelectorNamed(type_)
      case None => Err(UnknownSelector(Lower(type_)))
      case Some(sel) => CountSeries(sel, id, data)
  }

  /** The x list comprehension, with the same per-element table look-up. */
  function XValues(timeUnit: string, data: seq<InstantaneousMetrics>): (r: Result<seq<string>, GraphError>)
    ensures r.Ok? <==> data == [] || UnitNamed(timeUnit).Some?
    ensures r.Err? ==> r.error == UnknownSelector(Lower(timeUnit))
    ensures r.Ok? ==> |r.value| == |data|
    ensures r.Ok? && data != [] ==>
              forall i :: 0 <= i < |data| ==> r.value[i] == Label(UnitNamed(timeUnit).value, data[i])
  {
    if data == [] then Ok([])
    else
      match UnitNamed(timeUnit)
      case None => Err(UnknownSelector(Lower(timeUnit)))
      case Some(unit) =>
        Ok(seq(|data|, i requires 0 <= i < |data| => Label(unit, data[i])))
  }

  /** The series for one channel or member over a run of snapshots: one y value (its count)
      and one x value (an hour or a date label) per snapshot, under a single key. */
  function GetCountsFor(type_: string, object_: string, timeUnit: string, data: seq<InstantaneousMetrics>)
    : (r: Result<map<string, Series>, GraphError>)
    ensures r.Ok? <==> (data == [] ||
                        (&& SelectorNamed(type_).Some?
                         && UnitNamed(timeUnit).Some?
                         && forall i :: 0 <= i < |data| ==> HasKey(CountsOf(SelectorNamed(type_).value, data[i]), object_)))
    ensures data != [] && SelectorNamed(type_).None? ==> r == Err(UnknownSelector(Lower(type_)))
    ensures r.Ok? ==> r.value.Keys == {object_}
    ensures r.Ok? ==> |r.value[object_].x| == |data| && |r.value[object_].y| == |data|
    ensures r.Ok? && data != [] ==>
              forall i :: 0 <= i < |data| ==>
                && Get(CountsOf(SelectorNamed(type_).value, data[i]), object_) == Some(r.value[object_].y[i])
                && r.value[object_].x[i] == Label(UnitNamed(timeUnit).value, data[i])
  {
    match YValues(type_, object_, data)
    case Err(e) => Err(e)
    case Ok(y) =>
      match XValues(timeUnit, data)
      case Err(e) => Err(e)
      case Ok(x) => Ok(map[object_ := Series(x, y)])
  }

  /** The selector names are matched without regard to case. */
  lemma SelectorsIgnoreCase(type_: string, object_: string, timeUnit: string, data: seq<InstantaneousMetrics>)
    ensures GetCountsFor(type_, object_, timeUnit, data) == GetCountsFor(Lower(type_), object_, Lower(timeUnit), data)
  {
    LowerIdempotent(type_);
    LowerIdempotent(timeUnit);
    assert SelectorNamed(type_) == SelectorNamed(Lower(type_));
    assert UnitNamed(timeUnit) == UnitNamed(Lower(timeUnit));
    SameSelectorSameY(type_, Lower(type_), object_, data);
    SameUnitSameX(timeUnit, Lower(timeUnit), data);
  }

  lemma {:induction false} SameSelectorSameY(a: string, b: string, id: string, data: seq<InstantaneousMetrics>)
    requires Lower(a) == Lower(b)
    ensures YValues(a, id, data) == YValues(b, id, data)
  {
    if data != [] {
      SameSelectorSameY(a, b, id, data[1..]);
    }
  }

  lemma SameUnitSameX(a: string, b: string, data: seq<InstantaneousMetrics>)
    requires Lower(a) == Lower(b)
    ensures XValues(a, data) == XValues(b, data)
  {
  }
}
