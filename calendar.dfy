/** The calendar page: which entries fall on a day, what a day's tile shows,
    where a click on a day leads, and the "weeks active" figure. A day is
    identified by its `yyyy-MM-dd` key; turning an entry's timestamp into
    that key depends on the time zone and is supplied as `dayKeyOf`. */
module Calendar {
  import opened Wrappers
  import opened Seqs

  datatype CalEntry = CalEntry(id: string, title: string, mood: string, createdAt: string)

  /** A clicked day: its `yyyy-MM-dd` key and its `toISOString()` form. */
  datatype Day = Day(key: string, iso: string)

  function OnDay(dayKeyOf: string -> string, key: string): CalEntry -> bool {
    (e: CalEntry) => dayKeyOf(e.createdAt) == key
  }

  /** `getEntriesForDate`: the entries of that day, in list order. */
  function EntriesForDate(entries: seq<CalEntry>, dayKeyOf: string -> string, day: Day): (r: seq<CalEntry>)
    ensures IsSubsequence(r, entries)
    ensures forall e :: multiset(r)[e] == if dayKeyOf(e.createdAt) == day.key then multiset(entries)[e] else 0
  {
    FilterSubsequence(entries, OnDay(dayKeyOf, day.key));
    FilterMultiset(entries, OnDay(dayKeyOf, day.key));
    Filter(entries, OnDay(dayKeyOf, day.key))
  }

  /** The editor of one entry; the id can be read back from the route. */
  function EditRoute(id: string): (r: string)
    ensures |r| == |id| + 16
    ensures r[..11] == "/dashboard/" && r[|r| - 5..] == "/edit"
    ensures r[11..|r| - 5] == id
  {
    "/dashboard/" + id + "/edit"
  }

  /** The dashboard limited to one day: `startDate` and `endDate` are both
      the day's ISO string. */
  function RangeRoute(day: Day): (r: string)
    ensures |r| == 30 + 2 * |day.iso|
    ensures r[..21] == "/dashboard?startDate=" && r[21..21 + |day.iso|] == day.iso
    ensures r[21 + |day.iso|..30 + |day.iso|] == "&endDate=" && r[30 + |day.iso|..] == day.iso
  {
    "/dashboard?startDate=" + day.iso + "&endDate=" + day.iso
  }

  const NewRoute := "/dashboard/new"

  /** `onDateClick`: a day with one entry opens that entry's editor, a day
      with several opens the dashboard limited to that day, and an empty
      day opens the editor for a new entry. */
  function OnDateClick(entries: seq<CalEntry>, dayKeyOf: string -> string, day: Day): (route: string)
    ensures (forall i :: 0 <= i < |entries| ==> !OnDay(dayKeyOf, day.key)(entries[i]))
            ==> route == NewRoute
    ensures forall i | IsOnlyEntryOfDay(entries, dayKeyOf, day, i) :: route == EditRoute(entries[i].id)
    ensures forall i, j | 0 <= i < j < |entries| && OnDay(dayKeyOf, day.key)(entries[i])
                          && OnDay(dayKeyOf, day.key)(entries[j]) :: route == RangeRoute(day)
  {
    var p := OnDay(dayKeyOf, day.key);
    FilterEmptyIff(entries, p);
    forall i, j | 0 <= i < j < |entries| && p(entries[i]) && p(entries[j])
      ensures |Filter(entries, p)| >= 2
    {
      FilterAtLeastTwo(entries, p, i, j);
    }
    forall i | IsOnlyEntryOfDay(entries, dayKeyOf, day, i)
      ensures Filter(entries, p) == [entries[i]]
    {
      FilterExactlyOne(entries, p, i);
    }
    var dayEntries := EntriesForDate(entries, dayKeyOf, day);
    if |dayEntries| == 1 then EditRoute(dayEntries[0].id)
    else if |dayEntries| > 1 then RangeRoute(day)
    else NewRoute
  }

  /** `entries[i]` is the one entry on `day`. */
  ghost predicate IsOnlyEntryOfDay(entries: seq<CalEntry>, dayKeyOf: string -> string, day: Day, i: int) {
    && 0 <= i < |entries|
    && OnDay(dayKeyOf, day.key)(entries[i])
    && (forall j :: 0 <= j < |entries| && j != i ==> !OnDay(dayKeyOf, day.key)(entries[j]))
  }

  /** A tile shows up to three moods and a dot when the day has more. */
  datatype Tile = Tile(moods: seq<string>, overflowDot: bool)

  function Moods(s: seq<CalEntry>): (r: seq<string>)
    ensures |r| == |s| && forall k :: 0 <= k < |s| ==> r[k] == s[k].mood
  {
    if s == [] then [] else Moods(s[..|s| - 1]) + [s[|s| - 1].mood]
  }

  /** `tileContent`: only month-view tiles of days with entries get
      content. */
  function TileContent(entries: seq<CalEntry>, dayKeyOf: string -> string, day: Day, view: string)
    : (t: Option<Tile>)
    ensures t.Some? <==> view == "month" && exists i :: 0 <= i < |entries| && dayKeyOf(entries[i].createdAt) == day.key
    ensures t.Some? ==>
      var dayEntries := EntriesForDate(entries, dayKeyOf, day);
      && |t.value.moods| == (if |dayEntries| < 3 then |dayEntries| else 3)
      && (forall k :: 0 <= k < |t.value.moods| ==> t.value.moods[k] == dayEntries[k].mood)
      && (t.value.overflowDot <==> |dayEntries| > 3)
  {
    FilterEmptyIff(entries, OnDay(dayKeyOf, day.key));
    if view == "month" then
      var dayEntries := EntriesForDate(entries, dayKeyOf, day);
      if |dayEntries| > 0 then
        var p := PreviewOf(dayEntries, 3);
        Some(Tile(Moods(p.shown), |dayEntries| > 3))
      else None
    else None
  }

  /** "Weeks active": `Math.ceil(n / 7)` for a non-empty list, else 0. */
  function Streak(n: nat): (weeks: nat)
    ensures weeks == 0 <==> n == 0
    ensures n > 0 ==> 7 * (weeks - 1) < n <= 7 * weeks
    ensures weeks <= n
  {
    if n > 0 then (n + 6) / 7 else 0
  }

  /** The page after its one fetch: the server's list, or the initial empty
      list on failure; loading is over either way. */
  datatype CalendarPage = CalendarPage(entries: seq<CalEntry>, loading: bool)

  const InitialPage := CalendarPage([], true)

  function AfterFetch(response: Outcome<seq<CalEntry>>): (page: CalendarPage)
    ensures !page.loading
    ensures response.Err? ==> page.entries == InitialPage.entries
    ensures response.Ok? ==> page.entries == response.value
  {
    match response
    case Ok(list) => CalendarPage(list, false)
    case Err => InitialPage.(loading := false)
  }
}
