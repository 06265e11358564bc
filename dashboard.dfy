/** The entry list of the dashboard page: the filter fields, the query they
    derive for `GET /entries`, the favourites-first ordering of the fetched
    list, the optimistic pin toggle, delete-by-id, the atomic filter reset,
    and the display caps on each card's images and tags. */
module Dashboard {
  import opened Wrappers
  import opened Seqs
  import opened StableSort

  datatype Tag = Tag(id: string, name: string)

  datatype Entry = Entry(
    id: string,
    title: string,
    content: string,
    mood: string,
    createdAt: string,
    tags: seq<Tag>,
    isFavorite: bool,
    images: seq<string>)

  datatype SortOrder = Newest | Oldest

  function SortName(o: SortOrder): string {
    match o
    case Newest => "newest"
    case Oldest => "oldest"
  }

  /** The filter fields a fetch depends on. An empty string means "no
      constraint" for `search`, `mood` and `tag`. */
  datatype Filters = Filters(
    search: string,
    mood: string,
    tag: string,
    isThisMonth: bool,
    sortOrder: SortOrder)

  const DefaultFilters := Filters("", "", "", false, Newest)

  /** The first and last instant of the current month as ISO strings; they
      depend on the clock and the time zone and are supplied by the caller. */
  datatype MonthBounds = MonthBounds(start: string, end: string)

  const QueryKeys: set<string> := {"sort", "search", "mood", "tag", "startDate", "endDate"}

  /** The query parameters of `GET /entries`: `sort` always, each text
      filter only when non-empty, and the month bounds only when the
      "this month" toggle is on. */
  function QueryParams(f: Filters, month: MonthBounds): (p: map<string, string>)
    ensures "sort" in p && p["sort"] == SortName(f.sortOrder)
    ensures ("search" in p <==> f.search != "") && ("search" in p ==> p["search"] == f.search)
    ensures ("mood" in p <==> f.mood != "") && ("mood" in p ==> p["mood"] == f.mood)
    ensures ("tag" in p <==> f.tag != "") && ("tag" in p ==> p["tag"] == f.tag)
    ensures ("startDate" in p <==> f.isThisMonth) && ("endDate" in p <==> f.isThisMonth)
    ensures f.isThisMonth ==> p["startDate"] == month.start && p["endDate"] == month.end
    ensures p.Keys <= QueryKeys
  {
    var p0 := map["sort" := SortName(f.sortOrder)];
    var p1 := if f.search != "" then p0["search" := f.search] else p0;
    var p2 := if f.mood != "" then p1["mood" := f.mood] else p1;
    var p3 := if f.tag != "" then p2["tag" := f.tag] else p2;
    if f.isThisMonth then p3["startDate" := month.start]["endDate" := month.end] else p3
  }

  function Lookup(p: map<string, string>, k: string): string {
    if k in p then p[k] else ""
  }

  /** The inverse of `QueryParams` on the filter fields. */
  function FiltersOf(p: map<string, string>): Filters {
    Filters(
      Lookup(p, "search"),
      Lookup(p, "mood"),
      Lookup(p, "tag"),
      "startDate" in p,
      if Lookup(p, "sort") == "oldest" then Oldest else Newest)
  }

  /** The query loses no filter: the filters can be read back from it. */
  lemma QueryParamsRoundTrip(f: Filters, month: MonthBounds)
    ensures FiltersOf(QueryParams(f, month)) == f
  {
    var p := QueryParams(f, month);
    assert f.sortOrder == Oldest <==> p["sort"] == "oldest";
  }

  /** The query of the default filters, which the page reaches once the
      debounce settles after a reset. */
  lemma ClearedQueryIsSortOnly(month: MonthBounds)
    ensures QueryParams(DefaultFilters, month) == map["sort" := "newest"]
  {
    var p := QueryParams(DefaultFilters, month);
    assert p.Keys == {"sort"};
  }

  /** The query right after a reset, while the debounced search still holds
      the text typed before it: `sort=newest`, plus that text as `search`
      when it is non-empty. */
  lemma ResetQuery(stale: string, month: MonthBounds)
    ensures QueryParams(DefaultFilters.(search := stale), month)
         == if stale == "" then map["sort" := "newest"]
            else map["sort" := "newest", "search" := stale]
  {
    var p := QueryParams(DefaultFilters.(search := stale), month);
    if stale == "" {
      assert p.Keys == {"sort"};
    } else {
      assert p.Keys == {"sort", "search"};
    }
  }

  predicate IsPinned(e: Entry) { e.isFavorite }

  predicate IsUnpinned(e: Entry) { !e.isFavorite }

  /** `Number(e.isFavorite)`, the key of the comparator
      `(a, b) => Number(b.isFavorite) - Number(a.isFavorite)`. */
  function FavoriteKey(e: Entry): int {
    if e.isFavorite then 1 else 0
  }

  /** Pinned entries first, then the rest, each group in the order the
      server returned it. */
  function FavoritesFirst(s: seq<Entry>): (r: seq<Entry>)
    ensures |r| == |s|
    ensures forall k :: 0 <= k < |r| ==> (r[k].isFavorite <==> k < |Filter(s, IsPinned)|)
  {
    PartitionLength(s);
    var pinned, unpinned := Filter(s, IsPinned), Filter(s, IsUnpinned);
    assert forall k :: 0 <= k < |pinned| ==> IsPinned(pinned[k]);
    assert forall k :: 0 <= k < |unpinned| ==> IsUnpinned(unpinned[k]);
    pinned + unpinned
  }

  /** Every entry is either pinned or unpinned. */
  lemma {:induction false} PartitionLength(s: seq<Entry>)
    ensures |Filter(s, IsPinned)| + |Filter(s, IsUnpinned)| == |s|
  {
    if s != [] {
      var s' := s[..|s| - 1];
      assert s == s' + [s[|s| - 1]];
      PartitionLength(s');
      FilterSnoc(s', s[|s| - 1], IsPinned);
      FilterSnoc(s', s[|s| - 1], IsUnpinned);
    }
  }

  /** No unpinned entry precedes a pinned one. */
  ghost predicate PinnedFirst(s: seq<Entry>) {
    forall i, j :: 0 <= i < j < |s| && s[j].isFavorite ==> s[i].isFavorite
  }

  /** The comparator sort of the page computes exactly the favourites-first
      partition. */
  lemma {:induction false} FavoriteSortIsFavoritesFirst(s: seq<Entry>)
    ensures SortDesc(s, FavoriteKey) == FavoritesFirst(s)
  {
    if s != [] {
      var s' := s[..|s| - 1];
      var x := s[|s| - 1];
      FavoriteSortIsFavoritesFirst(s');
      var pinned, unpinned := Filter(s', IsPinned), Filter(s', IsUnpinned);
      assert SortDesc(s, FavoriteKey) == Insert(x, pinned + unpinned, FavoriteKey);
      if x.isFavorite {
        assert Filter(s, IsPinned) == pinned + [x];
        assert Filter(s, IsUnpinned) == unpinned;
        InsertPinned(x, pinned, unpinned);
      } else {
        assert Filter(s, IsPinned) == pinned;
        assert Filter(s, IsUnpinned) == unpinned + [x];
        assert Insert(x, pinned + unpinned, FavoriteKey) == pinned + unpinned + [x];
      }
    }
  }

  /** A newly pinned entry goes after the pinned ones, before the rest. */
  lemma InsertPinned(x: Entry, pinned: seq<Entry>, unpinned: seq<Entry>)
    requires x.isFavorite
    requires forall k :: 0 <= k < |pinned| ==> IsPinned(pinned[k])
    requires forall k :: 0 <= k < |unpinned| ==> IsUnpinned(unpinned[k])
    ensures Insert(x, pinned + unpinned, FavoriteKey) == pinned + [x] + unpinned
  {
    forall k | 0 <= k < |unpinned| ensures FavoriteKey(unpinned[k]) < FavoriteKey(x) {
      assert IsUnpinned(unpinned[k]);
    }
    InsertPastSmaller(x, pinned, unpinned, FavoriteKey);
    if pinned != [] {
      assert IsPinned(pinned[|pinned| - 1]);
    }
    assert Insert(x, pinned, FavoriteKey) == pinned + [x];
  }

  lemma FavoritesFirstPinnedFirst(s: seq<Entry>)
    ensures PinnedFirst(FavoritesFirst(s))
  {
    var r := FavoritesFirst(s);
    forall i, j | 0 <= i < j < |r| && r[j].isFavorite ensures r[i].isFavorite {
    }
  }

  /** Inside each group the fetched order is kept. */
  lemma FavoritesFirstKeepsGroupOrder(s: seq<Entry>)
    ensures Filter(FavoritesFirst(s), IsPinned) == Filter(s, IsPinned)
    ensures Filter(FavoritesFirst(s), IsUnpinned) == Filter(s, IsUnpinned)
  {
    var pinned, unpinned := Filter(s, IsPinned), Filter(s, IsUnpinned);
    forall i | 0 <= i < |unpinned| ensures !IsPinned(unpinned[i]) {
      assert IsUnpinned(unpinned[i]);
    }
    forall i | 0 <= i < |pinned| ensures !IsUnpinned(pinned[i]) {
      assert IsPinned(pinned[i]);
    }
    FilterAppend(pinned, unpinned, IsPinned);
    FilterAll(pinned, IsPinned);
    FilterEmptyIff(unpinned, IsPinned);
    assert Filter(pinned + unpinned, IsPinned) == pinned + [];
    FilterAppend(pinned, unpinned, IsUnpinned);
    FilterAll(unpinned, IsUnpinned);
    FilterEmptyIff(pinned, IsUnpinned);
    assert Filter(pinned + unpinned, IsUnpinned) == [] + unpinned;
  }

  /** Reordering neither loses nor duplicates an entry. */
  lemma FavoritesFirstPermutation(s: seq<Entry>)
    ensures multiset(FavoritesFirst(s)) == multiset(s)
  {
    FilterMultiset(s, IsPinned);
    FilterMultiset(s, IsUnpinned);
    var r := FavoritesFirst(s);
    assert forall x :: multiset(r)[x] == multiset(s)[x];
  }

  lemma {:induction false} PinnedFirstSplits(r: seq<Entry>)
    requires PinnedFirst(r)
    ensures r == Filter(r, IsPinned) + Filter(r, IsUnpinned)
  {
    if r != [] && r[|r| - 1].isFavorite {
      // A pinned entry at the end means every entry is pinned.
      assert forall i :: 0 <= i < |r| ==> r[i].isFavorite;
      AllPinnedSplits(r);
    } else if r != [] {
      var r' := r[..|r| - 1];
      var x := r[|r| - 1];
      assert PinnedFirst(r') by {
        forall i, j | 0 <= i < j < |r'| && r'[j].isFavorite ensures r'[i].isFavorite {
          assert r[i] == r'[i] && r[j] == r'[j];
        }
      }
      PinnedFirstSplits(r');
      FilterSnoc(r', x, IsPinned);
      FilterSnoc(r', x, IsUnpinned);
      var pinned, unpinned := Filter(r', IsPinned), Filter(r', IsUnpinned);
      calc {
        r;
        r' + [x];
        (pinned + unpinned) + [x];
        pinned + (unpinned + [x]);
        Filter(r, IsPinned) + Filter(r, IsUnpinned);
      }
    }
  }

  lemma AllPinnedSplits(r: seq<Entry>)
    requires forall i :: 0 <= i < |r| ==> r[i].isFavorite
    ensures r == Filter(r, IsPinned) + Filter(r, IsUnpinned)
  {
    forall k | 0 <= k < |r| ensures IsPinned(r[k]) {
      assert r[k].isFavorite;
    }
    FilterAll(r, IsPinned);
    FilterEmptyIff(r, IsUnpinned);
    assert r + [] == r;
  }

  /** Favourites-first is the only ordering that puts pinned entries first
      and keeps each group's fetched order, so any stable sort by the
      favourite flag yields it. */
  lemma FavoritesFirstUnique(s: seq<Entry>, r: seq<Entry>)
    requires PinnedFirst(r)
    requires Filter(r, IsPinned) == Filter(s, IsPinned)
    requires Filter(r, IsUnpinned) == Filter(s, IsUnpinned)
    ensures r == FavoritesFirst(s)
  {
    PinnedFirstSplits(r);
  }

  /** The optimistic patch: every entry whose id is `id` gets the favourite
      flag `status`; everything else is untouched. */
  function MarkFavorite(s: seq<Entry>, id: string, status: bool): (r: seq<Entry>)
    ensures |r| == |s|
    ensures forall i :: 0 <= i < |s| && s[i].id == id ==> r[i] == s[i].(isFavorite := status)
    ensures forall i :: 0 <= i < |s| && s[i].id != id ==> r[i] == s[i]
  {
    if s == [] then []
    else
      var e := s[|s| - 1];
      MarkFavorite(s[..|s| - 1], id, status)
        + [if e.id == id then e.(isFavorite := status) else e]
  }

  /** Toggling back with the former flag restores the list, when every
      entry of that id had the same flag. */
  lemma MarkFavoriteUndo(s: seq<Entry>, id: string, status: bool)
    requires forall e | e in s && e.id == id :: e.isFavorite == status
    ensures MarkFavorite(MarkFavorite(s, id, !status), id, status) == s
  {
    var r := MarkFavorite(MarkFavorite(s, id, !status), id, status);
    forall i | 0 <= i < |s| ensures r[i] == s[i] {
      if s[i].id == id { assert s[i] in s; }
    }
  }

  function OtherId(id: string): Entry -> bool {
    (e: Entry) => e.id != id
  }

  /** `entries.filter(entry => entry.id !== id)`: drops exactly the entries
      with that id and keeps the others in order. */
  function RemoveById(s: seq<Entry>, id: string): (r: seq<Entry>)
    ensures IsSubsequence(r, s)
    ensures forall e :: multiset(r)[e] == if e.id == id then 0 else multiset(s)[e]
    ensures forall e | e in r :: e.id != id
  {
    FilterSubsequence(s, OtherId(id));
    FilterMultiset(s, OtherId(id));
    Filter(s, OtherId(id))
  }

  /** The image strip of a card, shown only when the entry has images: the
      first three thumbnails and a "+N" tile that opens the fourth image. */
  datatype ImageStrip = ImageStrip(thumbs: seq<string>, more: nat, moreOpens: Option<string>)

  function ImageStripOf(images: seq<string>): (strip: Option<ImageStrip>)
    ensures strip.None? <==> images == []
    ensures strip.Some? ==>
      var p := strip.value;
      && |p.thumbs| == (if |images| < 3 then |images| else 3)
      && p.thumbs == images[..|p.thumbs|]
      && |p.thumbs| + p.more == |images|
      && (p.moreOpens.Some? <==> |images| > 3)
      && (p.moreOpens.Some? ==> p.moreOpens.value == images[|p.thumbs|])
  {
    if images == [] then None
    else
      var p := PreviewOf(images, 3);
      Some(ImageStrip(p.shown, p.more, if p.more > 0 then Some(images[3]) else None))
  }

  /** The tag chips of a card: the first three tags and a "+N" count. */
  function TagChips(tags: seq<Tag>): (p: Preview<Tag>)
    ensures |p.shown| == (if |tags| < 3 then |tags| else 3)
    ensures p.shown == tags[..|p.shown|]
    ensures |p.shown| + p.more == |tags|
    ensures p.more > 0 <==> |tags| > 3
  {
    PreviewOf(tags, 3)
  }

  /** The page's state: the entry list, the loading flag and the filter
      fields (`search` is the text box; `debouncedSearch` is the value that
      reaches the query once typing has paused). */
  class EntryList {
    var entries: seq<Entry>
    var loading: bool
    var search: string
    var debouncedSearch: string
    var selectedMood: string
    var selectedTag: string
    var isThisMonth: bool
    var sortOrder: SortOrder

    function Query(): Filters
      reads this
    {
      Filters(debouncedSearch, selectedMood, selectedTag, isThisMonth, sortOrder)
    }

    constructor ()
      ensures entries == [] && loading
      ensures search == "" && Query() == DefaultFilters
    {
      entries := [];
      loading := true;
      search, debouncedSearch := "", "";
      selectedMood, selectedTag := "", "";
      isThisMonth := false;
      sortOrder := Newest;
    }

    /** `fetchEntries`: sends the derived query; on success stores the
        response ordered favourites-first, on failure keeps the list; the
        loading flag ends false either way. Returns the query it sent. */
    method FetchEntries(month: MonthBounds, response: Outcome<seq<Entry>>)
      returns (params: map<string, string>)
      modifies this
      ensures params == QueryParams(old(Query()), month)
      ensures entries == if response.Ok? then FavoritesFirst(response.value) else old(entries)
      ensures !loading
      ensures Query() == old(Query()) && search == old(search)
    {
      loading := true;
      params := QueryParams(Query(), month);
      if response.Ok? {
        var fetched := response.value;
        var a := new Entry[|fetched|](i requires 0 <= i < |fetched| => fetched[i]);
        assert a[..] == fetched;
        SortInPlace(a, FavoriteKey);
        FavoriteSortIsFavoritesFirst(fetched);
        entries := a[..];
      }
      loading := false;
    }

    /** `handleDelete`: nothing happens unless the user confirms; then the
        entry is removed locally only if the server accepted the delete.
        Returns whether the request was sent. */
    method HandleDelete(id: string, confirmed: bool, reply: Status) returns (requested: bool)
      modifies this
      ensures requested == confirmed
      ensures entries == if confirmed && reply == Done then RemoveById(old(entries), id) else old(entries)
      ensures loading == old(loading)
      ensures Query() == old(Query()) && search == old(search)
    {
      requested := confirmed;
      if !confirmed {
        return;
      }
      if reply == Done {
        entries := RemoveById(entries, id);
      }
    }

    /** `handleTogglePin`: gives every entry with the clicked card's id the
        negation of the card's flag and re-sorts favourites-first before the
        request is answered; if the request fails the list is refetched
        (not reverted). Returns the flag sent and whether a refetch ran. */
    method HandleTogglePin(target: Entry, reply: Status, month: MonthBounds, refetch: Outcome<seq<Entry>>)
      returns (newStatus: bool, refetched: bool, sent: Option<map<string, string>>)
      modifies this
      ensures newStatus == !target.isFavorite
      ensures refetched <==> reply == Failed
      ensures sent == if refetched then Some(QueryParams(old(Query()), month)) else None
      ensures
        var optimistic := FavoritesFirst(MarkFavorite(old(entries), target.id, newStatus));
        entries == if refetched && refetch.Ok? then FavoritesFirst(refetch.value) else optimistic
      ensures loading == if refetched then false else old(loading)
      ensures Query() == old(Query()) && search == old(search)
    {
      newStatus := !target.isFavorite;
      var updated := MarkFavorite(entries, target.id, newStatus);
      var a := new Entry[|updated|](i requires 0 <= i < |updated| => updated[i]);
      assert a[..] == updated;
      SortInPlace(a, FavoriteKey);
      FavoriteSortIsFavoritesFirst(updated);
      entries := a[..];
      refetched := reply == Failed;
      sent := None;
      if refetched {
        var params := FetchEntries(month, refetch);
        sent := Some(params);
      }
    }

    /** `clearFilters`: resets the five filter inputs at once and touches
        nothing else. The debounced search follows the text box later. */
    method ClearFilters()
      modifies this
      ensures search == "" && selectedMood == "" && selectedTag == ""
      ensures !isThisMonth && sortOrder == Newest
      ensures debouncedSearch == old(debouncedSearch)
      ensures Query() == DefaultFilters.(search := old(debouncedSearch))
      ensures entries == old(entries) && loading == old(loading)
    {
      search := "";
      selectedMood := "";
      selectedTag := "";
      isThisMonth := false;
      sortOrder := Newest;
    }

    /** Typing in the search box. */
    method SetSearch(text: string)
      modifies this
      ensures search == text && Query() == old(Query())
      ensures entries == old(entries) && loading == old(loading)
    {
      search := text;
    }

    /** The quiet period after typing has elapsed: the query picks up the
        search text. */
    method DebounceSettles()
      modifies this
      ensures debouncedSearch == search && search == old(search)
      ensures Query() == old(Query()).(search := search)
      ensures entries == old(entries) && loading == old(loading)
    {
      debouncedSearch := search;
    }

    /** The mood drop-down, or a click on a card's mood. */
    method SelectMood(mood: string)
      modifies this
      ensures Query() == old(Query()).(mood := mood) && search == old(search)
      ensures entries == old(entries) && loading == old(loading)
    {
      selectedMood := mood;
    }

    /** A click on a card's tag chip. */
    method SelectTag(tag: string)
      modifies this
      ensures Query() == old(Query()).(tag := tag) && search == old(search)
      ensures entries == old(entries) && loading == old(loading)
    {
      selectedTag := tag;
    }

    /** The "This Month" button. */
    method ToggleThisMonth()
      modifies this
      ensures Query() == old(Query()).(isThisMonth := !old(isThisMonth)) && search == old(search)
      ensures entries == old(entries) && loading == old(loading)
    {
      isThisMonth := !isThisMonth;
    }

    /** The sort drop-down. */
    method SetSortOrder(order: SortOrder)
      modifies this
      ensures Query() == old(Query()).(sortOrder := order) && search == old(search)
      ensures entries == old(entries) && loading == old(loading)
    {
      sortOrder := order;
    }
  }
}
