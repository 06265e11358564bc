/** The analytics page: the mood distribution fetched from the server, the
    "dominant mood" card (which sorts the distribution in place, largest
    count first, and shows the first name) and the pie chart's colours. */
module Analytics {
  import opened Wrappers
  import opened StableSort

  datatype MoodStat = MoodStat(name: string, value: int)

  /** The key of the comparator `(a, b) => b.value - a.value`. */
  function Count(m: MoodStat): int {
    m.value
  }

  /** What the dominant-mood card shows for a distribution in its current
      order. */
  function DominantMoodOf(s: seq<MoodStat>): (name: string)
    ensures |s| == 0 ==> name == "N/A"
    ensures |s| > 0 ==> name == s[FirstMaxIndex(s, Count)].name
    ensures (forall m | m in s :: m.name != "N/A") ==> (name == "N/A" <==> |s| == 0)
  {
    if |s| > 0 then
      SortDescHead(s, Count);
      SortDesc(s, Count)[0].name
    else "N/A"
  }

  const Colors: seq<string> :=
    ["#FACC15", "#60A5FA", "#F87171", "#34D399", "#A78BFA", "#F472B6", "#FB923C", "#9CA3AF"]

  /** The fill of the pie slice at `index`. */
  function CellColor(index: nat): (c: string)
    ensures c in Colors
  {
    Colors[index % |Colors|]
  }

  /** The palette repeats every eight slices... */
  lemma CellColorPeriodic(index: nat)
    ensures CellColor(index + |Colors|) == CellColor(index)
  {
    assert (index + 8) % 8 == index % 8;
  }

  /** ...and any eight consecutive slices get eight different colours. */
  lemma CellColorsDistinct(i: nat, j: nat)
    requires i < j < i + |Colors|
    ensures CellColor(i) != CellColor(j)
  {
    var a, b := i % |Colors|, j % |Colors|;
    assert a != b;
    assert forall x, y :: 0 <= x < y < |Colors| ==> Colors[x] != Colors[y];
  }

  datatype Stats = Stats(moodDistribution: seq<MoodStat>, totalEntries: int)

  /** The page's state. */
  class AnalyticsPage {
    var moodData: array<MoodStat>
    var totalEntries: int
    var loading: bool

    constructor ()
      ensures moodData.Length == 0 && totalEntries == 0 && loading
      ensures fresh(moodData)
    {
      moodData := new MoodStat[0];
      totalEntries := 0;
      loading := true;
    }

    /** The one fetch of the page: on success both fields take the
        response; on failure they keep their values; loading ends. */
    method FetchStats(response: Outcome<Stats>)
      modifies this
      ensures !loading
      ensures response.Ok? ==> moodData[..] == response.value.moodDistribution
                               && totalEntries == response.value.totalEntries && fresh(moodData)
      ensures response.Err? ==> moodData == old(moodData) && totalEntries == old(totalEntries)
    {
      if response.Ok? {
        var d := response.value.moodDistribution;
        moodData := new MoodStat[|d|](i requires 0 <= i < |d| => d[i]);
        assert moodData[..] == d;
        totalEntries := response.value.totalEntries;
      }
      loading := false;
    }

    /** The dominant-mood expression: sorts `moodData` in place by count,
        largest first and stably, then names its first element, or "N/A"
        when there is none. */
    method DominantMood() returns (name: string)
      modifies moodData
      ensures name == DominantMoodOf(old(moodData[..]))
      ensures moodData[..] == SortDesc(old(moodData[..]), Count)
      ensures multiset(moodData[..]) == multiset(old(moodData[..]))
      ensures NonIncreasing(moodData[..], Count)
    {
      SortInPlace(moodData, Count);
      SortDescPermutation(old(moodData[..]), Count);
      SortDescSorted(old(moodData[..]), Count);
      name := if moodData.Length > 0 then moodData[0].name else "N/A";
    }
  }
}
