/** calculateIntegratedRanking (src/lib/data.ts:56-111): groups the records by
    title, scores each record 11 - rank, and sorts the per-title totals. */
module Ranking {
  import opened Records
  import opened Strings
  import opened Sorting
  import opened OrderedSets

  /** The points one record earns: rank 1 earns 10, rank 10 earns 1; ranks
      outside 1..10 are not clamped. */
  function Points(item: OttData): int
  {
    11 - item.rank
  }

  /** Array.prototype.reduce((sum, x) => sum + x, 0). */
  function Sum(xs: seq<int>): int
  {
    if xs == [] then 0 else Sum(xs[..|xs| - 1]) + xs[|xs| - 1]
  }

  /** The records of one title, in input order. */
  function Group(data: seq<OttData>, title: string): seq<OttData>
  {
    if data == [] then []
    else
      var last := data[|data| - 1];
      Group(data[..|data| - 1], title) + (if last.title == title then [last] else [])
  }

  function PointsOf(g: seq<OttData>): seq<int>
  {
    seq(|g|, k requires 0 <= k < |g| => Points(g[k]))
  }

  function ViewsOf(g: seq<OttData>): seq<int>
  {
    seq(|g|, k requires 0 <= k < |g| => g[k].weeklyViews)
  }

  function PlatformsOf(g: seq<OttData>): seq<string>
  {
    seq(|g|, k requires 0 <= k < |g| => g[k].platform)
  }

  /** k is the first position holding the lowest rank of g. */
  ghost predicate IsFirstBest(g: seq<OttData>, k: int)
  {
    && 0 <= k < |g|
    && (forall j :: 0 <= j < |g| ==> g[k].rank <= g[j].rank)
    && (forall j :: 0 <= j < k ==> g[k].rank < g[j].rank)
  }

  /** The position the source's bestRank/bestPlatform tracking settles on:
      a later record replaces the best only with a strictly lower rank. */
  function FirstBest(g: seq<OttData>): (k: nat)
    requires g != []
    ensures k < |g|
  {
    if |g| == 1 then 0
    else
      var k := FirstBest(g[..|g| - 1]);
      if g[|g| - 1].rank < g[k].rank then |g| - 1 else k
  }

  /** That position holds the lowest rank, and no earlier record holds it:
      on a tie the first occurrence wins. */
  lemma {:induction false} FirstBestIsFirstLowest(g: seq<OttData>)
    requires g != []
    ensures IsFirstBest(g, FirstBest(g))
  {
    if |g| > 1 {
      var init := g[..|g| - 1];
      FirstBestIsFirstLowest(init);
      assert forall j :: 0 <= j < |init| ==> g[j] == init[j];
    }
  }

  /** The first-best position is determined by g alone. */
  lemma FirstBestUnique(g: seq<OttData>, k1: int, k2: int)
    requires IsFirstBest(g, k1) && IsFirstBest(g, k2)
    ensures k1 == k2
  {
    assert g[k1].rank == g[k2].rank;
  }

  /** e is the entry that calculateIntegratedRanking promises for the title
      e.title of data: the per-title sums, lists and choices of the source. */
  ghost predicate Summarizes(data: seq<OttData>, e: IntegratedRanking)
  {
    var g := Group(data, e.title);
    && g != []
    && e.score == Sum(PointsOf(g))
    && e.platforms == PlatformsOf(g)
    && e.platformCount == |g|
    && e.totalViews == Sum(ViewsOf(g))
    && e.genre == g[0].genre
    && e.mainPlatform == g[FirstBest(g)].platform
  }

  /** The sort comparator: score descending, then total views descending,
      then title ascending. `RankedBefore(a, b)` holds when the comparator
      lets a stand before b. */
  predicate RankedBefore(a: IntegratedRanking, b: IntegratedRanking)
  {
    || a.score > b.score
    || (a.score == b.score && a.totalViews > b.totalViews)
    || (a.score == b.score && a.totalViews == b.totalViews && Le(a.title, b.title))
  }

  lemma RankedBeforeTotal()
    ensures Total(RankedBefore)
  {
    forall a: IntegratedRanking, b: IntegratedRanking ensures RankedBefore(a, b) || RankedBefore(b, a) {
      LeTotal(a.title, b.title);
    }
  }

  lemma RankedBeforeTransitive()
    ensures Transitive(RankedBefore)
  {
    forall a: IntegratedRanking, b: IntegratedRanking, c: IntegratedRanking
      | RankedBefore(a, b) && RankedBefore(b, c)
      ensures RankedBefore(a, c)
    {
      if Le(a.title, b.title) && Le(b.title, c.title) {
        LeTransitive(a.title, b.title, c.title);
      }
    }
  }

  /** The per-title accumulator of the source's titleMap. The genre Set is
      a sequence in insertion order, so `Array.from(genres)[0]` is its head. */
  datatype Tally = Tally(
    scores: seq<int>,
    platforms: seq<string>,
    genres: seq<string>,
    totalViews: int,
    bestRank: int,
    bestPlatform: string)

  /** What the loop has gathered once it has seen the records g of a title. */
  function TallyFor(g: seq<OttData>): Tally
    requires g != []
  {
    var best := g[FirstBest(g)];
    Tally(PointsOf(g), PlatformsOf(g), Distinct(GenresOf(g)), Sum(ViewsOf(g)), best.rank, best.platform)
  }

  /** The `.map` callback that turns one titleMap entry into a ranking. */
  function ToRanking(title: string, acc: Tally): IntegratedRanking
    requires acc.genres != []
  {
    IntegratedRanking(title, Sum(acc.scores), acc.platforms, acc.bestPlatform,
                      acc.genres[0], acc.totalViews, |acc.platforms|)
  }

  /** The ranking made from a title's gathered tally is the promised entry. */
  lemma TallyForSummarizes(data: seq<OttData>, title: string)
    requires Group(data, title) != []
    ensures TallyFor(Group(data, title)).genres != []
    ensures Summarizes(data, ToRanking(title, TallyFor(Group(data, title))))
  {
    var g := Group(data, title);
    DistinctHead(GenresOf(g));
  }

  /** The tally of a title's first record, as the source creates and fills it. */
  lemma TallyStart(item: OttData)
    ensures TallyFor([item]) == Tally([] + [Points(item)], [] + [item.platform], [] + [item.genre],
                                      0 + item.weeklyViews, item.rank, item.platform)
  {
    var g := [item];
    assert PointsOf(g) == [Points(item)] && PlatformsOf(g) == [item.platform];
    assert GenresOf(g) == [item.genre] && GenresOf(g)[..0] == [];
    assert Distinct(GenresOf(g)) == [item.genre];
    assert ViewsOf(g)[..0] == [];
    assert Sum(ViewsOf(g)) == item.weeklyViews;
    assert FirstBest(g) == 0;
  }

  /** Adding one more record of the title to its tally, as the loop body does. */
  lemma TallyStep(g: seq<OttData>, item: OttData)
    requires g != []
    ensures var acc := TallyFor(g);
      TallyFor(g + [item]) == Tally(
        acc.scores + [Points(item)],
        acc.platforms + [item.platform],
        if item.genre in acc.genres then acc.genres else acc.genres + [item.genre],
        acc.totalViews + item.weeklyViews,
        if item.rank < acc.bestRank then item.rank else acc.bestRank,
        if item.rank < acc.bestRank then item.platform else acc.bestPlatform)
  {
    var g' := g + [item];
    assert g'[..|g|] == g;
    assert PointsOf(g') == PointsOf(g) + [Points(item)];
    assert PlatformsOf(g') == PlatformsOf(g) + [item.platform];
    assert GenresOf(g')[..|g|] == GenresOf(g);
    assert ViewsOf(g')[..|g|] == ViewsOf(g);
  }

  /** The loop invariant: titles holds one tally per title of data, built
      from that title's records, and order lists those titles once each. */
  ghost predicate Gathered(data: seq<OttData>, titles: map<string, Tally>, order: seq<string>)
  {
    && NoDuplicates(order)
    && (forall t :: t in titles <==> t in order)
    && (forall t :: t in titles <==> Group(data, t) != [])
    && (forall t :: t in titles ==> Group(data, t) != [] && titles[t] == TallyFor(Group(data, t)))
  }

  /** The tally the forEach body leaves for item's title, given the tally
      titleMap held before (a fresh one when the title is new). */
  function Gather(titles: map<string, Tally>, item: OttData): Tally
  {
    var acc := if item.title in titles then titles[item.title]
               else Tally([], [], [], 0, item.rank, item.platform);
    Tally(acc.scores + [Points(item)],
          acc.platforms + [item.platform],
          if item.genre in acc.genres then acc.genres else acc.genres + [item.genre],
          acc.totalViews + item.weeklyViews,
          if item.rank < acc.bestRank then item.rank else acc.bestRank,
          if item.rank < acc.bestRank then item.platform else acc.bestPlatform)
  }

  /** The forEach body extends the tally of item's title by item. */
  lemma GatherExtends(data: seq<OttData>, titles: map<string, Tally>, order: seq<string>, item: OttData)
    requires Gathered(data, titles, order)
    ensures Group(data, item.title) + [item] != []
    ensures Gather(titles, item) == TallyFor(Group(data, item.title) + [item])
  {
    var g := Group(data, item.title);
    if item.title in titles {
      assert titles[item.title] == TallyFor(g);
      TallyStep(g, item);
    } else {
      assert g == [];
      TallyStart(item);
    }
  }

  /** One pass of the forEach body keeps the invariant. */
  lemma GatherStep(data: seq<OttData>, item: OttData, titles: map<string, Tally>, order: seq<string>,
                   acc: Tally, data': seq<OttData>, titles': map<string, Tally>, order': seq<string>)
    requires Gathered(data, titles, order)
    requires data' == data + [item]
    requires order' == if item.title in titles then order else order + [item.title]
    requires titles' == titles[item.title := acc]
    requires acc == TallyFor(Group(data, item.title) + [item])
    ensures Gathered(data', titles', order')
  {
    GroupAppend(data, item);
    KeyOrderStep(titles, order, item.title, acc, titles', order');
    assert forall t :: t in titles' <==> Group(data', t) != [];
    TallyEntriesStep(data, item, titles, acc, data', titles');
  }

  /** Only the tally of the record's title changes, to the tally of its
      group with the record appended. */
  lemma TallyEntriesStep(data: seq<OttData>, item: OttData, titles: map<string, Tally>,
                         acc: Tally, data': seq<OttData>, titles': map<string, Tally>)
    requires forall t :: t in titles ==> Group(data, t) != [] && titles[t] == TallyFor(Group(data, t))
    requires data' == data + [item]
    requires titles' == titles[item.title := acc]
    requires acc == TallyFor(Group(data, item.title) + [item])
    ensures forall t :: t in titles' ==> Group(data', t) != [] && titles'[t] == TallyFor(Group(data', t))
  {
    GroupAppend(data, item);
    forall t | t in titles' ensures Group(data', t) != [] && titles'[t] == TallyFor(Group(data', t)) {
      if t != item.title {
        assert titles'[t] == titles[t] && Group(data', t) == Group(data, t);
      }
    }
  }

  /** A record appended to data joins the group of its title only. */
  lemma GroupAppend(data: seq<OttData>, item: OttData)
    ensures forall t :: Group(data + [item], t) == Group(data, t) + (if item.title == t then [item] else [])
  {
    assert (data + [item])[..|data|] == data;
  }

  /** Setting a key appends it to the insertion order exactly when it is new. */
  lemma KeyOrderStep(titles: map<string, Tally>, order: seq<string>, key: string, acc: Tally,
                     titles': map<string, Tally>, order': seq<string>)
    requires NoDuplicates(order) && forall t :: t in titles <==> t in order
    requires order' == if key in titles then order else order + [key]
    requires titles' == titles[key := acc]
    ensures NoDuplicates(order') && forall t :: t in titles' <==> t in order'
  {
  }

  /** Before the first record nothing is gathered. */
  lemma GatheredNothing(data: seq<OttData>)
    requires data == []
    ensures Gathered(data, map[], [])
  {
  }

  /** The titleMap after the forEach body has run on every record of data. */
  function Tallies(data: seq<OttData>): map<string, Tally>
  {
    if data == [] then map[]
    else
      var before := Tallies(data[..|data| - 1]);
      var item := data[|data| - 1];
      before[item.title := Gather(before, item)]
  }

  /** The key insertion order of that titleMap: a title joins when first seen. */
  function TitleOrder(data: seq<OttData>): seq<string>
  {
    if data == [] then []
    else
      var before := TitleOrder(data[..|data| - 1]);
      var item := data[|data| - 1];
      if item.title in Tallies(data[..|data| - 1]) then before else before + [item.title]
  }

  /** One more record extends both folds by one forEach step. */
  lemma TalliesNext(data: seq<OttData>, i: int)
    requires 0 <= i < |data|
    ensures var before, item := Tallies(data[..i]), data[i];
      && Tallies(data[..i + 1]) == before[item.title := Gather(before, item)]
      && TitleOrder(data[..i + 1]) == if item.title in before then TitleOrder(data[..i])
                                      else TitleOrder(data[..i]) + [item.title]
  {
    assert data[..i + 1][..i] == data[..i];
  }

  /** The fold gathers exactly the invariant: one tally per title, built from
      that title's records, with the titles listed once each. */
  lemma {:induction false} TalliesGathered(data: seq<OttData>)
    ensures Gathered(data, Tallies(data), TitleOrder(data))
  {
    if data == [] {
      GatheredNothing(data);
    } else {
      var n := |data| - 1;
      var init, item := data[..n], data[n];
      TalliesGathered(init);
      GatherExtends(init, Tallies(init), TitleOrder(init), item);
      LastSplit(data);
      GatherStep(init, item, Tallies(init), TitleOrder(init), Gather(Tallies(init), item),
                 data, Tallies(data), TitleOrder(data));
    }
  }

  lemma LastSplit(data: seq<OttData>)
    requires data != []
    ensures data == data[..|data| - 1] + [data[|data| - 1]]
  {
  }

  /** The forEach callback: creates the title's tally when the title is new,
      then pushes the record's points and platform, adds its genre to the
      Set, adds its views, and keeps the platform of the strictly lowest rank. */
  method CountRecord(titles: map<string, Tally>, order: seq<string>, item: OttData)
    returns (titles': map<string, Tally>, order': seq<string>)
    ensures titles' == titles[item.title := Gather(titles, item)]
    ensures order' == if item.title in titles then order else order + [item.title]
  {
    var score := 11 - item.rank;
    var titleData: Tally;
    order' := order;
    if item.title in titles {
      titleData := titles[item.title];
    } else {
      titleData := Tally([], [], [], 0, item.rank, item.platform);
      order' := order + [item.title];
    }
    var genres := if item.genre in titleData.genres then titleData.genres else titleData.genres + [item.genre];
    var bestRank, bestPlatform := titleData.bestRank, titleData.bestPlatform;
    if item.rank < titleData.bestRank {
      bestRank, bestPlatform := item.rank, item.platform;
    }
    titles' := titles[item.title := Tally(titleData.scores + [score], titleData.platforms + [item.platform], genres,
                                          titleData.totalViews + item.weeklyViews, bestRank, bestPlatform)];
  }

  /** The forEach loop of calculateIntegratedRanking: it fills titleMap
      (here the map `titles`, with `order` for its key insertion order). */
  method GroupByTitle(data: seq<OttData>) returns (titles: map<string, Tally>, order: seq<string>)
    ensures titles == Tallies(data) && order == TitleOrder(data)
  {
    titles, order := map[], [];
    var i := 0;
    while i < |data|
      invariant 0 <= i <= |data|
      invariant titles == Tallies(data[..i]) && order == TitleOrder(data[..i])
    {
      titles, order := CountRecord(titles, order, data[i]);
      TalliesNext(data, i);
      i := i + 1;
    }
    assert data[..i] == data;
  }

  /** calculateIntegratedRanking: group the records by title, map every
      title's tally to a ranking, and sort with the comparator RankedBefore. */
  method CalculateIntegratedRanking(data: seq<OttData>) returns (rankings: seq<IntegratedRanking>)
    ensures forall k :: 0 <= k < |rankings| ==> Summarizes(data, rankings[k])
    ensures forall k :: 0 <= k < |data| ==> HasEntryFor(rankings, data[k].title)
    ensures forall i, j :: 0 <= i < j < |rankings| ==> rankings[i].title != rankings[j].title
    ensures SortedBy(rankings, RankedBefore)
    ensures data == [] ==> rankings == []
  {
    var titles, order := GroupByTitle(data);
    TalliesGathered(data);
    GatheredTallies(data, titles, order);
    var entries := seq(|order|, k requires 0 <= k < |order| => ToRanking(order[k], titles[order[k]]));
    RankedBeforeTotal();
    EntriesDistinct(titles, order, entries);
    rankings := Sort(entries, RankedBefore);
    SortedTalliesAreTheRanking(data, titles, order, entries, rankings);
  }

  /** An entry's fields agree with each other: platformCount counts the
      platforms list, the main platform is one of them, and the genre is the
      genre of one of the title's records. */
  lemma {:induction false} SummaryConsistent(data: seq<OttData>, e: IntegratedRanking)
    requires Summarizes(data, e)
    ensures e.platformCount == |e.platforms| > 0
    ensures e.mainPlatform in e.platforms
    ensures exists k :: 0 <= k < |data| && data[k].title == e.title && data[k].genre == e.genre
  {
    var g := Group(data, e.title);
    assert e.platforms[FirstBest(g)] == e.mainPlatform;
    GroupFromData(data, e.title, 0);
  }

  /** Every record of a group is a record of data with that title. */
  lemma {:induction false} GroupFromData(data: seq<OttData>, title: string, m: int)
    requires 0 <= m < |Group(data, title)|
    ensures exists k :: 0 <= k < |data| && data[k] == Group(data, title)[m] && data[k].title == title
  {
    var n := |data| - 1;
    var init := data[..n];
    var g := Group(init, title);
    if m < |g| {
      GroupFromData(init, title, m);
      var k :| 0 <= k < |init| && init[k] == g[m] && init[k].title == title;
      assert data[k] == init[k];
    } else {
      assert Group(data, title)[m] == data[n];
    }
  }

  /** With every rank in 1..10, as the top-10 lists have, a title scores
      between 1 and 10 points per appearance. */
  lemma {:induction false} ScoreBounds(g: seq<OttData>)
    requires forall k :: 0 <= k < |g| ==> 1 <= g[k].rank <= 10
    ensures |g| <= Sum(PointsOf(g)) <= 10 * |g|
  {
    if g != [] {
      var n := |g| - 1;
      ScoreBounds(g[..n]);
      assert PointsOf(g)[..n] == PointsOf(g[..n]);
    }
  }

  /** The comparator orders every pair of the sorted rankings, not only
      neighbours; with distinct titles the order is strict. */
  lemma RankingOrder(rankings: seq<IntegratedRanking>, i: int, j: int)
    requires SortedBy(rankings, RankedBefore)
    requires forall a, b :: 0 <= a < b < |rankings| ==> rankings[a].title != rankings[b].title
    requires 0 <= i < j < |rankings|
    ensures var x, y := rankings[i], rankings[j];
      || x.score > y.score
      || (x.score == y.score && x.totalViews > y.totalViews)
      || (x.score == y.score && x.totalViews == y.totalViews && Le(x.title, y.title) && x.title != y.title)
  {
    RankedBeforeTransitive();
    SortedByPairwise(rankings, RankedBefore, i, j);
  }

  /** Entries made from distinct titles are distinct. */
  lemma EntriesDistinct(titles: map<string, Tally>, order: seq<string>, entries: seq<IntegratedRanking>)
    requires NoDuplicates(order) && |entries| == |order|
    requires forall k :: 0 <= k < |order| ==> entries[k].title == order[k]
    ensures NoDuplicates(entries)
  {
    forall i, j | 0 <= i < j < |entries| ensures entries[i] != entries[j] {
      assert entries[i].title == order[i] && entries[j].title == order[j];
    }
  }

  lemma GatheredTallies(data: seq<OttData>, titles: map<string, Tally>, order: seq<string>)
    requires Gathered(data, titles, order)
    ensures forall k :: 0 <= k < |order| ==> order[k] in titles && titles[order[k]].genres != []
  {
    forall k | 0 <= k < |order| ensures order[k] in titles && titles[order[k]].genres != [] {
      TallyForSummarizes(data, order[k]);
    }
  }

  /** What the loop leaves behind, mapped and sorted, is the promised ranking. */
  lemma SortedTalliesAreTheRanking(data: seq<OttData>, titles: map<string, Tally>, order: seq<string>,
                                   entries: seq<IntegratedRanking>, rankings: seq<IntegratedRanking>)
    requires Gathered(data, titles, order)
    requires |entries| == |order|
    requires forall k :: 0 <= k < |order| ==>
      order[k] in titles && titles[order[k]].genres != [] && entries[k] == ToRanking(order[k], titles[order[k]])
    requires forall e :: e in rankings <==> e in entries
    requires NoDuplicates(rankings)
    ensures forall k :: 0 <= k < |rankings| ==> Summarizes(data, rankings[k])
    ensures forall k :: 0 <= k < |data| ==> HasEntryFor(rankings, data[k].title)
    ensures forall i, j :: 0 <= i < j < |rankings| ==> rankings[i].title != rankings[j].title
  {
    forall k | 0 <= k < |rankings| ensures Summarizes(data, rankings[k]) {
      assert rankings[k] in entries;
      var m :| 0 <= m < |entries| && entries[m] == rankings[k];
      TallyForSummarizes(data, order[m]);
    }
    EveryTitleRanked(data, titles, order, entries, rankings);
    forall a, b | 0 <= a < b < |rankings| ensures rankings[a].title != rankings[b].title {
      if rankings[a].title == rankings[b].title {
        SummaryUnique(data, rankings[a], rankings[b]);
      }
    }
  }

  /** Some entry of rankings is about title. */
  predicate HasEntryFor(rankings: seq<IntegratedRanking>, title: string)
  {
    exists j :: 0 <= j < |rankings| && rankings[j].title == title
  }

  /** The title of every record has its entry among the rankings. */
  lemma EveryTitleRanked(data: seq<OttData>, titles: map<string, Tally>, order: seq<string>,
                         entries: seq<IntegratedRanking>, rankings: seq<IntegratedRanking>)
    requires Gathered(data, titles, order)
    requires |entries| == |order|
    requires forall m :: 0 <= m < |order| ==> entries[m].title == order[m]
    requires forall e :: e in rankings <==> e in entries
    ensures forall k :: 0 <= k < |data| ==> HasEntryFor(rankings, data[k].title)
  {
    forall k | 0 <= k < |data| ensures HasEntryFor(rankings, data[k].title) {
      TitleRanked(data, titles, order, entries, rankings, k);
    }
  }

  lemma TitleRanked(data: seq<OttData>, titles: map<string, Tally>, order: seq<string>,
                    entries: seq<IntegratedRanking>, rankings: seq<IntegratedRanking>, k: int)
    requires Gathered(data, titles, order)
    requires |entries| == |order|
    requires forall m :: 0 <= m < |order| ==> entries[m].title == order[m]
    requires forall e :: e in rankings <==> e in entries
    requires 0 <= k < |data|
    ensures HasEntryFor(rankings, data[k].title)
  {
    var t := data[k].title;
    GroupHas(data, k);
    assert t in order;
    var m :| 0 <= m < |order| && order[m] == t;
    assert entries[m] in rankings;
    var j :| 0 <= j < |rankings| && rankings[j] == entries[m];
    assert rankings[j].title == t;
  }

  /** A record's title has a non-empty group. */
  lemma {:induction false} GroupHas(data: seq<OttData>, k: int)
    requires 0 <= k < |data|
    ensures data[k] in Group(data, data[k].title)
  {
    if k < |data| - 1 {
      assert data[..|data| - 1][k] == data[k];
      GroupHas(data[..|data| - 1], k);
    }
  }

  /** Two entries that summarize the same title of the same data are equal. */
  lemma SummaryUnique(data: seq<OttData>, a: IntegratedRanking, b: IntegratedRanking)
    requires Summarizes(data, a) && Summarizes(data, b) && a.title == b.title
    ensures a == b
  {
  }
}
