/** filterData (src/lib/data.ts:123-136): keeps, in order, the records that
    pass the platform, genre and week selections. */
module Filter {
  import opened Records
  import opened Wrappers

  /** The three tests of filterData, ANDed. An empty platform or genre list
      restricts nothing; so does an absent or empty week (`!selectedWeek`). */
  predicate Matches(item: OttData, platforms: seq<string>, genres: seq<string>, week: Option<string>)
  {
    && (|platforms| == 0 || item.platform in platforms)
    && (|genres| == 0 || item.genre in genres)
    && (week.None? || week.value == "" || item.week == week.value)
  }

  /** Array.prototype.filter with Matches: every matching record, as often as
      it occurs, and nothing else. */
  function FilterData(data: seq<OttData>, platforms: seq<string>, genres: seq<string>, week: Option<string>)
    : (r: seq<OttData>)
    ensures forall x :: multiset(r)[x] == if Matches(x, platforms, genres, week) then multiset(data)[x] else 0
    ensures forall x :: x in r <==> x in data && Matches(x, platforms, genres, week)
  {
    if data == [] then []
    else
      assert data == [data[0]] + data[1..];
      (if Matches(data[0], platforms, genres, week) then [data[0]] else [])
      + FilterData(data[1..], platforms, genres, week)
  }

  /** a is b with some elements left out and the others in their order. */
  predicate IsSubsequence(a: seq<OttData>, b: seq<OttData>)
  {
    if a == [] then true
    else if b == [] then false
    else (a[0] == b[0] && IsSubsequence(a[1..], b[1..])) || IsSubsequence(a, b[1..])
  }

  /** The filter keeps the input order. */
  lemma {:induction false} FilterIsSubsequence(data: seq<OttData>, platforms: seq<string>, genres: seq<string>, week: Option<string>)
    ensures IsSubsequence(FilterData(data, platforms, genres, week), data)
  {
    if data != [] {
      var rest := FilterData(data[1..], platforms, genres, week);
      FilterIsSubsequence(data[1..], platforms, genres, week);
      if Matches(data[0], platforms, genres, week) {
        var r := [data[0]] + rest;
        assert FilterData(data, platforms, genres, week) == r;
        assert r[0] == data[0] && r[1..] == rest;
      } else {
        assert FilterData(data, platforms, genres, week) == rest;
        SkipHead(rest, data);
      }
    }
  }

  lemma SkipHead(a: seq<OttData>, b: seq<OttData>)
    requires b != [] && IsSubsequence(a, b[1..])
    ensures IsSubsequence(a, b)
  {
  }

  /** A sequence whose records all match is left as it is. */
  lemma {:induction false} FilterKeepsMatching(data: seq<OttData>, platforms: seq<string>, genres: seq<string>, week: Option<string>)
    requires forall k :: 0 <= k < |data| ==> Matches(data[k], platforms, genres, week)
    ensures FilterData(data, platforms, genres, week) == data
  {
    if data != [] {
      FilterKeepsMatching(data[1..], platforms, genres, week);
      assert [data[0]] + data[1..] == data;
    }
  }

  /** With no platform, no genre and no week selected, the filter is the identity. */
  lemma FilterUnrestricted(data: seq<OttData>, week: Option<string>)
    requires week.None? || week == Some("")
    ensures FilterData(data, [], [], week) == data
  {
    FilterKeepsMatching(data, [], [], week);
  }

  /** Filtering twice with the same selection is filtering once. */
  lemma FilterIdempotent(data: seq<OttData>, platforms: seq<string>, genres: seq<string>, week: Option<string>)
    ensures var once := FilterData(data, platforms, genres, week);
      FilterData(once, platforms, genres, week) == once
  {
    var once := FilterData(data, platforms, genres, week);
    assert forall k :: 0 <= k < |once| ==> once[k] in once;
    FilterKeepsMatching(once, platforms, genres, week);
  }
}
