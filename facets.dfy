/** getAvailableGenres and getAvailableWeeks (src/lib/data.ts:113-121): the
    distinct genres in ascending order and the distinct weeks in descending
    order, so that the first week is the most recent one. */
module Facets {
  import opened Records
  import opened Strings
  import opened Sorting
  import opened OrderedSets

  /** The string order is a total order, as Array.prototype.sort needs. */
  lemma LeIsTotalOrder()
    ensures Total(Le) && Transitive(Le)
  {
    forall a: string, b: string ensures Le(a, b) || Le(b, a) {
      LeTotal(a, b);
    }
    forall a: string, b: string, c: string | Le(a, b) && Le(b, c) ensures Le(a, c) {
      LeTransitive(a, b, c);
    }
  }

  /** Sorted strings without repeats ascend strictly. */
  lemma {:induction false} StrictlyAscending(r: seq<string>)
    requires SortedBy(r, Le) && NoDuplicates(r)
    ensures forall i, j :: 0 <= i < j < |r| ==> Le(r[i], r[j]) && r[i] != r[j]
  {
    LeIsTotalOrder();
    forall i, j | 0 <= i < j < |r| ensures Le(r[i], r[j]) {
      SortedByPairwise(r, Le, i, j);
    }
  }

  lemma GenresOfHolds(data: seq<OttData>)
    ensures forall g :: g in GenresOf(data) <==> exists k :: 0 <= k < |data| && data[k].genre == g
  {
    var genres := GenresOf(data);
    forall g ensures g in genres <==> exists k :: 0 <= k < |data| && data[k].genre == g {
      if g in genres {
        var k :| 0 <= k < |genres| && genres[k] == g;
        assert data[k].genre == g;
      }
      if exists k :: 0 <= k < |data| && data[k].genre == g {
        var k :| 0 <= k < |data| && data[k].genre == g;
        assert genres[k] == g;
      }
    }
  }

  lemma WeeksOfHolds(data: seq<OttData>)
    ensures forall w :: w in WeeksOf(data) <==> exists k :: 0 <= k < |data| && data[k].week == w
  {
    var weeks := WeeksOf(data);
    forall w ensures w in weeks <==> exists k :: 0 <= k < |data| && data[k].week == w {
      if w in weeks {
        var k :| 0 <= k < |weeks| && weeks[k] == w;
        assert data[k].week == w;
      }
      if exists k :: 0 <= k < |data| && data[k].week == w {
        var k :| 0 <= k < |data| && data[k].week == w;
        assert weeks[k] == w;
      }
    }
  }

  /** Reversing a strictly ascending sequence gives a strictly descending one
      with the same elements, whose first element is greater than the rest. */
  lemma ReverseDescends(s: seq<string>)
    requires forall i, j :: 0 <= i < j < |s| ==> Le(s[i], s[j]) && s[i] != s[j]
    ensures var r := Reverse(s);
      && NoDuplicates(r)
      && (forall w :: w in r <==> w in s)
      && (forall i, j :: 0 <= i < j < |r| ==> Le(r[j], r[i]) && r[i] != r[j])
      && (forall w :: w in s ==> Le(w, r[0]))
  {
    var r := Reverse(s);
    forall w ensures w in r <==> w in s {
      if w in s {
        var k :| 0 <= k < |s| && s[k] == w;
        assert r[|r| - 1 - k] == w;
      }
      if w in r {
        var k :| 0 <= k < |r| && r[k] == w;
        assert s[|s| - 1 - k] == w;
      }
    }
    forall w | w in s ensures Le(w, r[0]) {
      var i :| 0 <= i < |s| && s[i] == w;
      if i < |s| - 1 {
        assert Le(s[i], s[|s| - 1]);
      } else {
        LeReflexive(w);
      }
    }
  }

  /** getAvailableGenres: every genre of the input once, in ascending order. */
  function AvailableGenres(data: seq<OttData>): (r: seq<string>)
    ensures NoDuplicates(r)
    ensures forall g :: g in r <==> exists k :: 0 <= k < |data| && data[k].genre == g
    ensures forall i, j :: 0 <= i < j < |r| ==> Le(r[i], r[j]) && r[i] != r[j]
  {
    LeIsTotalOrder();
    GenresOfHolds(data);
    var r := Sort(Distinct(GenresOf(data)), Le);
    StrictlyAscending(r);
    r
  }

  /** getAvailableWeeks: every week of the input once, in descending order;
      the first one is the greatest week of the input. */
  function AvailableWeeks(data: seq<OttData>): (r: seq<string>)
    ensures NoDuplicates(r)
    ensures forall w :: w in r <==> exists k :: 0 <= k < |data| && data[k].week == w
    ensures forall i, j :: 0 <= i < j < |r| ==> Le(r[j], r[i]) && r[i] != r[j]
    ensures |data| > 0 ==> |r| > 0 && forall k :: 0 <= k < |data| ==> Le(data[k].week, r[0])
  {
    LeIsTotalOrder();
    var ascending := Sort(Distinct(WeeksOf(data)), Le);
    WeeksDescend(data, ascending);
    Reverse(ascending)
  }

  lemma WeeksDescend(data: seq<OttData>, ascending: seq<string>)
    requires Total(Le) && ascending == Sort(Distinct(WeeksOf(data)), Le)
    ensures var r := Reverse(ascending);
      && NoDuplicates(r)
      && (forall w :: w in r <==> exists k :: 0 <= k < |data| && data[k].week == w)
      && (forall i, j :: 0 <= i < j < |r| ==> Le(r[j], r[i]) && r[i] != r[j])
      && (|data| > 0 ==> |r| > 0 && forall k :: 0 <= k < |data| ==> Le(data[k].week, r[0]))
  {
    WeeksMembers(data, ascending);
    StrictlyAscending(ascending);
    ReverseDescends(ascending);
  }

  lemma WeeksMembers(data: seq<OttData>, ascending: seq<string>)
    requires Total(Le) && ascending == Sort(Distinct(WeeksOf(data)), Le)
    ensures forall w :: w in ascending <==> exists k :: 0 <= k < |data| && data[k].week == w
    ensures forall k :: 0 <= k < |data| ==> data[k].week in ascending
  {
    WeeksOfHolds(data);
  }

  /** Three weeks given out of order come back newest first. */
  lemma WeeksNewestFirst(data: seq<OttData>)
    requires |data| == 3
    requires data[0].week == "2024-01" && data[1].week == "2024-03" && data[2].week == "2024-02"
    ensures AvailableWeeks(data) == ["2024-03", "2024-02", "2024-01"]
  {
    var r := AvailableWeeks(data);
    WeeksOfThree(data, r);
    MonthsInOrder();
    DescendingThree(r, "2024-03", "2024-02", "2024-01");
  }

  lemma MonthsInOrder()
    ensures Le("2024-02", "2024-03") && Le("2024-01", "2024-02")
    ensures !Le("2024-03", "2024-02") && !Le("2024-02", "2024-01")
  {
  }

  lemma WeeksOfThree(data: seq<OttData>, r: seq<string>)
    requires |data| == 3
    requires data[0].week == "2024-01" && data[1].week == "2024-03" && data[2].week == "2024-02"
    requires forall w :: w in r <==> exists k :: 0 <= k < |data| && data[k].week == w
    ensures forall w :: w in r <==> w == "2024-03" || w == "2024-02" || w == "2024-01"
  {
    forall w ensures w in r <==> w == "2024-03" || w == "2024-02" || w == "2024-01" {
      if w in r {
        var k :| 0 <= k < |data| && data[k].week == w;
        assert k == 0 || k == 1 || k == 2;
      }
      if w == "2024-01" {
        assert data[0].week == w;
      } else if w == "2024-03" {
        assert data[1].week == w;
      } else if w == "2024-02" {
        assert data[2].week == w;
      }
    }
  }

  /** The only strictly descending, repeat-free arrangement of a > b > c. */
  lemma DescendingThree(r: seq<string>, a: string, b: string, c: string)
    requires Le(c, b) && Le(b, a) && !Le(a, b) && !Le(b, c)
    requires forall w :: w in r <==> w == a || w == b || w == c
    requires forall i, j :: 0 <= i < j < |r| ==> Le(r[j], r[i]) && r[i] != r[j]
    ensures r == [a, b, c]
  {
    if Le(a, c) {
      LeTransitive(a, c, b);
    }
    assert a in r && b in r && c in r;
    var ia :| 0 <= ia < |r| && r[ia] == a;
    var ib :| 0 <= ib < |r| && r[ib] == b;
    var ic :| 0 <= ic < |r| && r[ic] == c;
    assert ia < ib < ic;
    EveryIndexNamed(r, a, b, c, ia, ib, ic);
  }

  /** In a repeat-free r over {a, b, c}, the positions of a, b and c are all
      the positions there are. */
  lemma EveryIndexNamed(r: seq<string>, a: string, b: string, c: string, ia: int, ib: int, ic: int)
    requires forall w :: w in r <==> w == a || w == b || w == c
    requires forall i, j :: 0 <= i < j < |r| ==> r[i] != r[j]
    requires 0 <= ia < ib < ic < |r| && r[ia] == a && r[ib] == b && r[ic] == c
    ensures r == [a, b, c]
  {
    forall k | 0 <= k < |r| ensures (r[k] == a && k == ia) || (r[k] == b && k == ib) || (r[k] == c && k == ic) {
      assert r[k] in r;
    }
    var first, second, third, last := r[0], r[1], r[2], r[|r| - 1];
    assert ia == 0 && ib == 1 && ic == 2 && |r| == 3;
  }
}
