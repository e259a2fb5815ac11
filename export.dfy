/** The text that exportToCSV (src/lib/data.ts:139-155) builds before it hands
    it to the browser: a header line of eight Korean labels, one line per
    ranking, every line's fields joined by ',', the lines joined by '\n',
    and a byte order mark in front. */
module Export {
  import opened Records
  import opened Strings

  /** U+FEFF, the byte order mark that spreadsheet tools read as "UTF-8". */
  const Bom: string := "\U{FEFF}"

  /** The column labels: position, title, score, main platform, genre,
      total views, platform count, platforms. */
  const Headers: seq<string> := ["통합순위", "제목", "점수", "대표플랫폼", "장르", "총조회수", "등장플랫폼수", "등장플랫폼"]

  const HeaderLine: string := Join(Headers, ",")

  /** The eight fields of the ranking at 0-based index, in header order.
      Numbers are written as Number.prototype.toString writes integers; the
      total views go through formatViews, which stands for toLocaleString. */
  function Fields(index: nat, item: IntegratedRanking, formatViews: int -> string): (fields: seq<string>)
    ensures |fields| == |Headers|
  {
    [IntToString(index + 1), item.title, IntToString(item.score), item.mainPlatform, item.genre,
     formatViews(item.totalViews), IntToString(item.platformCount), Join(item.platforms, ";")]
  }

  function Row(index: nat, item: IntegratedRanking, formatViews: int -> string): string
  {
    Join(Fields(index, item, formatViews), ",")
  }

  function Lines(rankings: seq<IntegratedRanking>, formatViews: int -> string): seq<string>
  {
    [HeaderLine] + seq(|rankings|, k requires 0 <= k < |rankings| => Row(k, rankings[k], formatViews))
  }

  /** csvContent: the lines joined by line breaks. */
  function CsvContent(rankings: seq<IntegratedRanking>, formatViews: int -> string): string
  {
    Join(Lines(rankings, formatViews), "\n")
  }

  /** The text of the Blob: the byte order mark, then csvContent. When no
      field holds a line break, what follows the mark reads back, line by
      line, as the header and then the row of every ranking in order. */
  function ExportText(rankings: seq<IntegratedRanking>, formatViews: int -> string): (text: string)
    ensures |Bom| <= |text| && text[..|Bom|] == Bom
    ensures text[|Bom|..] == CsvContent(rankings, formatViews)
    ensures (forall k :: 0 <= k < |rankings| ==> TextFieldsAvoid(rankings[k], formatViews, '\n')) ==>
      var lines := Split(text[|Bom|..], '\n');
      && |lines| == 1 + |rankings|
      && lines[0] == HeaderLine
      && (forall k :: 0 <= k < |rankings| ==> lines[k + 1] == Row(k, rankings[k], formatViews))
  {
    ExportLines(rankings, formatViews);
    var text := Bom + CsvContent(rankings, formatViews);
    assert text[|Bom|..] == CsvContent(rankings, formatViews);
    text
  }

  /** No field of the entry contains c (the generated numbers never do). */
  predicate TextFieldsAvoid(item: IntegratedRanking, formatViews: int -> string, c: char)
  {
    && c !in item.title && c !in item.mainPlatform && c !in item.genre
    && c !in formatViews(item.totalViews)
    && (forall k :: 0 <= k < |item.platforms| ==> c !in item.platforms[k])
  }

  /** An empty ranking exports the header line alone. */
  lemma ExportEmpty(formatViews: int -> string)
    ensures ExportText([], formatViews) == Bom + HeaderLine
  {
    assert Lines([], formatViews) == [HeaderLine];
  }

  /** The header line splits back into the eight labels. */
  lemma HeaderColumns()
    ensures Split(HeaderLine, ',') == Headers
  {
    SplitJoin(Headers, ',');
  }

  /** A row begins with the 1-based position and a comma. */
  lemma RowStartsWithPosition(index: nat, item: IntegratedRanking, formatViews: int -> string)
    ensures var head := IntToString(index + 1) + ","; var r := Row(index, item, formatViews);
      |head| <= |r| && r[..|head|] == head
  {
    JoinStartsWithFirst(Fields(index, item, formatViews), ",");
  }

  /** A row ends with a comma and the platforms joined by ';'. */
  lemma RowEndsWithPlatforms(index: nat, item: IntegratedRanking, formatViews: int -> string)
    ensures var tail := "," + Join(item.platforms, ";"); var r := Row(index, item, formatViews);
      |tail| <= |r| && r[|r| - |tail|..] == tail
  {
    JoinEndsWithLast(Fields(index, item, formatViews), ",");
  }

  /** A row of fields without commas splits back into its eight fields: the
      first reads back as the position, the last splits back into the
      platforms when there is at least one platform and none contains ';'. */
  lemma RowColumns(index: nat, item: IntegratedRanking, formatViews: int -> string)
    requires TextFieldsAvoid(item, formatViews, ',')
    ensures var columns := Split(Row(index, item, formatViews), ',');
      && columns == Fields(index, item, formatViews)
      && (forall k :: 0 <= k < |columns[0]| ==> IsDigit(columns[0][k]))
      && ParseNat(columns[0]) == index + 1
      && (item.platforms != [] && (forall k :: 0 <= k < |item.platforms| ==> ';' !in item.platforms[k])
          ==> Split(columns[7], ';') == item.platforms)
  {
    var fields := Fields(index, item, formatViews);
    NoCommaInNumbers(index, item);
    JoinHasNo(item.platforms, ";", ',');
    SplitJoin(fields, ',');
    ParseNatToString(index + 1);
    if item.platforms != [] && (forall k :: 0 <= k < |item.platforms| ==> ';' !in item.platforms[k]) {
      SplitJoin(item.platforms, ';');
    }
  }

  /** Fields are not quoted: formatted views that hold grouping commas, as
      toLocaleString writes 1234567 in the ko-KR locale ("1,234,567"), spill
      into one column per digit group, and push the platform count and the
      platforms |groups| - 1 columns to the right of their labels. */
  lemma GroupedViewsSpill(index: nat, item: IntegratedRanking, formatViews: int -> string, groups: seq<string>)
    requires |groups| > 0 && formatViews(item.totalViews) == Join(groups, ",")
    requires forall k :: 0 <= k < |groups| ==> ',' !in groups[k]
    requires ',' !in item.title && ',' !in item.mainPlatform && ',' !in item.genre
    requires forall k :: 0 <= k < |item.platforms| ==> ',' !in item.platforms[k]
    ensures var columns := Split(Row(index, item, formatViews), ',');
      && |columns| == |Headers| - 1 + |groups|
      && columns[5..5 + |groups|] == groups
      && columns[5 + |groups|] == IntToString(item.platformCount)
      && columns[6 + |groups|] == Join(item.platforms, ";")
  {
    var xs, ys := Leading(index, item), Trailing(item);
    FieldsAroundViews(index, item, formatViews);
    JoinFlatten(xs, groups, ys, ",");
    OuterFieldsAvoidComma(index, item);
    PartsAvoid(xs, groups, ys, ',');
    SplitJoin(xs + groups + ys, ',');
    assert (xs + groups + ys)[5..5 + |groups|] == groups;
  }

  /** The five fields in front of the views. */
  function Leading(index: nat, item: IntegratedRanking): seq<string>
  {
    [IntToString(index + 1), item.title, IntToString(item.score), item.mainPlatform, item.genre]
  }

  /** The two fields behind the views. */
  function Trailing(item: IntegratedRanking): seq<string>
  {
    [IntToString(item.platformCount), Join(item.platforms, ";")]
  }

  lemma FieldsAroundViews(index: nat, item: IntegratedRanking, formatViews: int -> string)
    ensures Fields(index, item, formatViews) == Leading(index, item) + [formatViews(item.totalViews)] + Trailing(item)
  {
  }

  lemma OuterFieldsAvoidComma(index: nat, item: IntegratedRanking)
    requires ',' !in item.title && ',' !in item.mainPlatform && ',' !in item.genre
    requires forall k :: 0 <= k < |item.platforms| ==> ',' !in item.platforms[k]
    ensures var xs := Leading(index, item); forall k :: 0 <= k < |xs| ==> ',' !in xs[k]
    ensures var ys := Trailing(item); forall k :: 0 <= k < |ys| ==> ',' !in ys[k]
  {
    NoCommaInNumbers(index, item);
    JoinHasNo(item.platforms, ";", ',');
  }

  /** Three lists of parts, none of which holds c, concatenated. */
  lemma PartsAvoid(xs: seq<string>, g: seq<string>, ys: seq<string>, c: char)
    requires forall k :: 0 <= k < |xs| ==> c !in xs[k]
    requires forall k :: 0 <= k < |g| ==> c !in g[k]
    requires forall k :: 0 <= k < |ys| ==> c !in ys[k]
    ensures var all := xs + g + ys; forall k :: 0 <= k < |all| ==> c !in all[k]
  {
    var all := xs + g + ys;
    forall k | 0 <= k < |all| ensures c !in all[k] {
      if k < |xs| {
        assert all[k] == xs[k];
      } else if k < |xs| + |g| {
        assert all[k] == g[k - |xs|];
      } else {
        assert all[k] == ys[k - |xs| - |g|];
      }
    }
  }

  lemma NoCommaInNumbers(index: nat, item: IntegratedRanking)
    ensures ',' !in IntToString(index + 1) && ',' !in IntToString(item.score)
    ensures ',' !in IntToString(item.platformCount)
  {
    IntToStringHasNo(index + 1, ',');
    IntToStringHasNo(item.score, ',');
    IntToStringHasNo(item.platformCount, ',');
  }

  /** When no field holds a line break, the text splits into the header
      line and then one line per ranking, in order: 1 + |rankings| lines. */
  lemma ExportLines(rankings: seq<IntegratedRanking>, formatViews: int -> string)
    ensures (forall k :: 0 <= k < |rankings| ==> TextFieldsAvoid(rankings[k], formatViews, '\n')) ==>
      var lines := Split(CsvContent(rankings, formatViews), '\n');
      && |lines| == 1 + |rankings|
      && lines[0] == HeaderLine
      && (forall k :: 0 <= k < |rankings| ==> lines[k + 1] == Row(k, rankings[k], formatViews))
  {
    if forall k :: 0 <= k < |rankings| ==> TextFieldsAvoid(rankings[k], formatViews, '\n') {
      LinesAvoidBreaks(rankings, formatViews);
      SplitJoin(Lines(rankings, formatViews), '\n');
    }
  }

  lemma LinesAvoidBreaks(rankings: seq<IntegratedRanking>, formatViews: int -> string)
    requires forall k :: 0 <= k < |rankings| ==> TextFieldsAvoid(rankings[k], formatViews, '\n')
    ensures var lines := Lines(rankings, formatViews);
      forall k :: 0 <= k < |lines| ==> '\n' !in lines[k]
  {
    var lines := Lines(rankings, formatViews);
    forall k | 0 <= k < |lines| ensures '\n' !in lines[k] {
      if k == 0 {
        HeaderHasNoBreak();
      } else {
        RowAvoids(k - 1, rankings[k - 1], formatViews, '\n');
      }
    }
  }

  lemma HeaderHasNoBreak()
    ensures '\n' !in HeaderLine
  {
    forall k | 0 <= k < |Headers| ensures '\n' !in Headers[k] {
    }
    JoinHasNo(Headers, ",", '\n');
  }

  /** A row holds a separator character only if one of its text fields does. */
  lemma RowAvoids(index: nat, item: IntegratedRanking, formatViews: int -> string, c: char)
    requires !IsDigit(c) && c != '-' && c != ',' && c != ';'
    requires TextFieldsAvoid(item, formatViews, c)
    ensures c !in Row(index, item, formatViews)
  {
    IntToStringHasNo(index + 1, c);
    IntToStringHasNo(item.score, c);
    IntToStringHasNo(item.platformCount, c);
    JoinHasNo(item.platforms, ";", c);
    JoinHasNo(Fields(index, item, formatViews), ",", c);
  }
}
