/**
 * The scraper's data types and its pure pieces: the coin-type filter
 * `StringListContains` and the loop of `GetUserTicket` that turns the rows of
 * the user ticker table into price records. A table row is abstracted as the
 * sequence of its cell texts; the HTTP request and the HTML parse are an
 * outcome handed in from outside (`Page`).
 */
module Feixiaohao {

  import opened GoStrings

  /** What the user watches: coin types, percent thresholds, the amplitude and the re-notify period in seconds. */
  datatype CoinFilter = CoinFilter(coinType: seq<string>, high: real, low: real, amplitude: real, timePeriod: int)

  /** One scraped observation; every field is text as shown on the page. */
  datatype CoinPriceMeta = CoinPriceMeta(platform: string, price: string, percent: string, coinType: string)

  /** The texts of the `td` cells of one table row, column 0 first. */
  type Row = seq<string>

  /** Outcome of fetching and parsing the ticker page: an error, or the rows of its table body. */
  datatype Page = RequestFailed | Rows(rows: seq<Row>)

  /** The filter's verdict, entry by entry: the first entry occurs in `text`, or a later one does. */
  predicate Watched(coinTypes: seq<string>, text: string)
    ensures Watched(coinTypes, text) ==> exists i :: 0 <= i < |coinTypes| && Contains(text, coinTypes[i])
    decreases |coinTypes|
  {
    |coinTypes| > 0 && (Contains(text, coinTypes[0]) || Watched(coinTypes[1..], text))
  }

  /** The verdict holds exactly when some entry of the list is a substring of the text. */
  lemma {:induction false} WatchedIff(coinTypes: seq<string>, text: string)
    ensures Watched(coinTypes, text) <==> exists i :: 0 <= i < |coinTypes| && Contains(text, coinTypes[i])
    decreases |coinTypes|
  {
    if |coinTypes| > 0 {
      var rest := coinTypes[1..];
      WatchedIff(rest, text);
      assert forall i :: 0 <= i < |rest| ==> rest[i] == coinTypes[i + 1];
      if !Contains(text, coinTypes[0]) && exists i :: 0 <= i < |coinTypes| && Contains(text, coinTypes[i]) {
        var i :| 0 <= i < |coinTypes| && Contains(text, coinTypes[i]);
        assert rest[i - 1] == coinTypes[i];
      }
    }
  }

  /** True exactly when some entry of `list` (the source's `array`) is a substring of `element`; the first hit ends the scan. */
  method StringListContains(list: seq<string>, element: string) returns (found: bool)
    ensures found <==> exists i :: 0 <= i < |list| && Contains(element, list[i])
    ensures found == Watched(list, element)
  {
    WatchedIff(list, element);
    for i := 0 to |list|
      invariant forall j :: 0 <= j < i ==> !Contains(element, list[j])
    {
      if Contains(element, list[i]) {
        return true;
      }
    }
    return false;
  }

  /** The text of cell `i`; goquery yields an empty text for a cell the row does not have. */
  function Cell(row: Row, i: nat): string {
    if i < |row| then row[i] else ""
  }

  /** The columns the scraper reads, in the order it reads them. */
  const Columns: seq<nat> := [1, 2, 3, 6]

  /** The record a row maps to: the trimmed texts of cells 1, 2, 3 and 6. */
  function RowMeta(row: Row): (m: CoinPriceMeta)
    ensures Bare(Whitespace, m.coinType) && Bare(Whitespace, m.platform)
    ensures Bare(Whitespace, m.price) && Bare(Whitespace, m.percent)
  {
    CoinPriceMeta(
      platform := TrimSpace(Cell(row, 2)),
      price := TrimSpace(Cell(row, 3)),
      percent := TrimSpace(Cell(row, 6)),
      coinType := TrimSpace(Cell(row, 1)))
  }

  /** A row is kept when its untrimmed column-1 text passes the filter. */
  predicate Kept(coinTypes: seq<string>, row: Row) {
    Watched(coinTypes, Cell(row, 1))
  }

  /** The records of the kept rows, in row order. */
  function Selected(rows: seq<Row>, coinTypes: seq<string>): (r: seq<CoinPriceMeta>)
    ensures |r| <= |rows|
    decreases |rows|
  {
    if rows == [] then []
    else
      var last := rows[|rows| - 1];
      Selected(rows[..|rows| - 1], coinTypes) + (if Kept(coinTypes, last) then [RowMeta(last)] else [])
  }

  /** What `GetUserTicket` returns for a page: nothing on an error, otherwise the selected records. */
  function Ticket(page: Page, coinTypes: seq<string>): (r: seq<CoinPriceMeta>)
    ensures page.RequestFailed? ==> r == []
    ensures page.Rows? ==> |r| <= |page.rows|
  {
    match page
    case RequestFailed => []
    case Rows(rows) => Selected(rows, coinTypes)
  }

  /** Builds one record field by field, visiting the columns 1, 2, 3, 6. */
  method FillMeta(row: Row) returns (meta: CoinPriceMeta)
    ensures meta == RowMeta(row)
  {
    meta := CoinPriceMeta("", "", "", "");
    for j := 0 to |Columns|
      invariant j > 0 ==> meta.coinType == TrimSpace(Cell(row, 1))
      invariant j > 1 ==> meta.platform == TrimSpace(Cell(row, 2))
      invariant j > 2 ==> meta.price == TrimSpace(Cell(row, 3))
      invariant j > 3 ==> meta.percent == TrimSpace(Cell(row, 6))
    {
      var value := Columns[j];
      var text := TrimSpace(Cell(row, value));
      if value == 1 {
        meta := meta.(coinType := text);
      } else if value == 2 {
        meta := meta.(platform := text);
      } else if value == 3 {
        meta := meta.(price := text);
      } else if value == 6 {
        meta := meta.(percent := text);
      }
    }
  }

  /**
   * The row loop of `GetUserTicket`: a failed request gives no records and an
   * error; otherwise one record per kept row, appended in row order.
   */
  method GetUserTicket(page: Page, filter: CoinFilter) returns (metas: seq<CoinPriceMeta>, failed: bool)
    ensures failed == page.RequestFailed?
    ensures metas == Ticket(page, filter.coinType)
  {
    if page.RequestFailed? {
      return [], true;
    }
    var rows := page.rows;
    metas, failed := [], false;
    for i := 0 to |rows|
      invariant metas == Selected(rows[..i], filter.coinType)
    {
      var keep := StringListContains(filter.coinType, Cell(rows[i], 1));
      if keep {
        var newNode := FillMeta(rows[i]);
        metas := metas + [newNode];
      }
      SelectedStep(rows, filter.coinType, i);
    }
    assert rows[..|rows|] == rows;
  }

  /** Extending the processed prefix by one row appends that row's record if it is kept. */
  lemma SelectedStep(rows: seq<Row>, coinTypes: seq<string>, i: int)
    requires 0 <= i < |rows|
    ensures Selected(rows[..i + 1], coinTypes)
         == Selected(rows[..i], coinTypes) + (if Kept(coinTypes, rows[i]) then [RowMeta(rows[i])] else [])
  {
    var p := rows[..i + 1];
    assert p[..|p| - 1] == rows[..i];
    assert p[|p| - 1] == rows[i];
  }

  // Properties of the filter

  /** An empty watch list accepts nothing. */
  lemma EmptyListWatchesNothing(element: string)
    ensures !Watched([], element)
  {
  }

  /** An empty entry in the watch list accepts every text. */
  lemma EmptyEntryWatchesAll(list: seq<string>, element: string)
    requires "" in list
    ensures Watched(list, element)
  {
    var i :| 0 <= i < |list| && list[i] == "";
    ContainsEmpty(element);
    WatchedIff(list, element);
  }

  /** Matching is containment: an entry accepts every text it occurs in, not only itself. */
  lemma WatchedByContainment(list: seq<string>, entry: string, before: string, after: string)
    requires entry in list
    ensures Watched(list, before + entry + after)
  {
    var i :| 0 <= i < |list| && list[i] == entry;
    ContainsInfix(before, entry, after);
    WatchedIff(list, before + entry + after);
  }

  // Properties of row selection

  /** Selection distributes over concatenation of row lists, so the order of rows is kept. */
  lemma {:induction false} SelectedAppend(a: seq<Row>, b: seq<Row>, coinTypes: seq<string>)
    ensures Selected(a + b, coinTypes) == Selected(a, coinTypes) + Selected(b, coinTypes)
    decreases |b|
  {
    if b == [] {
      assert a + b == a;
    } else {
      var b' := b[..|b| - 1];
      assert (a + b)[..|a + b| - 1] == a + b';
      assert (a + b)[|a + b| - 1] == b[|b| - 1];
      SelectedAppend(a, b', coinTypes);
    }
  }

  /** Every record comes from a kept row, mapped field by field. */
  lemma {:induction false} SelectedSound(rows: seq<Row>, coinTypes: seq<string>, m: CoinPriceMeta)
    requires m in Selected(rows, coinTypes)
    ensures exists i :: 0 <= i < |rows| && Kept(coinTypes, rows[i]) && m == RowMeta(rows[i])
    decreases |rows|
  {
    var init := rows[..|rows| - 1];
    var last := rows[|rows| - 1];
    var tail := if Kept(coinTypes, last) then [RowMeta(last)] else [];
    assert Selected(rows, coinTypes) == Selected(init, coinTypes) + tail;
    if m in Selected(init, coinTypes) {
      SelectedSound(init, coinTypes, m);
      var i :| 0 <= i < |init| && Kept(coinTypes, init[i]) && m == RowMeta(init[i]);
      assert rows[i] == init[i];
    } else {
      assert m in tail;
    }
  }

  /** Every kept row contributes its record. */
  lemma {:induction false} SelectedComplete(rows: seq<Row>, coinTypes: seq<string>, i: int)
    requires 0 <= i < |rows| && Kept(coinTypes, rows[i])
    ensures RowMeta(rows[i]) in Selected(rows, coinTypes)
    decreases |rows|
  {
    var init := rows[..|rows| - 1];
    if i < |rows| - 1 {
      assert rows[i] == init[i];
      SelectedComplete(init, coinTypes, i);
    }
  }

  /** There is one record per kept row, so never more records than rows. */
  lemma {:induction false} SelectedLength(rows: seq<Row>, coinTypes: seq<string>)
    ensures |Selected(rows, coinTypes)| <= |rows|
    ensures (forall i :: 0 <= i < |rows| ==> Kept(coinTypes, rows[i])) ==> |Selected(rows, coinTypes)| == |rows|
    ensures (forall i :: 0 <= i < |rows| ==> !Kept(coinTypes, rows[i])) ==> Selected(rows, coinTypes) == []
    decreases |rows|
  {
    if rows != [] {
      var init := rows[..|rows| - 1];
      assert forall i :: 0 <= i < |init| ==> init[i] == rows[i];
      SelectedLength(init, coinTypes);
    }
  }

  /** Each text field of a record is its cell text with surrounding white space removed. */
  lemma RowMetaTrimmed(row: Row, i: nat, pre: string, core: string, post: string)
    requires Cell(row, i) == pre + core + post
    requires AllCut(Whitespace, pre) && AllCut(Whitespace, post) && Bare(Whitespace, core)
    ensures i == 1 ==> RowMeta(row).coinType == core
    ensures i == 2 ==> RowMeta(row).platform == core
    ensures i == 3 ==> RowMeta(row).price == core
    ensures i == 6 ==> RowMeta(row).percent == core
  {
    TrimFuncUnique(pre, core, post, Whitespace);
  }

  /**
   * The filter sees the untrimmed cell text while the record stores the
   * trimmed one: a row whose coin cell reads " BTC " is kept by the entry
   * " BTC", yet the stored coin type "BTC" no longer contains that entry.
   */
  lemma UntrimmedMembership(row: Row)
    requires row == ["1", " BTC "]
    ensures Kept([" BTC"], row)
    ensures RowMeta(row).coinType == "BTC"
    ensures !Watched([" BTC"], RowMeta(row).coinType)
  {
    PaddedCellKept(row);
    PaddedCellTrimmed(row);
    ShorterNotWatched([" BTC"], "BTC");
  }

  lemma PaddedCellKept(row: Row)
    requires row == ["1", " BTC "]
    ensures Kept([" BTC"], row)
  {
    assert Cell(row, 1) == " BTC ";
    assert OccursAt(" BTC ", " BTC", 0);
  }

  lemma PaddedCellTrimmed(row: Row)
    requires row == ["1", " BTC "]
    ensures RowMeta(row).coinType == "BTC"
  {
    assert Cell(row, 1) == " " + "BTC" + " ";
    RowMetaTrimmed(row, 1, " ", "BTC", " ");
  }

  /** Entries longer than the text cannot match it. */
  lemma ShorterNotWatched(list: seq<string>, text: string)
    requires forall i :: 0 <= i < |list| ==> |list[i]| > |text|
    ensures !Watched(list, text)
  {
    forall i | 0 <= i < |list|
      ensures !Contains(text, list[i])
    {
      LongerNotContained(text, list[i]);
    }
    WatchedIff(list, text);
  }

}
