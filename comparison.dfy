/**
 * The comparison callback `make_comparison`: select the rows of the two
 * chosen countries in the chosen years from `merged_data`, melt the chosen
 * metric columns into a long table and declare a grouped bar chart (one
 * year) or a faceted line chart (two years); nothing selected gives the
 * empty figure.
 */
module Comparison {
  import opened Wrappers
  import opened Dataset
  import opened Figures

  // ---------------------------------------------------------------- filtering

  /** One cell of `merged_data["Country or region"] == choice`: a cleared dropdown (None) matches nothing. */
  predicate Chosen(country: string, choice: Option<string>) {
    choice.Some? && choice.value == country
  }

  /** Boolean-mask selection `df[mask]`: the rows `keep` accepts, in table order. */
  function Where(rows: seq<Record>, keep: Record -> bool): (r: seq<Record>)
    ensures |r| <= |rows|
    ensures forall x :: x in r ==> x in rows && keep(x)
  {
    if rows == [] then []
    else (if keep(rows[0]) then [rows[0]] else []) + Where(rows[1..], keep)
  }

  lemma {:induction false} WhereComplete(rows: seq<Record>, keep: Record -> bool, x: Record)
    requires x in rows && keep(x)
    ensures x in Where(rows, keep)
  {
    if rows[0] != x {
      WhereComplete(rows[1..], keep, x);
    }
  }

  /** Selection keeps every qualifying row as often as the table has it, and no other. */
  lemma {:induction false} WhereCounts(rows: seq<Record>, keep: Record -> bool, x: Record)
    ensures multiset(Where(rows, keep))[x] == if keep(x) then multiset(rows)[x] else 0
  {
    if rows != [] {
      WhereCounts(rows[1..], keep, x);
      assert rows == [rows[0]] + rows[1..];
    }
  }

  /** Selection keeps table order: it works piecewise on a concatenation. */
  lemma {:induction false} WhereAppend(a: seq<Record>, b: seq<Record>, keep: Record -> bool)
    ensures Where(a + b, keep) == Where(a, keep) + Where(b, keep)
  {
    if a == [] {
      assert a + b == b;
    } else {
      assert (a + b)[1..] == a[1..] + b;
      WhereAppend(a[1..], b, keep);
    }
  }

  /** Two masks that agree on every row select the same rows. */
  lemma {:induction false} WhereAgrees(rows: seq<Record>, p: Record -> bool, q: Record -> bool)
    requires forall x :: x in rows ==> p(x) == q(x)
    ensures Where(rows, p) == Where(rows, q)
  {
    if rows != [] {
      WhereAgrees(rows[1..], p, q);
    }
  }

  lemma WhereNothing(rows: seq<Record>, keep: Record -> bool)
    requires forall x :: x in rows ==> !keep(x)
    ensures Where(rows, keep) == []
  {
    var r := Where(rows, keep);
    assert forall i :: 0 <= i < |r| ==> r[i] in r;
  }

  lemma {:induction false} WhereKeepsOneRecordPerCountry(rows: seq<Record>, keep: Record -> bool)
    requires OneRecordPerCountry(rows)
    ensures OneRecordPerCountry(Where(rows, keep))
  {
    if rows != [] {
      var t := rows[1..];
      WhereKeepsOneRecordPerCountry(t, keep);
      var w := Where(t, keep);
      forall k | 0 <= k < |w| ensures w[k].country != rows[0].country {
        assert w[k] in w;
        var j :| 0 <= j < |t| && t[j] == w[k];
        assert rows[j + 1] == w[k];
      }
    }
  }

  /**
   * In a table with one record per country, a mask that accepts exactly the
   * records of two distinct countries selects one record for each of them
   * that the table has.
   */
  lemma {:induction false} WhereTwoCountries(rows: seq<Record>, keep: Record -> bool, a: string, b: string)
    requires OneRecordPerCountry(rows)
    requires forall x :: x in rows ==> (keep(x) <==> x.country == a || x.country == b)
    requires a != b
    ensures |Where(rows, keep)| ==
      (if HasCountry(rows, a) then 1 else 0) + (if HasCountry(rows, b) then 1 else 0)
  {
    if rows != [] {
      var h, t := rows[0], rows[1..];
      assert rows == [h] + t;
      assert OneRecordPerCountry(t);
      WhereTwoCountries(t, keep, a, b);
      forall c ensures HasCountry(rows, c) <==> h.country == c || HasCountry(t, c) {
        if HasCountry(rows, c) {
          var x :| x in rows && x.country == c;
          assert x == h || x in t;
        }
        if h.country == c {
          assert h in rows;
        }
      }
    }
  }

  /** Of such a table that has both countries, the mask selects exactly one record of each. */
  lemma WhereBothCountries(rows: seq<Record>, keep: Record -> bool, a: string, b: string)
    requires OneRecordPerCountry(rows)
    requires forall x :: x in rows ==> (keep(x) <==> x.country == a || x.country == b)
    requires a != b && HasCountry(rows, a) && HasCountry(rows, b)
    ensures var w := Where(rows, keep);
      |w| == 2 && w[0] in rows && w[1] in rows && {w[0].country, w[1].country} == {a, b}
  {
    WhereTwoCountries(rows, keep, a, b);
    WhereKeepsOneRecordPerCountry(rows, keep);
    var w := Where(rows, keep);
    assert w[0] in w && w[1] in w;
  }

  /** The selection of `merged_data` (projekt_1_dash.py:164-166): year first, then the two countries. */
  predicate YearsThenCountries(x: Record, years: seq<string>, c1: Option<string>, c2: Option<string>) {
    x.year in years && (Chosen(x.country, c1) || Chosen(x.country, c2))
  }

  /** The selection of projekt_1_dash.py:194-196: the same conjunction with its operands swapped. */
  predicate CountriesThenYears(x: Record, years: seq<string>, c1: Option<string>, c2: Option<string>) {
    (Chosen(x.country, c1) || Chosen(x.country, c2)) && x.year in years
  }

  /** The boolean mask of projekt_1_dash.py:164-166. */
  function FilterMask(years: seq<string>, c1: Option<string>, c2: Option<string>): Record -> bool {
    x => YearsThenCountries(x, years, c1, c2)
  }

  /** The boolean mask of projekt_1_dash.py:194-196. */
  function RefilterMask(years: seq<string>, c1: Option<string>, c2: Option<string>): Record -> bool {
    x => CountriesThenYears(x, years, c1, c2)
  }

  function FilterComparison(d: Tables, years: seq<string>, c1: Option<string>, c2: Option<string>): seq<Record> {
    Where(d.Merged(), FilterMask(years, c1, c2))
  }

  function RefilterComparison(d: Tables, years: seq<string>, c1: Option<string>, c2: Option<string>): seq<Record> {
    Where(d.Merged(), RefilterMask(years, c1, c2))
  }

  /** The selected rows are exactly the rows of `merged_data` in a chosen year and of a chosen country. */
  lemma FilterComparisonExact(d: Tables, years: seq<string>, c1: Option<string>, c2: Option<string>)
    ensures forall x :: x in FilterComparison(d, years, c1, c2) <==>
      x in d.Merged() && x.year in years && (Chosen(x.country, c1) || Chosen(x.country, c2))
  {
    forall x | x in d.Merged() && x.year in years && (Chosen(x.country, c1) || Chosen(x.country, c2))
      ensures x in FilterComparison(d, years, c1, c2)
    {
      WhereComplete(d.Merged(), FilterMask(years, c1, c2), x);
    }
  }

  /** Selection order is `merged_data` order: the chosen 2018 rows come before the chosen 2019 rows. */
  lemma FilterComparisonByYear(d: Tables, years: seq<string>, c1: Option<string>, c2: Option<string>)
    ensures FilterComparison(d, years, c1, c2) ==
      Where(d.Glueck18(), FilterMask(years, c1, c2)) +
      Where(d.Glueck19(), FilterMask(years, c1, c2))
  {
    WhereAppend(d.Glueck18(), d.Glueck19(), FilterMask(years, c1, c2));
  }

  /** The refilter of the two-year branch selects the same rows as the first filter. */
  lemma RefilterAgrees(d: Tables, years: seq<string>, c1: Option<string>, c2: Option<string>)
    ensures RefilterComparison(d, years, c1, c2) == FilterComparison(d, years, c1, c2)
  {
    WhereAgrees(d.Merged(), RefilterMask(years, c1, c2), FilterMask(years, c1, c2));
  }

  /** Choosing one country twice selects that country's rows, once each. */
  lemma SameCountryTwice(d: Tables, years: seq<string>, c: string)
    ensures FilterComparison(d, years, Some(c), Some(c)) ==
      Where(d.Merged(), (x: Record) => x.year in years && x.country == c)
  {
    WhereAgrees(d.Merged(), FilterMask(years, Some(c), Some(c)),
                (x: Record) => x.year in years && x.country == c);
  }

  // ---------------------------------------------------------------- melting

  /** The long row that cell (`x`, `k`) becomes; `keepYear`: `Year` is an id column. */
  function LongRowOf(x: Record, k: Category, keepYear: bool): LongRow {
    LongRow(x.country, if keepYear then Some(x.year) else None, k, x.metrics.Get(k))
  }

  function MeltColumn(rows: seq<Record>, k: Category, keepYear: bool): (r: seq<LongRow>)
    ensures |r| == |rows|
    ensures forall i :: 0 <= i < |rows| ==> r[i] == LongRowOf(rows[i], k, keepYear)
  {
    seq(|rows|, i requires 0 <= i < |rows| => LongRowOf(rows[i], k, keepYear))
  }

  /** pandas `melt` over the value columns `categories`: one block per category, in order. */
  function Melt(rows: seq<Record>, categories: seq<Category>, keepYear: bool): seq<LongRow>
    decreases |categories|
  {
    if categories == [] then []
    else MeltColumn(rows, categories[0], keepYear) + Melt(rows, categories[1..], keepYear)
  }

  lemma {:induction false} MeltLength(rows: seq<Record>, categories: seq<Category>, keepYear: bool)
    ensures |Melt(rows, categories, keepYear)| == |rows| * |categories|
  {
    if categories != [] {
      MeltLength(rows, categories[1..], keepYear);
      assert |rows| * |categories| == |rows| + |rows| * (|categories| - 1);
    }
  }

  /** Category-major order: row `i` of block `j` is cell (`rows[i]`, `categories[j]`). */
  lemma {:induction false} MeltAt(rows: seq<Record>, categories: seq<Category>, keepYear: bool, j: nat, i: nat)
    requires j < |categories| && i < |rows|
    ensures j * |rows| + i < |Melt(rows, categories, keepYear)|
    ensures Melt(rows, categories, keepYear)[j * |rows| + i] == LongRowOf(rows[i], categories[j], keepYear)
  {
    MeltLength(rows, categories, keepYear);
    if j > 0 {
      MeltAt(rows, categories[1..], keepYear, j - 1, i);
      assert j * |rows| + i == |rows| + ((j - 1) * |rows| + i);
    }
  }

  lemma {:induction false} MeltSound(rows: seq<Record>, categories: seq<Category>, keepYear: bool, r: LongRow)
    requires r in Melt(rows, categories, keepYear)
    ensures exists x, k :: x in rows && k in categories && r == LongRowOf(x, k, keepYear)
  {
    var head := MeltColumn(rows, categories[0], keepYear);
    if r in head {
      var i :| 0 <= i < |head| && head[i] == r;
      assert rows[i] in rows && categories[0] in categories;
    } else {
      MeltSound(rows, categories[1..], keepYear, r);
      var x, k :| x in rows && k in categories[1..] && r == LongRowOf(x, k, keepYear);
      assert k in categories;
    }
  }

  lemma {:induction false} MeltComplete(rows: seq<Record>, categories: seq<Category>, keepYear: bool,
                                        x: Record, k: Category)
    requires x in rows && k in categories
    ensures LongRowOf(x, k, keepYear) in Melt(rows, categories, keepYear)
  {
    if k == categories[0] {
      var i :| 0 <= i < |rows| && rows[i] == x;
      assert MeltColumn(rows, k, keepYear)[i] == LongRowOf(x, k, keepYear);
    } else {
      MeltComplete(rows, categories[1..], keepYear, x, k);
    }
  }

  /** Melting two rows: each category block is the two rows' cells, in row order. */
  lemma MeltTwoRows(w: seq<Record>, categories: seq<Category>, keepYear: bool)
    requires |w| == 2
    ensures var data := Melt(w, categories, keepYear);
      && |data| == 2 * |categories|
      && forall j :: 0 <= j < |categories| ==>
           data[2 * j] == LongRowOf(w[0], categories[j], keepYear) &&
           data[2 * j + 1] == LongRowOf(w[1], categories[j], keepYear)
  {
    MeltLength(w, categories, keepYear);
    forall j | 0 <= j < |categories|
      ensures var data := Melt(w, categories, keepYear);
        data[2 * j] == LongRowOf(w[0], categories[j], keepYear) &&
        data[2 * j + 1] == LongRowOf(w[1], categories[j], keepYear)
    {
      MeltAt(w, categories, keepYear, j, 0);
      MeltAt(w, categories, keepYear, j, 1);
    }
  }

  /** Melting four rows: each category block is the four rows' cells, in row order. */
  lemma MeltFourRows(w: seq<Record>, categories: seq<Category>, keepYear: bool)
    requires |w| == 4
    ensures var data := Melt(w, categories, keepYear);
      && |data| == 4 * |categories|
      && forall j :: 0 <= j < |categories| ==>
           data[4 * j] == LongRowOf(w[0], categories[j], keepYear) &&
           data[4 * j + 1] == LongRowOf(w[1], categories[j], keepYear) &&
           data[4 * j + 2] == LongRowOf(w[2], categories[j], keepYear) &&
           data[4 * j + 3] == LongRowOf(w[3], categories[j], keepYear)
  {
    MeltLength(w, categories, keepYear);
    forall j | 0 <= j < |categories|
      ensures var data := Melt(w, categories, keepYear);
        data[4 * j] == LongRowOf(w[0], categories[j], keepYear) &&
        data[4 * j + 1] == LongRowOf(w[1], categories[j], keepYear) &&
        data[4 * j + 2] == LongRowOf(w[2], categories[j], keepYear) &&
        data[4 * j + 3] == LongRowOf(w[3], categories[j], keepYear)
    {
      MeltAt(w, categories, keepYear, j, 0);
      MeltAt(w, categories, keepYear, j, 1);
      MeltAt(w, categories, keepYear, j, 2);
      MeltAt(w, categories, keepYear, j, 3);
    }
  }

  /** Every long row is a cell of an input row and a chosen category, and every such cell is there. */
  lemma MeltMembers(rows: seq<Record>, categories: seq<Category>, keepYear: bool)
    ensures forall r :: r in Melt(rows, categories, keepYear) <==>
      exists x, k :: x in rows && k in categories && r == LongRowOf(x, k, keepYear)
  {
    forall r | r in Melt(rows, categories, keepYear)
      ensures exists x, k :: x in rows && k in categories && r == LongRowOf(x, k, keepYear)
    {
      MeltSound(rows, categories, keepYear, r);
    }
    forall x, k | x in rows && k in categories
      ensures LongRowOf(x, k, keepYear) in Melt(rows, categories, keepYear)
    {
      MeltComplete(rows, categories, keepYear, x, k);
    }
  }

  // ---------------------------------------------------------------- the callback

  /** How an f-string renders a dropdown value. */
  function Show(choice: Option<string>): string {
    if choice.Some? then choice.value else "None"
  }

  function BarTitle(c1: Option<string>, c2: Option<string>, year: string): string {
    "Vergleich " + Show(c1) + " vs " + Show(c2) + " für das Jahr " + year
  }

  function LineTitle(c1: Option<string>, c2: Option<string>): string {
    "Vergleich " + Show(c1) + " vs " + Show(c2) + " für die Jahre 2018 und 2019"
  }

  /**
   * `make_comparison(country_1, country_2, years, categories)`. The years
   * checklist offers two options, so at most two years arrive; with more,
   * the source would return an unbound `fig`.
   */
  function MakeComparison(d: Tables, c1: Option<string>, c2: Option<string>,
                          years: Option<seq<string>>, categories: Option<seq<Category>>): (fig: Figure)
    requires years.Some? ==> |years.value| <= 2
    ensures fig.Empty? <==> years.None? || years.value == [] || categories.None?
    ensures fig.Bar? <==> years.Some? && |years.value| == 1 && categories.Some?
    ensures fig.Line? <==> years.Some? && |years.value| == 2 && categories.Some?
  {
    if years.None? || years.value == [] then Empty
    else
      var filtered := FilterComparison(d, years.value, c1, c2);
      if categories.None? then Empty
      else if |years.value| == 1 then
        Bar(Melt(filtered, categories.value, false), Kategorie, Wert, CountryOrRegion, true,
            BarTitle(c1, c2, years.value[0]))
      else
        Line(Melt(RefilterComparison(d, years.value, c1, c2), categories.value, true),
             YearColumn, Wert, CountryOrRegion, Kategorie, 2, true, LineTitle(c1, c2))
  }

  /** A chart over n selected rows and m chosen categories has n * m long rows; none when m = 0. */
  lemma ComparisonRowCount(d: Tables, c1: Option<string>, c2: Option<string>,
                           years: seq<string>, categories: seq<Category>)
    requires 1 <= |years| <= 2
    ensures var fig := MakeComparison(d, c1, c2, Some(years), Some(categories));
      (fig.Bar? || fig.Line?) &&
      |fig.data| == |FilterComparison(d, years, c1, c2)| * |categories|
  {
    RefilterAgrees(d, years, c1, c2);
    MeltLength(FilterComparison(d, years, c1, c2), categories, |years| == 2);
  }

  /** An empty (not None) category list still declares a chart, over no rows. */
  lemma EmptyCategoryListDrawsNoRows(d: Tables, c1: Option<string>, c2: Option<string>, years: seq<string>)
    requires 1 <= |years| <= 2
    ensures var fig := MakeComparison(d, c1, c2, Some(years), Some([]));
      (fig.Bar? || fig.Line?) && fig.data == []
  {
  }

  /**
   * One year: a grouped bar chart of value per category coloured by
   * country, whose rows are exactly the cells of the chosen countries'
   * rows of that year in the chosen categories, without a year column.
   */
  lemma BarChartShape(d: Tables, c1: Option<string>, c2: Option<string>, year: string, categories: seq<Category>)
    ensures var fig := MakeComparison(d, c1, c2, Some([year]), Some(categories));
      && fig.Bar?
      && fig.x == Kategorie && fig.y == Wert && fig.color == CountryOrRegion && fig.grouped
      && fig.title == "Vergleich " + Show(c1) + " vs " + Show(c2) + " für das Jahr " + year
      && forall r :: r in fig.data <==>
           exists x, k :: x in d.Merged() && x.year == year && (Chosen(x.country, c1) || Chosen(x.country, c2))
                          && k in categories && r == LongRow(x.country, None, k, x.metrics.Get(k))
  {
    var rows := FilterComparison(d, [year], c1, c2);
    FilterComparisonExact(d, [year], c1, c2);
    MeltMembers(rows, categories, false);
  }

  /**
   * Two years: a line chart of value over year coloured by country, one
   * facet per category wrapped two to a row, with markers and a title that
   * names both years; its rows are exactly the cells of the chosen
   * countries' rows in either year, each keeping its year.
   */
  lemma LineChartShape(d: Tables, c1: Option<string>, c2: Option<string>, years: seq<string>, categories: seq<Category>)
    requires |years| == 2
    ensures var fig := MakeComparison(d, c1, c2, Some(years), Some(categories));
      && fig.Line?
      && fig.x == YearColumn && fig.y == Wert && fig.color == CountryOrRegion && fig.facetCol == Kategorie
      && fig.facetColWrap == 2 && fig.markers
      && fig.title == "Vergleich " + Show(c1) + " vs " + Show(c2) + " für die Jahre 2018 und 2019"
      && forall r :: r in fig.data <==>
           exists x, k :: x in d.Merged() && x.year in years && (Chosen(x.country, c1) || Chosen(x.country, c2))
                          && k in categories && r == LongRow(x.country, Some(x.year), k, x.metrics.Get(k))
  {
    var rows := FilterComparison(d, years, c1, c2);
    RefilterAgrees(d, years, c1, c2);
    FilterComparisonExact(d, years, c1, c2);
    MeltMembers(rows, categories, true);
  }

  /** The order in which the two years were ticked does not change the line chart. */
  lemma LineChartIgnoresYearOrder(d: Tables, c1: Option<string>, c2: Option<string>,
                                  y1: string, y2: string, categories: Option<seq<Category>>)
    ensures MakeComparison(d, c1, c2, Some([y1, y2]), categories) ==
            MakeComparison(d, c1, c2, Some([y2, y1]), categories)
  {
    WhereAgrees(d.Merged(), RefilterMask([y1, y2], c1, c2),
                RefilterMask([y2, y1], c1, c2));
  }

  /** The rows of year `year` (a checklist option) of the two chosen countries, in table order. */
  lemma YearRowsOfTwoCountries(d: Tables, years: seq<string>, year: string, a: string, b: string)
    requires year == "2018" || year == "2019"
    requires var t := d.Table(year);
      OneRecordPerCountry(t) && HasCountry(t, a) && HasCountry(t, b)
    requires a != b && year in years
    ensures var t := d.Table(year);
      var w := Where(t, FilterMask(years, Some(a), Some(b)));
      |w| == 2 && w[0] in t && w[1] in t && {w[0].country, w[1].country} == {a, b}
  {
    var t := d.Table(year);
    WhereBothCountries(t, FilterMask(years, Some(a), Some(b)), a, b);
  }

  /** With one year ticked, only the rows of that year's table are selected. */
  lemma OneYearSelection(d: Tables, year: string, c1: Option<string>, c2: Option<string>)
    requires year == "2018" || year == "2019"
    ensures FilterComparison(d, [year], c1, c2) == Where(d.Table(year), FilterMask([year], c1, c2))
  {
    var other := if year == "2018" then d.Glueck19() else d.Glueck18();
    FilterComparisonByYear(d, [year], c1, c2);
    forall x | x in other ensures !FilterMask([year], c1, c2)(x) {
      var i :| 0 <= i < |other| && other[i] == x;
    }
    WhereNothing(other, FilterMask([year], c1, c2));
  }

  /**
   * With both countries in the ticked year's table (one record per
   * country), each category block of the bar chart is two bars, one per
   * country, showing that country's value in that year.
   */
  lemma BarOneRowPerCountryAndCategory(d: Tables, a: string, b: string, year: string, categories: seq<Category>)
    requires year == "2018" || year == "2019"
    requires OneRecordPerCountry(d.Table(year)) && HasCountry(d.Table(year), a) && HasCountry(d.Table(year), b)
    requires a != b
    ensures var fig := MakeComparison(d, Some(a), Some(b), Some([year]), Some(categories));
      && fig.Bar? && |fig.data| == 2 * |categories|
      && forall j :: 0 <= j < |categories| ==>
           && {fig.data[2 * j].country, fig.data[2 * j + 1].country} == {a, b}
           && (exists x :: x in d.Table(year) &&
                 fig.data[2 * j] == LongRow(x.country, None, categories[j], x.metrics.Get(categories[j])))
           && (exists x :: x in d.Table(year) &&
                 fig.data[2 * j + 1] == LongRow(x.country, None, categories[j], x.metrics.Get(categories[j])))
  {
    var w := FilterComparison(d, [year], Some(a), Some(b));
    OneYearSelection(d, year, Some(a), Some(b));
    WhereBothCountries(d.Table(year), FilterMask([year], Some(a), Some(b)), a, b);
    MeltTwoRows(w, categories, false);
  }

  /** With both years ticked and both countries in both tables: two 2018 rows, then two 2019 rows. */
  lemma TwoYearSelection(d: Tables, a: string, b: string, years: seq<string>)
    requires years == ["2018", "2019"] || years == ["2019", "2018"]
    requires OneRecordPerCountry(d.Glueck18()) && HasCountry(d.Glueck18(), a) && HasCountry(d.Glueck18(), b)
    requires OneRecordPerCountry(d.Glueck19()) && HasCountry(d.Glueck19(), a) && HasCountry(d.Glueck19(), b)
    requires a != b
    ensures var w := FilterComparison(d, years, Some(a), Some(b));
      && |w| == 4
      && w[0] in d.Glueck18() && w[1] in d.Glueck18() && {w[0].country, w[1].country} == {a, b}
      && w[2] in d.Glueck19() && w[3] in d.Glueck19() && {w[2].country, w[3].country} == {a, b}
  {
    var keep := FilterMask(years, Some(a), Some(b));
    FilterComparisonByYear(d, years, Some(a), Some(b));
    assert d.Table("2018") == d.Glueck18() && d.Table("2019") == d.Glueck19();
    YearRowsOfTwoCountries(d, years, "2018", a, b);
    YearRowsOfTwoCountries(d, years, "2019", a, b);
    var p, q := Where(d.Glueck18(), keep), Where(d.Glueck19(), keep);
    assert (p + q)[2..] == q;
  }

  /**
   * With both countries in both tables (one record per country), each
   * category facet of the line chart holds four points: the two countries
   * in 2018, then the two countries in 2019, each with its own value.
   */
  lemma LineFacetsOfFourRows(d: Tables, a: string, b: string, years: seq<string>, categories: seq<Category>)
    requires years == ["2018", "2019"] || years == ["2019", "2018"]
    requires OneRecordPerCountry(d.Glueck18()) && HasCountry(d.Glueck18(), a) && HasCountry(d.Glueck18(), b)
    requires OneRecordPerCountry(d.Glueck19()) && HasCountry(d.Glueck19(), a) && HasCountry(d.Glueck19(), b)
    requires a != b
    ensures var fig := MakeComparison(d, Some(a), Some(b), Some(years), Some(categories));
      && fig.Line? && |fig.data| == 4 * |categories|
      && forall j :: 0 <= j < |categories| ==>
           && {fig.data[4 * j].country, fig.data[4 * j + 1].country} == {a, b}
           && {fig.data[4 * j + 2].country, fig.data[4 * j + 3].country} == {a, b}
           && (exists x :: x in d.Glueck18() && fig.data[4 * j] == LongRowOf(x, categories[j], true))
           && (exists x :: x in d.Glueck18() && fig.data[4 * j + 1] == LongRowOf(x, categories[j], true))
           && (exists x :: x in d.Glueck19() && fig.data[4 * j + 2] == LongRowOf(x, categories[j], true))
           && (exists x :: x in d.Glueck19() && fig.data[4 * j + 3] == LongRowOf(x, categories[j], true))
  {
    var w := FilterComparison(d, years, Some(a), Some(b));
    RefilterAgrees(d, years, Some(a), Some(b));
    TwoYearSelection(d, a, b, years);
    MeltFourRows(w, categories, true);
  }
}
