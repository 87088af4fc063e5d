/**
 * The map callback `make_world`: a choropleth of one year's table, keyed by
 * country and coloured by the metric chosen in the dropdown. The click on a
 * country is read and then dropped: it changes nothing in the figure.
 */
module WorldMap {
  import opened Wrappers
  import opened Dataset
  import opened Figures

  /** The part of plotly's click data the callback reads. */
  datatype ClickPoint = ClickPoint(location: string)
  datatype ClickData = ClickData(points: seq<ClickPoint>)

  /** `clickData["points"][0]["location"]`; None before the first click. */
  function ClickedCountry(click: Option<ClickData>): Option<string>
    requires click.Some? ==> |click.value.points| > 0
  {
    if click.Some? then Some(click.value.points[0].location) else None
  }

  /** The year dropdown: 2018 selects `glueck_18`; any other value, a cleared dropdown included, `glueck_19`. */
  function MapTable(d: Tables, year: Option<int>): seq<Record> {
    if year == Some(2018) then d.Glueck18() else d.Glueck19()
  }

  function MapEntries(t: seq<Record>, colourBy: Option<Category>): seq<MapEntry> {
    seq(|t|, i requires 0 <= i < |t| =>
      MapEntry(t[i].country, if colourBy.Some? then Some(t[i].metrics.Get(colourBy.value)) else None))
  }

  /** `make_world(clickData, year, dropdown_category)`. */
  function MakeWorld(d: Tables, click: Option<ClickData>, year: Option<int>, dropdownCategory: Option<Category>): (fig: Figure)
    requires click.Some? ==> |click.value.points| > 0
    ensures fig.Choropleth? && fig.locations == CountryOrRegion && fig.colourBy == dropdownCategory
  {
    var clicked := ClickedCountry(click);
    Choropleth(MapEntries(MapTable(d, year), dropdownCategory), CountryOrRegion, dropdownCategory)
  }

  /**
   * The map has one entry per row of the chosen year's CSV, in file order:
   * the row's country, coloured by its value in the chosen metric.
   */
  lemma MapShowsTheChosenYear(d: Tables, click: Option<ClickData>, year: Option<int>, dropdownCategory: Option<Category>)
    requires click.Some? ==> |click.value.points| > 0
    ensures var fig := MakeWorld(d, click, year, dropdownCategory);
      var raw := if year == Some(2018) then d.raw18 else d.raw19;
      && |fig.entries| == |raw|
      && forall i :: 0 <= i < |raw| ==>
           fig.entries[i] == MapEntry(raw[i].country,
             if dropdownCategory.Some? then Some(raw[i].metrics.Get(dropdownCategory.value)) else None)
  {
  }

  /** The click data never changes the map. */
  lemma MakeWorldIgnoresClick(d: Tables, click1: Option<ClickData>, click2: Option<ClickData>,
                              year: Option<int>, dropdownCategory: Option<Category>)
    requires click1.Some? ==> |click1.value.points| > 0
    requires click2.Some? ==> |click2.value.points| > 0
    ensures MakeWorld(d, click1, year, dropdownCategory) == MakeWorld(d, click2, year, dropdownCategory)
  {
  }
}
