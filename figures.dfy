/**
 * What a callback hands to the renderer: the kind of plotly figure, the
 * table it is drawn from and the parameters it is declared with. How plotly
 * draws it (colour scale, geocoding, axis labels) is not modelled.
 */
module Figures {
  import opened Wrappers
  import opened Dataset

  /** Columns of a melted table that a chart parameter can name. */
  datatype Column = CountryOrRegion | YearColumn | Kategorie | Wert

  /**
   * One row of a melted (long) table: the id columns, the category taken
   * from the column header ("Kategorie") and that cell's value ("Wert").
   * `year` is None when the `Year` column is not among the id columns.
   */
  datatype LongRow = LongRow(country: string, year: Option<string>, category: Category, value: Value)

  /** One location of a choropleth, with the value its colour encodes (None: no colour column). */
  datatype MapEntry = MapEntry(location: string, colour: Option<Value>)

  datatype Figure =
    | Empty   // go.Figure()
    | Bar(data: seq<LongRow>, x: Column, y: Column, color: Column, grouped: bool, title: string)   // px.bar
    | Line(data: seq<LongRow>, x: Column, y: Column, color: Column, facetCol: Column,
           facetColWrap: nat, markers: bool, title: string)   // px.line
    | Choropleth(entries: seq<MapEntry>, locations: Column, colourBy: Option<Category>)   // px.choropleth
}
