# Weltzufriedenheit dashboard: a Dafny model of its selection-to-chart pipeline

The dashboard shows two views of the World Happiness data for 2018 and 2019.

- A world map (`make_world`): one year's table, coloured by one metric.
- A comparison (`make_comparison`): two countries, one or two ticked years, and any subset of the eight metric columns.

This project models, as pure Dafny functions, what the two callbacks compute from their inputs. It also models the data derived once at start-up: the year-tagged tables, `merged_data` and `all_countries`. The lemmas state what the figures contain.

Modules, one file each:

- `Wrappers` (`wrappers.dfy`): `Option`. A cleared Dash dropdown delivers Python's `None`.
- `StringOrder` (`string_order.dfy`): Python's `<` on `str`, which compares code points lexicographically and puts a proper prefix first. Also `sorted(set(...))` as insertion into a strictly sorted list, and the proof that only one strictly sorted listing exists for a given set of names.
- `Dataset` (`dataset.dfy`): the eight metric `Category` values and their CSV column names. Also `Row` (a CSV row), `Record` (a row with its string `Year`), and `Tables` (the two loaded tables with `Glueck18`, `Glueck19`, `Merged` and `AllCountries`).
- `Figures` (`figures.dfy`): the chart specification handed to plotly. It is the empty figure, a bar chart, a faceted line chart or a choropleth, with the declared parameters. `LongRow` is a row of a melted table.
- `Comparison` (`comparison.dfy`): the boolean-mask selection of `merged_data`, pandas `melt`, the two titles, `MakeComparison`, and the lemmas about its charts.
- `WorldMap` (`world_map.dfy`): click-data parsing, choice of the table by year, and `MakeWorld`.

The model follows the code in these details, where an idealised description of the dashboard would differ:

- An empty category list is not treated like `None`. Only `categories is None` gives the empty figure. `[]` gives a bar or line chart over zero rows.
- `melt` stacks column by column, so the long table is category-major: all rows for the first category, then the next. It is not record-major.
- Years are strings (`"2018"`, `"2019"`) in the comparison. The map's year dropdown delivers the integer `2018` or `2019`, or `None`. Any value other than `2018` shows the 2019 table.
- The two countries are two dropdown values, not a set. A cleared dropdown (`None`) matches no row and appears as `None` in the title.
- The map click writes only to a local variable. Nothing reports it anywhere.

Every callback is a deterministic function of its inputs, under the two preconditions listed in "## Left out" (at most two ticked years; click data with at least one point). Running the pipeline twice on the same inputs gives equal figures by construction.

## Model

| member | source | states |
|---|---|---|
| Dataset.Tag | projekt/projekt_1_dash.py:10-11 | every row keeps its country and metrics, in order, and gets the given year string |
| Dataset.Tables.Merged | projekt/projekt_1_dash.py:13 | `merged_data` has as many rows as both years together: the 2018 rows tagged "2018" in file order, then the 2019 rows tagged "2019" |
| Dataset.Tables.AllCountries | projekt/projekt_1_dash.py:28 | `all_countries` is strictly sorted in Python string order, names no country twice, and holds exactly the countries of either year |
| Dataset.AllCountriesIsTheSortedListing | projekt/projekt_1_dash.py:28 | any strictly sorted list of exactly those countries equals `all_countries`, so it is the `sorted(set(...))` listing |
| StringOrder.SortedUnique | projekt/projekt_1_dash.py:28 | the sorted, de-duplicated listing of a name column is strictly sorted and has exactly the column's names |
| StringOrder.SortedListingIsUnique | projekt/projekt_1_dash.py:28 | two strictly sorted lists with the same elements are equal |
| StringOrder.LessTotal | projekt/projekt_1_dash.py:28 | Python string order is total: of two different strings, one is smaller |
| StringOrder.LessTransitive | projekt/projekt_1_dash.py:28 | Python string order is transitive |
| Dataset.CategoryOptionsListEachColumnOnce | projekt/projekt_1_dash.py:85-87 | the checklist options include every metric column once, under distinct column names |
| Comparison.Where | projekt/projekt_1_dash.py:164-166 | a boolean-mask selection returns only rows of the table that the mask accepts, and no more rows than the table has |
| Comparison.WhereComplete | projekt/projekt_1_dash.py:164-166 | every row the mask accepts is selected |
| Comparison.WhereCounts | projekt/projekt_1_dash.py:164-166 | the selection holds each accepted row exactly as often as the table does, and no rejected row |
| Comparison.WhereAppend | projekt/projekt_1_dash.py:164-166 | selection keeps table order: selecting from a concatenation concatenates the selections |
| Comparison.FilterComparisonExact | projekt/projekt_1_dash.py:164-166 | a row is selected iff it is in `merged_data`, its `Year` is in the ticked list, and its country equals `country_1` or `country_2` |
| Comparison.FilterComparisonByYear | projekt/projekt_1_dash.py:164-166 | the selection is the chosen 2018 rows followed by the chosen 2019 rows, in table order |
| Comparison.SameCountryTwice | projekt/projekt_1_dash.py:164-166 | with `country_1 == country_2` the selection is that one country's rows in the ticked years |
| Comparison.RefilterAgrees | projekt/projekt_1_dash.py:194-196 | the refilter with the conjuncts swapped selects exactly the same rows as the first filter |
| Comparison.MeltLength | projekt/projekt_1_dash.py:177-179 | the long table has (number of rows) × (number of categories) rows |
| Comparison.MeltAt | projekt/projekt_1_dash.py:199-202 | category-major order: row i of block j is row i's country (and year, when kept), category j, and row i's value in that category |
| Comparison.MeltSound | projekt/projekt_1_dash.py:177-179 | every long row comes from one input row and one chosen category, with that row's own value |
| Comparison.MeltComplete | projekt/projekt_1_dash.py:177-179 | every (input row, chosen category) cell appears in the long table |
| Comparison.MeltMembers | projekt/projekt_1_dash.py:199-202 | a long row is present iff it is the cell of some input row and some chosen category |
| Comparison.MeltTwoRows | projekt/projekt_1_dash.py:177-179 | melting two rows gives two long rows per category, the first row's cell then the second's |
| Comparison.MeltFourRows | projekt/projekt_1_dash.py:199-202 | melting four rows gives four long rows per category, in row order |
| Comparison.WhereTwoCountries | projekt/projekt_1_dash.py:164-166 | with one record per country, a two-country mask selects one record for each of the two countries the table has |
| Comparison.WhereBothCountries | projekt/projekt_1_dash.py:164-166 | if the table has both countries, the mask selects two records, one per country |
| Comparison.WhereKeepsOneRecordPerCountry | projekt/projekt_1_dash.py:164-166 | a selection from a table with one record per country still has one record per country |
| Comparison.MakeComparison | projekt/projekt_1_dash.py:160-216 | branch table: empty figure iff years is None or empty or categories is None; bar chart iff one year and categories present; line chart iff two years and categories present |
| Comparison.ComparisonRowCount | projekt/projekt_1_dash.py:170-202 | with one or two ticked years and a category list, the chart has (selected rows) × (categories) long rows, so none for an empty list |
| Comparison.EmptyCategoryListDrawsNoRows | projekt/projekt_1_dash.py:167-179 | an empty, non-None category list still gives a bar or line chart, over zero rows |
| Comparison.BarChartShape | projekt/projekt_1_dash.py:170-189 | one year: grouped bar chart with x = Kategorie, y = Wert, colour = country, title "Vergleich c1 vs c2 für das Jahr y"; its rows are exactly the chosen countries' cells of that year, without a year column |
| Comparison.LineChartShape | projekt/projekt_1_dash.py:192-214 | two years: line chart with x = Year, y = Wert, colour = country, facets by Kategorie wrapped at 2, markers on, fixed "2018 und 2019" title; its rows are exactly the chosen countries' cells in either year, each keeping its year |
| Comparison.LineChartIgnoresYearOrder | projekt/projekt_1_dash.py:194-212 | ticking the two years in either order gives the same figure |
| Comparison.OneYearSelection | projekt/projekt_1_dash.py:164-166 | with one ticked year, only rows of that year's table are selected |
| Comparison.TwoYearSelection | projekt/projekt_1_dash.py:194-196 | with both years and both countries in both tables: exactly four rows, the two 2018 rows (one per country) and then the two 2019 rows |
| Comparison.BarOneRowPerCountryAndCategory | projekt/projekt_1_dash.py:174-189 | both countries in that year's table: two bars per category, and each category block is one bar per country with that country's value |
| Comparison.LineFacetsOfFourRows | projekt/projekt_1_dash.py:194-214 | both countries in both tables: four points per category, and each facet is the two countries in 2018 and then in 2019, each with its own value |
| WorldMap.MakeWorld | projekt/projekt_1_dash.py:138-152 | the map is a choropleth keyed by "Country or region" and coloured by the dropdown's metric |
| WorldMap.MapShowsTheChosenYear | projekt/projekt_1_dash.py:139-148 | year 2018 shows the 2018 CSV and any other value the 2019 CSV, one entry per row in file order, with the row's country and its value in the chosen metric |
| WorldMap.MakeWorldIgnoresClick | projekt/projekt_1_dash.py:150-152 | the click data never changes the figure |

## Left out

- CSV loading (`pd.read_csv`): file I/O. The two tables are the inputs `raw18` and `raw19` of `Dataset.Tables`.
- Metric values are an abstract type `Value`, because the source never computes with them. Floating point and the "N/A" cells are not modelled.
- The widget tree, component IDs, layout and styling: declarations with no logic.
- The unused paragraph `test` and the dropdown `dropdown_comparison_categories`: neither is wired to a callback.
- The Dash callback machinery and `app.run`: each callback is a plain function of its inputs.
- Boundary validation of selections: the source has none beyond the offered options, so the model adds none.
- Plotly rendering: `locationmode` geocoding, the viridis scale, `labels`, `text=` and `clickmode`. Only the figure kind and its data-bearing parameters are recorded.
- Comparison.MakeComparison: requires at most two ticked years, since the checklist offers only two options. With more years and a category list, neither chart branch assigns `fig`, so `return fig` at projekt_1_dash.py:216 raises `UnboundLocalError`. With more years and `categories` None, the source returns the empty figure at :168; the requires excludes that case as well, so the model does not describe it.
- WorldMap.MakeWorld: requires click data to carry at least one point, as plotly's click events do; with none the source raises an IndexError.
- Duplicate metric columns: the checklist cannot deliver them, and `Melt` simply repeats a duplicated category's block.
