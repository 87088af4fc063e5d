/**
 * The two yearly tables of the World Happiness data and what the dashboard
 * derives from them once at start-up: each table tagged with its year as a
 * string, their concatenation `merged_data`, and the country vocabulary
 * `all_countries` offered by both country dropdowns.
 */
module Dataset {
  import opened StringOrder

  /** A metric value as read from the CSV. The model does no arithmetic on it. */
  type Value

  /** The eight selectable metric columns, in the order of the checklist options. */
  datatype Category =
    | OverallRank
    | Score
    | GdpPerCapita
    | SocialSupport
    | HealthyLifeExpectancy
    | FreedomToMakeLifeChoices
    | Generosity
    | PerceptionsOfCorruption

  /** The CSV column header of each category. */
  function ColumnName(c: Category): string {
    match c
    case OverallRank => "Overall rank"
    case Score => "Score"
    case GdpPerCapita => "GDP per capita"
    case SocialSupport => "Social support"
    case HealthyLifeExpectancy => "Healthy life expectancy"
    case FreedomToMakeLifeChoices => "Freedom to make life choices"
    case Generosity => "Generosity"
    case PerceptionsOfCorruption => "Perceptions of corruption"
  }

  /** The option list of the category checklist and of the map dropdown. */
  const CategoryOptions: seq<Category> := [
    OverallRank, Score, GdpPerCapita, SocialSupport,
    HealthyLifeExpectancy, FreedomToMakeLifeChoices, Generosity, PerceptionsOfCorruption
  ]

  /** The options list every category exactly once, by distinct column names. */
  lemma CategoryOptionsListEachColumnOnce()
    ensures forall c: Category :: c in CategoryOptions
    ensures forall i, j :: 0 <= i < j < |CategoryOptions| ==>
      ColumnName(CategoryOptions[i]) != ColumnName(CategoryOptions[j])
  {
    forall c: Category ensures c in CategoryOptions {
      match c
      case OverallRank => assert CategoryOptions[0] == c;
      case Score => assert CategoryOptions[1] == c;
      case GdpPerCapita => assert CategoryOptions[2] == c;
      case SocialSupport => assert CategoryOptions[3] == c;
      case HealthyLifeExpectancy => assert CategoryOptions[4] == c;
      case FreedomToMakeLifeChoices => assert CategoryOptions[5] == c;
      case Generosity => assert CategoryOptions[6] == c;
      case PerceptionsOfCorruption => assert CategoryOptions[7] == c;
    }
  }

  /** The metric columns of one CSV row. */
  datatype Metrics = Metrics(
    overallRank: Value,
    score: Value,
    gdpPerCapita: Value,
    socialSupport: Value,
    healthyLifeExpectancy: Value,
    freedomToMakeLifeChoices: Value,
    generosity: Value,
    perceptionsOfCorruption: Value)
  {
    /** The cell of column `c`. */
    function Get(c: Category): Value {
      match c
      case OverallRank => overallRank
      case Score => score
      case GdpPerCapita => gdpPerCapita
      case SocialSupport => socialSupport
      case HealthyLifeExpectancy => healthyLifeExpectancy
      case FreedomToMakeLifeChoices => freedomToMakeLifeChoices
      case Generosity => generosity
      case PerceptionsOfCorruption => perceptionsOfCorruption
    }
  }

  /** A row of a CSV file as loaded: the country ("Country or region") and its metrics. */
  datatype Row = Row(country: string, metrics: Metrics)

  /** A row after the load-time `Year` column was added. */
  datatype Record = Record(country: string, year: string, metrics: Metrics)

  /** Assigning the constant string `year` to the `Year` column of a table. */
  function Tag(rows: seq<Row>, year: string): (r: seq<Record>)
    ensures |r| == |rows|
    ensures forall i :: 0 <= i < |r| ==>
      r[i].year == year && r[i].country == rows[i].country && r[i].metrics == rows[i].metrics
  {
    seq(|rows|, i requires 0 <= i < |rows| => Record(rows[i].country, year, rows[i].metrics))
  }

  /** The "Country or region" column. */
  function Countries(rows: seq<Row>): (r: seq<string>)
    ensures |r| == |rows|
    ensures forall c :: c in r <==> exists x :: x in rows && x.country == c
  {
    if rows == [] then [] else [rows[0].country] + Countries(rows[1..])
  }

  /** The data invariant of a yearly table: at most one record per country. */
  predicate OneRecordPerCountry(t: seq<Record>) {
    forall i, j :: 0 <= i < j < |t| ==> t[i].country != t[j].country
  }

  predicate HasCountry(t: seq<Record>, c: string) {
    exists x :: x in t && x.country == c
  }

  /** The loaded 2018 and 2019 tables, read-only after start-up. */
  datatype Tables = Tables(raw18: seq<Row>, raw19: seq<Row>) {

    /** `glueck_18` after its `Year` column was set to "2018". */
    function Glueck18(): seq<Record> {
      Tag(raw18, "2018")
    }

    /** `glueck_19` after its `Year` column was set to "2019". */
    function Glueck19(): seq<Record> {
      Tag(raw19, "2019")
    }

    /** The table whose rows are tagged `year`, for either checklist option. */
    function Table(year: string): seq<Record> {
      if year == "2018" then Glueck18() else Glueck19()
    }

    /** `merged_data`: the 2018 rows followed by the 2019 rows, renumbered. */
    function Merged(): (r: seq<Record>)
      ensures |r| == |raw18| + |raw19|
      ensures forall i :: 0 <= i < |raw18| ==>
        r[i] == Record(raw18[i].country, "2018", raw18[i].metrics)
      ensures forall i :: |raw18| <= i < |r| ==>
        r[i] == Record(raw19[i - |raw18|].country, "2019", raw19[i - |raw18|].metrics)
    {
      Glueck18() + Glueck19()
    }

    /** `all_countries`: the sorted union of the country names of both years. */
    function AllCountries(): (r: seq<string>)
      ensures StrictlySorted(r)
      ensures forall i, j :: 0 <= i < j < |r| ==> r[i] != r[j]
      ensures forall c :: c in r <==>
        (exists x :: x in raw18 && x.country == c) || (exists x :: x in raw19 && x.country == c)
    {
      var r := SortedUnique(Countries(raw18) + Countries(raw19));
      SortedHasNoDuplicates(r);
      r
    }
  }

  /** Any strictly sorted list of exactly the countries of either year is `all_countries`. */
  lemma AllCountriesIsTheSortedListing(d: Tables, s: seq<string>)
    requires StrictlySorted(s)
    requires forall c :: c in s <==> c in Countries(d.raw18) || c in Countries(d.raw19)
    ensures s == d.AllCountries()
  {
    SortedListingIsUnique(s, d.AllCountries());
  }
}
