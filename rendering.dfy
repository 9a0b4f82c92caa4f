/**
  The renderer: a `Renderer` object holds one aggregation model and turns it
  into two texts, the country/weather/time report and the news report.

  Tables are PrettyTable objects in the original. Here a table is the value
  the renderer configures (column names, rows in insertion order, column
  width limits, alignment overrides), and drawing it as text belongs to the
  table library, so it is the parameter `tableText`. Likewise `localTime`
  stands for `datetime.fromtimestamp(...).strftime('%d.%m.%Y %H:%M')`,
  whose text depends on the host's time zone.
 */
module Rendering {
  import opened Text
  import opened Models
  import opened Formatting

  datatype Row = Row(characteristic: string, value: string)

  datatype Align = Left | Center | Right

  datatype Table = Table(
    fieldNames: seq<string>,
    rows: seq<Row>,
    maxWidth: map<string, nat>,
    align: map<string, Align>)

  const LabelColumn: string := "Характеристика"
  const ValueColumn: string := "Значение"

  const CountryHeading: string := "Информация о стране\n"
  const WeatherHeading: string := "\n\nИнформация о погоде\n"
  const TimeHeading: string := "\n\nИнформация о времени\n"
  const NewsHeading: string := "\nНовости\n"

  /** A fresh table with the two columns every table of the renderer has. */
  function NewTable(): Table {
    Table([LabelColumn, ValueColumn], [], map[], map[])
  }

  function AddRow(t: Table, characteristic: string, value: string): Table {
    t.(rows := t.rows + [Row(characteristic, value)])
  }

  function Labels(rows: seq<Row>): (labels: seq<string>)
    ensures |labels| == |rows|
    ensures forall i :: 0 <= i < |rows| ==> labels[i] == rows[i].characteristic
  {
    seq(|rows|, i requires 0 <= i < |rows| => rows[i].characteristic)
  }

  // ---------------------------------------------------------------------
  // The tables, as the rows they end up holding
  // ---------------------------------------------------------------------

  function BaseRows(info: LocationInfo): seq<Row> {
    var loc := info.location;
    [ Row("Страна", loc.name),
      Row("Столица", loc.capital),
      Row("Регион", loc.subregion),
      Row("Площадь", loc.area + " кв. км."),
      Row("Широта", loc.latitude),
      Row("Долгота", loc.longitude),
      Row("Языки", FormatLanguages(loc.languages)),
      Row("Население", FormatPopulation(loc.population)),
      Row("Курсы валют", FormatCurrencyRates(info.currencyRates)) ]
  }

  /**
    The visibility and wind-speed rows print the location's subregion and
    area, exactly as the original does; no weather field feeds them.
   */
  function WeatherRows(info: LocationInfo): seq<Row> {
    [ Row("Температура", info.weather.temp + " °C"),
      Row("Описание", info.weather.description),
      Row("Видимость", info.location.subregion + " м."),
      Row("Скорость ветра", info.location.area + " м/с") ]
  }

  function TimeRows(w: Weather, localTime: int -> string): seq<Row> {
    [ Row("Часовой пояс", TimezoneText(w.timezone)),
      Row("Местное время", localTime(w.dt + w.timezone)) ]
  }

  function NewsRows(item: NewsItem): seq<Row> {
    [ Row("Источник", item.source),
      Row("Автор", item.author),
      Row("Название", item.title),
      Row("Описание", item.description),
      Row("Ссылка", item.url),
      Row("Дата публикации", item.publishedAt),
      Row("Текст", item.content) ]
  }

  function PlainTable(rows: seq<Row>): Table {
    Table([LabelColumn, ValueColumn], rows, map[], map[])
  }

  /** A news table wraps labels at 50 and values at 120 columns and left-aligns values. */
  function NewsTable(item: NewsItem): Table {
    Table([LabelColumn, ValueColumn], NewsRows(item),
          map[LabelColumn := 50, ValueColumn := 120], map[ValueColumn := Left])
  }

  /** One news item's table followed by a newline. */
  function NewsBlock(item: NewsItem, tableText: Table -> string): string {
    tableText(NewsTable(item)) + "\n"
  }

  /** The news blocks of `items`, in order. */
  function NewsBlocks(items: seq<NewsItem>, tableText: Table -> string): string {
    ConcatMap(items, item => NewsBlock(item, tableText))
  }

  // ---------------------------------------------------------------------
  // Properties of the tables
  // ---------------------------------------------------------------------

  /** The base table has the nine rows in the original's order. */
  lemma BaseRowsLayout(info: LocationInfo)
    ensures var rows := BaseRows(info);
            && Labels(rows) == ["Страна", "Столица", "Регион", "Площадь", "Широта",
                                "Долгота", "Языки", "Население", "Курсы валют"]
            && rows[0].value == info.location.name
            && rows[1].value == info.location.capital
            && rows[2].value == info.location.subregion
            && rows[3].value == info.location.area + " кв. км."
            && rows[4].value == info.location.latitude
            && rows[5].value == info.location.longitude
  {
  }

  /**
    The languages and currency cells are empty exactly for empty inputs, and
    the population cell reads as the plain number once its dots are removed.
   */
  lemma BaseRowsCells(info: LocationInfo)
    ensures var rows := BaseRows(info);
            && (rows[6].value == "" <==> info.location.languages == [])
            && Without(rows[7].value, '.') == IntToString(info.location.population)
            && (rows[8].value == "" <==> info.currencyRates == [])
  {
    PopulationDigits(info.location.population);
  }

  /**
    The weather table reads only the temperature and description of the
    weather; its visibility and wind-speed cells carry the location's
    subregion and area.
   */
  lemma WeatherRowsSources(a: LocationInfo, b: LocationInfo)
    requires a.location == b.location
    requires a.weather.temp == b.weather.temp && a.weather.description == b.weather.description
    ensures WeatherRows(a) == WeatherRows(b)
    ensures var rows := WeatherRows(a);
            && Labels(rows) == ["Температура", "Описание", "Видимость", "Скорость ветра"]
            && rows[0].value == a.weather.temp + " °C"
            && rows[1].value == a.weather.description
            && rows[2].value == a.location.subregion + " м."
            && rows[3].value == a.location.area + " м/с"
  {
  }

  /** The local-time cell depends on the weather only through `dt + timezone`. */
  lemma LocalTimeFromInstant(a: Weather, b: Weather, localTime: int -> string)
    requires a.dt + a.timezone == b.dt + b.timezone
    ensures TimeRows(a, localTime)[1] == TimeRows(b, localTime)[1]
  {
  }

  lemma NewsRowsLayout(item: NewsItem)
    ensures var rows := NewsRows(item);
            && Labels(rows) == ["Источник", "Автор", "Название", "Описание", "Ссылка",
                                "Дата публикации", "Текст"]
            && [rows[0].value, rows[1].value, rows[2].value, rows[3].value,
                rows[4].value, rows[5].value, rows[6].value]
               == [item.source, item.author, item.title, item.description,
                   item.url, item.publishedAt, item.content]
  {
  }

  lemma NewsBlocksAppend(a: seq<NewsItem>, b: seq<NewsItem>, tableText: Table -> string)
    ensures NewsBlocks(a + b, tableText) == NewsBlocks(a, tableText) + NewsBlocks(b, tableText)
  {
    ConcatMapAppend(a, b, item => NewsBlock(item, tableText));
  }

  lemma NewsBlocksPrefix(items: seq<NewsItem>, i: nat, tableText: Table -> string)
    requires i < |items|
    ensures NewsBlocks(items[..i + 1], tableText)
            == NewsBlocks(items[..i], tableText) + NewsBlock(items[i], tableText)
  {
    assert items[..i + 1][..i] == items[..i];
  }

  /** Item `i`'s block stands between the blocks of the items before and after it. */
  lemma NewsBlocksAt(items: seq<NewsItem>, i: nat, tableText: Table -> string)
    requires i < |items|
    ensures NewsBlocks(items, tableText)
            == NewsBlocks(items[..i], tableText) + NewsBlock(items[i], tableText)
               + NewsBlocks(items[i + 1..], tableText)
  {
    ConcatMapAt(items, i, item => NewsBlock(item, tableText));
  }

  // ---------------------------------------------------------------------
  // The renderer object
  // ---------------------------------------------------------------------

  class Renderer {
    const locationInfo: LocationInfo

    constructor (locationInfo: LocationInfo)
      ensures this.locationInfo == locationInfo
    {
      this.locationInfo := locationInfo;
    }

    /**
      The report is the three headed tables (country, weather, time) in that
      order, and the news text is what `FormatNews` produces.
     */
    method Render(tableText: Table -> string, localTime: int -> string)
      returns (report: string, news: string)
      ensures report == CountryHeading + tableText(PlainTable(BaseRows(locationInfo)))
                        + WeatherHeading + tableText(PlainTable(WeatherRows(locationInfo)))
                        + TimeHeading + tableText(PlainTable(TimeRows(locationInfo.weather, localTime)))
                        + "\n"
      ensures news == NewsHeading + NewsBlocks(locationInfo.news, tableText)
    {
      var location, weather := locationInfo.location, locationInfo.weather;
      var result := CountryHeading;

      var baseTable := NewTable();
      baseTable := AddRow(baseTable, "Страна", location.name);
      baseTable := AddRow(baseTable, "Столица", location.capital);
      baseTable := AddRow(baseTable, "Регион", location.subregion);
      baseTable := AddRow(baseTable, "Площадь", location.area + " кв. км.");
      baseTable := AddRow(baseTable, "Широта", location.latitude);
      baseTable := AddRow(baseTable, "Долгота", location.longitude);
      baseTable := AddRow(baseTable, "Языки", FormatLanguages(location.languages));
      baseTable := AddRow(baseTable, "Население", FormatPopulation(location.population));
      baseTable := AddRow(baseTable, "Курсы валют", FormatCurrencyRates(locationInfo.currencyRates));
      assert baseTable == PlainTable(BaseRows(locationInfo));
      result := result + tableText(baseTable) + WeatherHeading;

      var weatherTable := NewTable();
      weatherTable := AddRow(weatherTable, "Температура", weather.temp + " °C");
      weatherTable := AddRow(weatherTable, "Описание", weather.description);
      weatherTable := AddRow(weatherTable, "Видимость", location.subregion + " м.");
      weatherTable := AddRow(weatherTable, "Скорость ветра", location.area + " м/с");
      assert weatherTable == PlainTable(WeatherRows(locationInfo));
      result := result + tableText(weatherTable) + TimeHeading;

      var timeTable := NewTable();
      timeTable := AddRow(timeTable, "Часовой пояс", TimezoneText(weather.timezone));
      timeTable := AddRow(timeTable, "Местное время", localTime(weather.dt + weather.timezone));
      assert timeTable == PlainTable(TimeRows(weather, localTime));
      result := result + tableText(timeTable) + "\n";

      report := result;
      news := FormatNews(tableText);
    }

    /** The news heading followed by one table per news item, in the items' order. */
    method FormatNews(tableText: Table -> string) returns (result: string)
      ensures result == NewsHeading + NewsBlocks(locationInfo.news, tableText)
      ensures locationInfo.news == [] ==> result == NewsHeading
    {
      var items := locationInfo.news;
      result := NewsHeading;
      for i := 0 to |items|
        invariant result == NewsHeading + NewsBlocks(items[..i], tableText)
      {
        var item := items[i];
        var table := NewTable();
        table := table.(maxWidth := map[LabelColumn := 50, ValueColumn := 120]);
        table := table.(align := table.align[ValueColumn := Left]);
        table := AddRow(table, "Источник", item.source);
        table := AddRow(table, "Автор", item.author);
        table := AddRow(table, "Название", item.title);
        table := AddRow(table, "Описание", item.description);
        table := AddRow(table, "Ссылка", item.url);
        table := AddRow(table, "Дата публикации", item.publishedAt);
        table := AddRow(table, "Текст", item.content);
        assert table == NewsTable(item);
        assert items[..i + 1][..i] == items[..i];
        result := result + tableText(table) + "\n";
      }
      assert items[..|items|] == items;
    }
  }

  /** Rendering the same model twice gives the same two texts. */
  method RenderTwice(r: Renderer, tableText: Table -> string, localTime: int -> string)
    returns (first: (string, string), second: (string, string))
    ensures first == second
  {
    var report, news := r.Render(tableText, localTime);
    first := (report, news);
    report, news := r.Render(tableText, localTime);
    second := (report, news);
  }
}
