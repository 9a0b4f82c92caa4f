/**
  The aggregation model the renderer reads (`LocationInfoDTO` and its parts).
  Numbers the source prints through Python's float `str` (area, latitude,
  longitude, temperature) are carried as the text that `str` produces.
 */
module Models {

  datatype Language = Language(name: string, nativeName: string)

  datatype Location = Location(
    name: string,
    capital: string,
    subregion: string,
    area: string,
    latitude: string,
    longitude: string,
    population: int,
    languages: seq<Language>)

  /** `timezone` is the offset from UTC in seconds, `dt` a Unix timestamp. */
  datatype Weather = Weather(temp: string, description: string, timezone: int, dt: int)

  /** An exact decimal rate: `units * 10^-scale` roubles. */
  datatype Rate = Rate(units: int, scale: nat)

  datatype NewsItem = NewsItem(
    source: string,
    author: string,
    title: string,
    description: string,
    url: string,
    publishedAt: string,
    content: string)

  /**
    The currency rates are the dictionary's entries in its iteration
    (insertion) order; the news items are in the order the provider sent them.
   */
  datatype LocationInfo = LocationInfo(
    location: Location,
    weather: Weather,
    currencyRates: seq<(string, Rate)>,
    news: seq<NewsItem>)
}
