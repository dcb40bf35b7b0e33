/**
 * The local parts of `WebSearchToolsDemo`: resolving the city name the
 * model extracted against the city list (`_find_matching_city`), and the
 * canned results of the dummy search back end (`_execute_search`).
 */
module WebSearch {
  import opened PyText

  /** `AREA_TO_CITY_MAPPING`: well-known districts and the city they belong to. */
  const AreaToCity: map<string, string> := map[
    "新宿" := "Tokyo", "渋谷" := "Tokyo", "池袋" := "Tokyo", "銀座" := "Tokyo",
    "品川" := "Tokyo", "秋葉原" := "Tokyo", "浅草" := "Tokyo", "上野" := "Tokyo",
    "六本木" := "Tokyo", "恵比寿" := "Tokyo", "原宿" := "Tokyo", "表参道" := "Tokyo",
    "梅田" := "Osaka", "なんば" := "Osaka", "心斎橋" := "Osaka", "天王寺" := "Osaka",
    "神戸" := "Kobe", "三宮" := "Kobe", "元町" := "Kobe",
    "みなとみらい" := "Yokohama", "関内" := "Yokohama", "中華街" := "Yokohama",
    "博多" := "Fukuoka", "天神" := "Fukuoka",
    "すすきの" := "Sapporo", "大通" := "Sapporo",
    "栄" := "Nagoya", "名駅" := "Nagoya"]

  /** The cities the districts map to. */
  const MappedCities: set<string> := {"Tokyo", "Osaka", "Kobe", "Yokohama", "Fukuoka", "Sapporo", "Nagoya"}

  /**
   * Every district maps to one of seven cities, none of which is itself a
   * district, so one lookup is all the resolution there is.
   */
  lemma AreaMappingIsFlat()
    ensures forall a :: a in AreaToCity ==> AreaToCity[a] in MappedCities
    ensures forall c :: c in MappedCities ==> c !in AreaToCity
  {
    DistrictNamesAreNonAscii();
    CityNamesAreAscii();
    KeysMissNames(AreaToCity, MappedCities);
  }

  /** The text is non-empty and its first character lies outside ASCII. */
  predicate StartsOutsideAscii(s: string) {
    s != [] && s[0] > '\U{7F}'
  }

  /** Every district name starts with a character outside ASCII. */
  lemma DistrictNamesAreNonAscii()
    ensures forall a :: a in AreaToCity ==> StartsOutsideAscii(a)
  {
  }

  /** Every city name starts with an ASCII character. */
  lemma CityNamesAreAscii()
    ensures forall c :: c in MappedCities ==> !StartsOutsideAscii(c)
  {
  }

  /** Names starting in ASCII are not keys of a map whose keys all start outside it. */
  lemma KeysMissNames(m: map<string, string>, names: set<string>)
    requires forall a :: a in m ==> StartsOutsideAscii(a)
    requires forall c :: c in names ==> !StartsOutsideAscii(c)
    ensures forall c :: c in names ==> c !in m
  {
  }

  /** One entry of the city list: `name`, `coord.lat`, `coord.lon`, `id`. */
  datatype City = City(name: string, lat: real, lon: real, id: int)

  /** The `(name, lat, lon)` tuple returned for a match. */
  datatype CityMatch = CityMatch(name: string, lat: real, lon: real)

  function MatchOf(c: City): CityMatch {
    CityMatch(c.name, c.lat, c.lon)
  }

  /** The city list file: absent, unreadable (an exception), or loaded. */
  datatype CitySource = FileMissing | LoadFailed | Loaded(cities: seq<City>)

  /** The name the lookup searches for: the district's city when it is a known district, else the name itself. */
  function TargetCity(extracted: string): (target: string)
    ensures extracted in AreaToCity ==> target == AreaToCity[extracted]
    ensures extracted !in AreaToCity ==> target == extracted
  {
    if extracted in AreaToCity then AreaToCity[extracted] else extracted
  }

  /** `name.str.contains(target, case=False)`, ASCII letters folded. */
  predicate NameContains(c: City, target: string) {
    Contains(Lower(c.name), Lower(target))
  }

  /** The position of the first city whose name contains the target, or -1: `iloc[0]` of the filtered frame. */
  function FirstContaining(cities: seq<City>, target: string): (i: int)
    ensures -1 <= i < |cities|
    ensures i >= 0 ==> NameContains(cities[i], target)
    ensures forall j :: 0 <= j < |cities| && (i == -1 || j < i) ==> !NameContains(cities[j], target)
  {
    if cities == [] then -1
    else if NameContains(cities[0], target) then 0
    else
      var i := FirstContaining(cities[1..], target);
      if i == -1 then -1 else i + 1
  }

  /** The position of the first city named exactly `name`, or -1. */
  function FirstNamed(cities: seq<City>, name: string): (i: int)
    ensures -1 <= i < |cities|
    ensures i >= 0 ==> cities[i].name == name
    ensures forall j :: 0 <= j < |cities| && (i == -1 || j < i) ==> cities[j].name != name
  {
    if cities == [] then -1
    else if cities[0].name == name then 0
    else
      var i := FirstNamed(cities[1..], name);
      if i == -1 then -1 else i + 1
  }

  /**
   * The fuzzy fallback: `closeMatch` is what `difflib.get_close_matches`
   * returned for the target; the row is the first city of that name, and
   * a name not in the list is an indexing error, caught as "no match".
   */
  function CloseMatchOf(cities: seq<City>, closeMatch: Option<string>): (r: Option<CityMatch>)
    ensures closeMatch.None? ==> r == None
    ensures closeMatch.Some? ==>
      (r.Some? <==> exists j :: 0 <= j < |cities| && cities[j].name == closeMatch.value)
    ensures r.Some? ==> closeMatch.Some? && r.value.name == closeMatch.value
  {
    if closeMatch.None? then None
    else
      var k := FirstNamed(cities, closeMatch.value);
      if k == -1 then None else Some(MatchOf(cities[k]))
  }

  /**
   * `_find_matching_city` as written: the "exact" and the "partial" step
   * apply the same case-insensitive containment filter, so the second never
   * finds anything the first missed.
   */
  function FindMatchingCity(extracted: string, source: CitySource, closeMatch: Option<string>): (r: Option<CityMatch>)
    ensures !source.Loaded? ==> r == None
    ensures source.Loaded? ==>
      var cities, target := source.cities, TargetCity(extracted);
      && ((exists j :: 0 <= j < |cities| && NameContains(cities[j], target)) ==>
            exists i :: 0 <= i < |cities| && r == Some(MatchOf(cities[i])) && NameContains(cities[i], target)
              && forall j :: 0 <= j < i ==> !NameContains(cities[j], target))
      && ((forall j :: 0 <= j < |cities| ==> !NameContains(cities[j], target)) ==>
            r == CloseMatchOf(cities, closeMatch))
  {
    match source
    case FileMissing => None
    case LoadFailed => None
    case Loaded(cities) =>
      var target := TargetCity(extracted);
      var exact := FirstContaining(cities, target);
      if exact >= 0 then MatchAt(cities, exact)
      else
        var partial := FirstContaining(cities, target);
        if partial >= 0 then MatchAt(cities, partial)
        else CloseMatchOf(cities, closeMatch)
  }

  /** `iloc[i]` of the city list, as a match. */
  function MatchAt(cities: seq<City>, i: int): Option<CityMatch> {
    if 0 <= i < |cities| then Some(MatchOf(cities[i])) else None
  }

  /** A name folded to lower case contains its own lower-cased prefix. */
  lemma LowerPrefixOccurs(target: string, rest: string)
    ensures OccursAt(Lower(target + rest), Lower(target), 0)
  {
    var whole := Lower(target + rest);
    assert whole[0..|target|] == Lower(target);
  }

  /**
   * As written, a city listed before the exact name and merely containing
   * it wins: with `target + rest` listed before `target`, the first is
   * returned although the second matches exactly.
   */
  lemma ExactNameShadowed(target: string, rest: string, first: City, second: City, closeMatch: Option<string>)
    requires target !in AreaToCity && rest != []
    requires first.name == target + rest && second.name == target
    ensures FindMatchingCity(target, Loaded([first, second]), closeMatch) == Some(MatchOf(first))
    ensures Lower(first.name) != Lower(target) && Lower(second.name) == Lower(target)
  {
    LowerPrefixOccurs(target, rest);
    ContainsIffOccurs(Lower(first.name), Lower(target));
    assert |Lower(first.name)| != |Lower(target)|;
  }

  /** The city name equals the target once both are folded to lower case. */
  predicate NameEquals(c: City, target: string) {
    Lower(c.name) == Lower(target)
  }

  /** The position of the first city whose folded name equals the folded target, or -1. */
  function FirstEqual(cities: seq<City>, target: string): (i: int)
    ensures -1 <= i < |cities|
    ensures i >= 0 ==> NameEquals(cities[i], target)
    ensures forall j :: 0 <= j < |cities| && (i == -1 || j < i) ==> !NameEquals(cities[j], target)
  {
    if cities == [] then -1
    else if NameEquals(cities[0], target) then 0
    else
      var i := FirstEqual(cities[1..], target);
      if i == -1 then -1 else i + 1
  }

  /** The lookup with the exact step matching whole names (case-insensitively) before the containment step. */
  function FindMatchingCityFixed(extracted: string, source: CitySource, closeMatch: Option<string>): (r: Option<CityMatch>)
    ensures !source.Loaded? ==> r == None
  {
    match source
    case FileMissing => None
    case LoadFailed => None
    case Loaded(cities) =>
      var target := TargetCity(extracted);
      var exact := FirstEqual(cities, target);
      if exact >= 0 then Some(MatchOf(cities[exact]))
      else
        var partial := FirstContaining(cities, target);
        if partial >= 0 then Some(MatchOf(cities[partial]))
        else CloseMatchOf(cities, closeMatch)
  }

  /**
   * The corrected lookup prefers a whole-name match anywhere in the list;
   * without one it agrees with the lookup as written.
   */
  lemma FixedPrefersExactName(extracted: string, source: CitySource, closeMatch: Option<string>)
    requires source.Loaded?
    ensures var cities, target := source.cities, TargetCity(extracted);
      && ((exists j :: 0 <= j < |cities| && NameEquals(cities[j], target)) ==>
            exists i :: 0 <= i < |cities| && FindMatchingCityFixed(extracted, source, closeMatch) == Some(MatchOf(cities[i]))
              && NameEquals(cities[i], target) && forall j :: 0 <= j < i ==> !NameEquals(cities[j], target))
      && ((forall j :: 0 <= j < |cities| ==> !NameEquals(cities[j], target)) ==>
            FindMatchingCityFixed(extracted, source, closeMatch) == FindMatchingCity(extracted, source, closeMatch))
  {
  }

  /** On the shadowing example the corrected lookup returns the exact name. */
  lemma FixedFindsShadowedName(target: string, rest: string, first: City, second: City, closeMatch: Option<string>)
    requires target !in AreaToCity && rest != []
    requires first.name == target + rest && second.name == target
    ensures FindMatchingCityFixed(target, Loaded([first, second]), closeMatch) == Some(MatchOf(second))
  {
    var cities := [first, second];
    assert |Lower(first.name)| != |Lower(target)|;
    assert !NameEquals(cities[0], target) && NameEquals(cities[1], target);
    assert cities[1..] == [second];
    assert FirstEqual(cities, target) == 1;
  }

  /** One search hit: `title`, `url`, `snippet`. */
  datatype SearchResult = SearchResult(title: string, url: string, snippet: string)

  /** The `i`-th (from 0) canned result for `query`. */
  function DummyResult(query: string, i: nat): SearchResult {
    var n := NatToString(i + 1);
    SearchResult(
      "ダミー検索結果 " + n + ": " + query + "に関する情報",
      "https://example.com/result" + n,
      "これは" + query + "に関するダミーの検索結果です。実際の検索APIを使用する場合は、適切なAPIキーを設定してください。")
  }

  /** `[... for i in range(results_count)]`: one canned result per index, none for a count below 1. */
  function DummyResults(query: string, resultsCount: int): (rs: seq<SearchResult>)
    ensures |rs| == if resultsCount < 0 then 0 else resultsCount
    ensures forall i :: 0 <= i < |rs| ==> rs[i] == DummyResult(query, i)
  {
    if resultsCount <= 0 then [] else DummyResults(query, resultsCount - 1) + [DummyResult(query, resultsCount - 1)]
  }

  /** A text built as `a + b + c` contains `b`. */
  lemma InfixContained(a: string, b: string, c: string)
    ensures Contains(a + b + c, b)
  {
    var t := a + b + c;
    assert t[|a|..|a| + |b|] == b;
    assert OccursAt(t, b, |a|);
    ContainsIffOccurs(t, b);
  }

  /** The `i`-th canned result mentions the query in its title and its snippet. */
  lemma DummyResultMentionsQuery(query: string, i: nat)
    ensures Contains(DummyResult(query, i).title, query) && Contains(DummyResult(query, i).snippet, query)
  {
    InfixContained("ダミー検索結果 " + NatToString(i + 1) + ": ", query, "に関する情報");
    InfixContained("これは", query, "に関するダミーの検索結果です。実際の検索APIを使用する場合は、適切なAPIキーを設定してください。");
  }

  /** Canned results at different positions have different URLs. */
  lemma DummyUrlsDiffer(query: string, i: nat, j: nat)
    requires i != j
    ensures DummyResult(query, i).url != DummyResult(query, j).url
  {
    NatToStringDiffers(i + 1, j + 1);
    SameStartDifferentEnds("https://example.com/result", NatToString(i + 1), NatToString(j + 1));
  }

  /** Texts sharing a start differ when what follows it differs. */
  lemma SameStartDifferentEnds(start: string, a: string, b: string)
    requires a != b
    ensures start + a != start + b
  {
    assert (start + a)[|start|..] == a && (start + b)[|start|..] == b;
  }

  /** The search back ends `_execute_search` knows. */
  datatype SearchApi = Dummy | GoogleCustomSearch | BingSearch | SerpApi | Other(name: string)

  /** What `_execute_search` produced: a list of hits, or the `ValueError` for an unknown back end. */
  datatype SearchOutcome = Results(results: seq<SearchResult>) | UnsupportedApi(name: string)

  /**
   * `_execute_search`: the dummy back end answers locally; the three remote
   * ones answer with `remote`, what their calls returned; any other name is
   * refused.
   */
  function ExecuteSearch(api: SearchApi, query: string, resultsCount: int, remote: seq<SearchResult>): SearchOutcome
  {
    match api
    case Dummy => Results(DummyResults(query, resultsCount))
    case GoogleCustomSearch => Results(remote)
    case BingSearch => Results(remote)
    case SerpApi => Results(remote)
    case Other(name) => UnsupportedApi(name)
  }

  /**
   * The dummy back end returns `results_count` results (none for a count
   * below 1), each mentioning the query in its title and snippet, no two
   * with the same URL; an unknown back end is refused.
   */
  lemma ExecuteSearchShape(api: SearchApi, query: string, resultsCount: int, remote: seq<SearchResult>)
    ensures api.Dummy? ==> ExecuteSearch(api, query, resultsCount, remote).Results?
    ensures api.Dummy? ==> var rs := ExecuteSearch(api, query, resultsCount, remote).results;
      && |rs| == (if resultsCount < 0 then 0 else resultsCount)
      && (forall i :: 0 <= i < |rs| ==> Contains(rs[i].title, query) && Contains(rs[i].snippet, query))
      && (forall i, j :: 0 <= i < j < |rs| ==> rs[i].url != rs[j].url)
    ensures api.Other? <==> ExecuteSearch(api, query, resultsCount, remote).UnsupportedApi?
  {
    if api.Dummy? {
      var rs := DummyResults(query, resultsCount);
      forall i | 0 <= i < |rs| ensures Contains(rs[i].title, query) && Contains(rs[i].snippet, query) {
        DummyResultMentionsQuery(query, i);
      }
      forall i, j | 0 <= i < j < |rs| ensures rs[i].url != rs[j].url {
        DummyUrlsDiffer(query, i, j);
      }
    }
  }
}
