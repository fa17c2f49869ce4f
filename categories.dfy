/** The video-category list: the region code and display language of the
    `videoCategories.list` request, and the filter that keeps assignable
    categories only. The cache itself lives in the manager's state. */
module Categories {
  import opened Wrappers
  import opened Strings

  datatype Category = Category(id: string, title: string)

  /** `snippet` of a category item. */
  datatype CategorySnippet = CategorySnippet(assignable: bool, title: string)

  /** One item of `videoCategories.list`; an item without a snippet makes
      the read of `snippet.assignable` throw. */
  datatype CategoryItem = CategoryItem(id: string, snippet: Option<CategorySnippet>)

  /** The response of `videoCategories.list`: the request failed, the
      response has no `items`, or the items. */
  datatype CategoryFetch = FetchFailed | NoItems | Items(items: seq<CategoryItem>)

  const DefaultRegion: string := "US"
  const DefaultHl: string := "en_US"

  /** The region: the channel's country when it has one, else the second
      `-`-separated piece of the system locale, else "US". `country` is
      `channelInfo.country`, `None` when the channel lookup gave nothing. */
  function RegionCode(country: Option<string>, locale: string): (r: string)
    ensures country.Some? && country.value != "" ==> r == country.value
  {
    if country.Some? && country.value != "" then country.value
    else
      var parts := Split(locale, '-');
      if |parts| > 1 then parts[1] else DefaultRegion
  }

  /** Without a country, a locale `lang-REGION` gives `REGION`, a locale
      with more pieces gives its second piece, and a locale without `-`
      gives "US". */
  lemma RegionFromLocale(country: Option<string>, lang: string, region: string, rest: string)
    requires !(country.Some? && country.value != "")
    requires '-' !in lang && '-' !in region
    ensures RegionCode(country, lang + "-" + region) == region
    ensures RegionCode(country, lang + "-" + region + "-" + rest) == region
    ensures RegionCode(country, lang) == DefaultRegion
  {
    SplitWithoutSeparator(lang, '-');
    assert Split(lang + "-" + region, '-') == [lang, region] by {
      SplitAfterPiece(lang, '-', region);
      SplitWithoutSeparator(region, '-');
    }
    assert Split(lang + "-" + region + "-" + rest, '-')[1] == region by {
      assert lang + "-" + region + "-" + rest == lang + "-" + (region + "-" + rest);
      SplitAfterPiece(lang, '-', region + "-" + rest);
      SplitAfterPiece(region, '-', rest);
    }
  }

  /** `locale.replace('-', '_') || 'en_US'`: the first `-` becomes `_`. */
  function HlLocale(locale: string): (r: string)
    ensures locale == "" ==> r == DefaultHl
    ensures locale != "" ==> |r| == |locale|
    ensures locale != "" ==> forall i :: 0 <= i < |locale| ==>
      r[i] == (if i == IndexOfChar(locale, '-') then '_' else locale[i])
  {
    if locale == "" then DefaultHl
    else
      var i := IndexOfChar(locale, '-');
      if i == |locale| then locale else locale[..i] + "_" + locale[i + 1..]
  }

  /** The categories object: assignable items by id (a later item with the
      same id replaces an earlier one); `None` when an item has no snippet
      and the loop throws. */
  function CategoryMap(items: seq<CategoryItem>): (r: Option<map<string, Category>>)
    ensures r.None? <==> exists i :: 0 <= i < |items| && items[i].snippet.None?
    ensures r.Some? ==> forall id :: id in r.value <==>
      exists i :: 0 <= i < |items| && items[i].id == id && items[i].snippet.value.assignable
    ensures r.Some? ==> forall id :: id in r.value ==> r.value[id].id == id
  {
    if |items| == 0 then Some(map[])
    else
      var n := |items| - 1;
      var last := items[n];
      match CategoryMap(items[..n])
      case None => None
      case Some(m) =>
        match last.snippet
        case None => None
        case Some(sn) =>
          if sn.assignable then Some(m[last.id := Category(last.id, sn.title)]) else Some(m)
  }

  /** The title stored for an id is the one of the last assignable item with
      that id. */
  lemma {:induction false} CategoryMapLastWins(items: seq<CategoryItem>, i: nat)
    requires i < |items| && items[i].snippet.Some? && items[i].snippet.value.assignable
    requires forall j :: i < j < |items| ==> !(items[j].id == items[i].id && items[j].snippet.Some? && items[j].snippet.value.assignable)
    requires CategoryMap(items).Some?
    ensures CategoryMap(items).value[items[i].id] == Category(items[i].id, items[i].snippet.value.title)
  {
    var n := |items| - 1;
    if i < n {
      CategoryMapLastWins(items[..n], i);
    }
  }

  /** What `getVideoCategories` answers and what it leaves cached. */
  datatype CategoriesResult = CategoriesResult(categories: map<string, Category>, cache: map<string, Category>,
                                               requested: Option<(string, string)>)

  /** `getVideoCategories`: nothing without an authenticated client (even
      with a cache); the cache when it is non-empty; otherwise one request
      with the region code and display language, whose assignable
      categories become the answer and the cache. Any failure answers `{}`
      and keeps the cache. `fetch` is the API for (region, hl). */
  function GetVideoCategories(authorized: bool, cache: map<string, Category>, country: Option<string>, locale: string,
                              fetch: (string, string) -> CategoryFetch): (r: CategoriesResult)
    ensures !authorized ==> r == CategoriesResult(map[], cache, None)
    ensures authorized && |cache| > 0 ==> r == CategoriesResult(cache, cache, None)
    ensures r.requested.Some? ==> r.requested.value == (RegionCode(country, locale), HlLocale(locale))
    ensures r.cache == cache || r.cache == r.categories
    ensures authorized && |cache| == 0 ==>
      var f := fetch(RegionCode(country, locale), HlLocale(locale));
      && r.requested == Some((RegionCode(country, locale), HlLocale(locale)))
      && (f.FetchFailed? ==> r.categories == map[] && r.cache == cache)
      && (f.NoItems? ==> r.categories == map[] && r.cache == map[])
      && (f.Items? && CategoryMap(f.items).None? ==> r.categories == map[] && r.cache == cache)
      && (f.Items? && CategoryMap(f.items).Some? ==>
            r.categories == CategoryMap(f.items).value && r.cache == r.categories)
  {
    if !authorized then CategoriesResult(map[], cache, None)
    else if |cache| > 0 then CategoriesResult(cache, cache, None)
    else
      var region := RegionCode(country, locale);
      var hl := HlLocale(locale);
      match fetch(region, hl)
      case FetchFailed => CategoriesResult(map[], cache, Some((region, hl)))
      case NoItems => CategoriesResult(map[], map[], Some((region, hl)))
      case Items(items) =>
        match CategoryMap(items)
        case None => CategoriesResult(map[], cache, Some((region, hl)))
        case Some(m) => CategoriesResult(m, m, Some((region, hl)))
  }

  /** Once a non-empty answer is cached, the next call answers the same
      without a request, whatever the region or the API now say. */
  lemma CacheIsSticky(cache: map<string, Category>, country: Option<string>, locale: string,
                      fetch: (string, string) -> CategoryFetch, country2: Option<string>, locale2: string,
                      fetch2: (string, string) -> CategoryFetch)
    ensures var r := GetVideoCategories(true, cache, country, locale, fetch);
      |r.categories| > 0 ==>
        GetVideoCategories(true, r.cache, country2, locale2, fetch2) == CategoriesResult(r.categories, r.categories, None)
  {
  }

  /** An empty answer is not a cache: the next call asks the API again. */
  lemma EmptyAnswerIsRefetched(country: Option<string>, locale: string, fetch: (string, string) -> CategoryFetch)
    ensures var r := GetVideoCategories(true, map[], country, locale, fetch);
      |r.categories| == 0 ==> GetVideoCategories(true, r.cache, country, locale, fetch).requested.Some?
  {
  }
}
