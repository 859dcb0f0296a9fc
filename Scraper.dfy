/** `SmComponentesScraperService`: product search over the storefront's
    category pages, behind a cache keyed by the normalised query whose
    entries expire after an hour.

    The network and the HTML parser are inputs: `fetch` maps a category URL
    to the parsed page (the title text and `href` of every `a.link-neutro`
    link) or to a failed fetch. The clock is an input too: `now` counts
    minutes. */
module Scraper {
  import opened Wrappers
  import opened Text
  import opened Domain

  const BaseUrl: string := "https://smcomponentes.com.br/loja/"
  const CacheTtlMinutes: int := 60

  /** Every category page's slug starts with this. */
  const SlugPrefix: string := "categoria-"

  /** `CATEGORY_KEYWORDS`: a keyword of the query and the slug of the
      category page it sends the search to. */
  const CategoryKeywords: seq<(string, string)> := [
    ("conector", SlugPrefix + "conectores-variados"),
    ("acessório", SlugPrefix + "acessorios"),
    ("adaptador", SlugPrefix + "adaptadores"),
    ("cabo", SlugPrefix + "cabos-de-energia"),
    ("áudio", SlugPrefix + "audio-e-video"),
    ("vídeo", SlugPrefix + "audio-e-video"),
    ("hdmi", SlugPrefix + "audio-e-video"),
    ("vga", SlugPrefix + "audio-e-video"),
    ("plug", SlugPrefix + "outros-plugs"),
    ("potenciômetro", SlugPrefix + "potenciometros"),
    ("trimpot", SlugPrefix + "potenciometros"),
    ("borne", SlugPrefix + "bornes")
  ]

  /** The URL fragments `getCategoryNameFromUrl` tests, in its order, with
      the display name each one gives. */
  const CategoryNames: seq<(string, string)> := [
    ("conectores-variados", "Conectores Variados"),
    ("acessorios", "Acessórios"),
    ("adaptadores", "Adaptadores"),
    ("cabos-de-energia", "Cabos de Energia"),
    ("audio-e-video", "Áudio e Vídeo"),
    ("outros-plugs", "Outros Plugs"),
    ("potenciometros", "Potenciômetros"),
    ("bornes", "Bornes")
  ]

  const OtherCategory: string := "Outros"

  /** `getCategoryNameFromUrl`: the if-chain as written. Each branch notes
      the row of `CategoryNames` it stands for, so the name returned is
      either "Outros" or the name of a fragment the URL holds. */
  function CategoryNameFromUrl(url: string): (r: string)
    ensures r == OtherCategory ||
      exists i :: 0 <= i < |CategoryNames| && Contains(url, CategoryNames[i].0) && r == CategoryNames[i].1
  {
    var n := CategoryNames;
    if Contains(url, "conectores-variados") then assert n[0].0 == "conectores-variados"; "Conectores Variados"
    else if Contains(url, "acessorios") then assert n[1].0 == "acessorios"; "Acessórios"
    else if Contains(url, "adaptadores") then assert n[2].0 == "adaptadores"; "Adaptadores"
    else if Contains(url, "cabos-de-energia") then assert n[3].0 == "cabos-de-energia"; "Cabos de Energia"
    else if Contains(url, "audio-e-video") then assert n[4].0 == "audio-e-video"; "Áudio e Vídeo"
    else if Contains(url, "outros-plugs") then assert n[5].0 == "outros-plugs"; "Outros Plugs"
    else if Contains(url, "potenciometros") then assert n[6].0 == "potenciometros"; "Potenciômetros"
    else if Contains(url, "bornes") then assert n[7].0 == "bornes"; "Bornes"
    else OtherCategory
  }

  /** Reference definition: walk a (fragment, name) table and answer with
      the name of the first fragment the URL contains. */
  function FirstNamed(url: string, names: seq<(string, string)>): string {
    if names == [] then OtherCategory
    else if Contains(url, names[0].0) then names[0].1
    else FirstNamed(url, names[1..])
  }

  /** The if-chain is the table walk over `CategoryNames`. */
  lemma CategoryNameFromUrlIsTableWalk(url: string)
    ensures CategoryNameFromUrl(url) == FirstNamed(url, CategoryNames)
  {
    var n := CategoryNames;
    assert FirstNamed(url, n[8..]) == OtherCategory;
    assert n[7..][1..] == n[8..];
    assert FirstNamed(url, n[7..])
        == (if Contains(url, "bornes") then "Bornes" else FirstNamed(url, n[8..]));
    assert n[6..][1..] == n[7..];
    assert FirstNamed(url, n[6..])
        == (if Contains(url, "potenciometros") then "Potenciômetros" else FirstNamed(url, n[7..]));
    assert n[5..][1..] == n[6..];
    assert FirstNamed(url, n[5..])
        == (if Contains(url, "outros-plugs") then "Outros Plugs" else FirstNamed(url, n[6..]));
    assert n[4..][1..] == n[5..];
    assert FirstNamed(url, n[4..])
        == (if Contains(url, "audio-e-video") then "Áudio e Vídeo" else FirstNamed(url, n[5..]));
    assert n[3..][1..] == n[4..];
    assert FirstNamed(url, n[3..])
        == (if Contains(url, "cabos-de-energia") then "Cabos de Energia" else FirstNamed(url, n[4..]));
    assert n[2..][1..] == n[3..];
    assert FirstNamed(url, n[2..])
        == (if Contains(url, "adaptadores") then "Adaptadores" else FirstNamed(url, n[3..]));
    assert n[1..][1..] == n[2..];
    assert FirstNamed(url, n[1..])
        == (if Contains(url, "acessorios") then "Acessórios" else FirstNamed(url, n[2..]));
    assert n[0..][1..] == n[1..];
    assert FirstNamed(url, n[0..])
        == (if Contains(url, "conectores-variados") then "Conectores Variados" else FirstNamed(url, n[1..]));
    assert n[0..] == n;
  }

  /** The table walk answers with the name of the first fragment present,
      with "Outros" when no fragment is present, and otherwise with a name
      from the table. */
  lemma {:induction false} FirstNamedFirstMatch(url: string, names: seq<(string, string)>)
    ensures var r := FirstNamed(url, names);
      && ((forall i :: 0 <= i < |names| ==> !Contains(url, names[i].0)) ==> r == OtherCategory)
      && (forall i :: (0 <= i < |names| && Contains(url, names[i].0) &&
            (forall j :: 0 <= j < i ==> !Contains(url, names[j].0))) ==> r == names[i].1)
      && ((exists i :: 0 <= i < |names| && Contains(url, names[i].0)) ==>
            exists i :: 0 <= i < |names| && r == names[i].1)
  {
    if names != [] && !Contains(url, names[0].0) {
      var rest := names[1..];
      FirstNamedFirstMatch(url, rest);
      forall i | 0 <= i < |rest| ensures rest[i] == names[i + 1] {}
      if exists i :: 0 <= i < |names| && Contains(url, names[i].0) {
        var i :| 0 <= i < |names| && Contains(url, names[i].0);
        assert Contains(url, rest[i - 1].0);
        var m :| 0 <= m < |rest| && FirstNamed(url, rest) == rest[m].1;
        assert FirstNamed(url, names) == names[m + 1].1;
      }
    }
  }

  /** `getCategoryNameFromUrl` answers "Outros" exactly when the URL holds
      none of the eight fragments, and otherwise with the name paired with
      the first fragment it holds. */
  lemma CategoryNameFromUrlFirstMatch(url: string)
    ensures var r := CategoryNameFromUrl(url);
      && (r == OtherCategory <==> forall i :: 0 <= i < |CategoryNames| ==> !Contains(url, CategoryNames[i].0))
      && (forall i :: (0 <= i < |CategoryNames| && Contains(url, CategoryNames[i].0) &&
            (forall j :: 0 <= j < i ==> !Contains(url, CategoryNames[j].0))) ==> r == CategoryNames[i].1)
  {
    CategoryNameFromUrlIsTableWalk(url);
    FirstNamedFirstMatch(url, CategoryNames);
    assert forall i :: 0 <= i < |CategoryNames| ==> CategoryNames[i].1 != OtherCategory;
  }

  /** A page whose slug is the prefix followed by fragment `j` of the
      table gets a real category name. */
  lemma SlugFragment(j: nat)
    requires j < |CategoryNames|
    ensures CategoryNameFromUrl(BaseUrl + (SlugPrefix + CategoryNames[j].0)) != OtherCategory
  {
    var fragment := CategoryNames[j].0;
    AppendAssoc(BaseUrl, SlugPrefix, fragment);
    ContainsEachHalf(BaseUrl + SlugPrefix, fragment);
    CategoryNameFromUrlFirstMatch(BaseUrl + (SlugPrefix + fragment));
  }

  /** Every category page the keyword table can send a search to gets a
      real category name, never "Outros": the four audio and video keywords
      share one page, and so do the two potentiometer keywords. */
  lemma KeywordPagesAreNamed()
    ensures forall k :: 0 <= k < |CategoryKeywords| ==>
              CategoryNameFromUrl(BaseUrl + CategoryKeywords[k].1) != OtherCategory
  {
    var fragmentOf := [0, 1, 2, 3, 4, 4, 4, 4, 5, 6, 6, 7];
    forall k | 0 <= k < |CategoryKeywords|
      ensures CategoryNameFromUrl(BaseUrl + CategoryKeywords[k].1) != OtherCategory
    {
      assert CategoryKeywords[k].1 == SlugPrefix + CategoryNames[fragmentOf[k]].0;
      SlugFragment(fragmentOf[k]);
    }
  }


  // ---------------------------------------------------------------------
  // Scraping one category page

  /** One `a.link-neutro` element of a category page: the text of its
      `.titulo-item` child and its `href` attribute. */
  datatype ListingLink = ListingLink(title: string, href: string)

  /** What fetching a category page gives: its product links in document
      order, or a failure (`IOException`) the scraper logs and swallows. */
  datatype Page = Fetched(links: seq<ListingLink>) | FetchFailed

  /** The row filter: a non-empty trimmed name, a non-empty `href`, and the
      lower-cased name containing the query. */
  predicate Keeps(query: string, link: ListingLink) {
    var name := Trim(link.title);
    name != [] && link.href != [] && Contains(Lower(name), query)
  }

  function ToProduct(categoryUrl: string, link: ListingLink): Product {
    Product(Trim(link.title), CategoryNameFromUrl(categoryUrl), BaseUrl + link.href)
  }

  /** The products the loop of `scrapeCategoryPage` collects from `links`. */
  function ProductsFrom(categoryUrl: string, query: string, links: seq<ListingLink>): (r: seq<Product>)
    ensures |r| <= |links|
    ensures forall k :: 0 <= k < |r| ==> r[k].category == CategoryNameFromUrl(categoryUrl)
  {
    if links == [] then []
    else
      var last := links[|links| - 1];
      ProductsFrom(categoryUrl, query, links[..|links| - 1])
        + (if Keeps(query, last) then [ToProduct(categoryUrl, last)] else [])
  }

  /** What `scrapeCategoryPage` returns for a page: nothing for a failed
      fetch, otherwise the kept rows in page order. */
  function PageProducts(categoryUrl: string, query: string, page: Page): seq<Product> {
    match page
    case FetchFailed => []
    case Fetched(links) => ProductsFrom(categoryUrl, query, links)
  }

  /** `scrapeCategoryPage` after the fetch: the loop over the product links. */
  method ScrapeCategoryPage(categoryUrl: string, query: string, page: Page) returns (products: seq<Product>)
    ensures products == PageProducts(categoryUrl, query, page)
  {
    products := [];
    if page.FetchFailed? {
      return;
    }
    var links := page.links;
    for i := 0 to |links|
      invariant products == ProductsFrom(categoryUrl, query, links[..i])
    {
      assert links[..i + 1][..i] == links[..i];
      if Keeps(query, links[i]) {
        products := products + [ToProduct(categoryUrl, links[i])];
      }
    }
    assert links[..|links|] == links;
  }

  /** The filter distributes over concatenation of pages: rows are judged one
      by one and keep their relative order. */
  lemma {:induction false} ProductsFromAppend(categoryUrl: string, query: string, a: seq<ListingLink>, b: seq<ListingLink>)
    ensures ProductsFrom(categoryUrl, query, a + b)
         == ProductsFrom(categoryUrl, query, a) + ProductsFrom(categoryUrl, query, b)
  {
    if b == [] {
      assert a + b == a;
    } else {
      assert (a + b)[..|a + b| - 1] == a + b[..|b| - 1];
      ProductsFromAppend(categoryUrl, query, a, b[..|b| - 1]);
    }
  }

  /** A single row gives a product exactly when it passes the filter. */
  lemma ProductsFromSingle(categoryUrl: string, query: string, link: ListingLink)
    ensures ProductsFrom(categoryUrl, query, [link])
         == if Keeps(query, link) then [ToProduct(categoryUrl, link)] else []
  {
    assert [link][..0] == [];
  }

  /** What every scraped product satisfies: a non-empty name, already
      trimmed, whose lower-cased form contains the query; the category name
      of the page it came from; and a URL made of the store's base URL and a
      non-empty `href`. */
  predicate WellFormedProduct(categoryUrl: string, query: string, p: Product) {
    && p.name != [] && Trim(p.name) == p.name && Contains(Lower(p.name), query)
    && p.category == CategoryNameFromUrl(categoryUrl)
    && IsPrefix(BaseUrl, p.productUrl) && |p.productUrl| > |BaseUrl|
  }

  lemma KeptRowWellFormed(categoryUrl: string, query: string, link: ListingLink)
    requires Keeps(query, link)
    ensures WellFormedProduct(categoryUrl, query, ToProduct(categoryUrl, link))
  {
    var p := ToProduct(categoryUrl, link);
    assert p.name == Trim(link.title) && p.name != [];
    TrimIdempotent(link.title);
    PrefixOfAppend(BaseUrl, link.href);
  }

  lemma {:induction false} ProductsWellFormed(categoryUrl: string, query: string, links: seq<ListingLink>)
    ensures forall p :: p in ProductsFrom(categoryUrl, query, links) ==> WellFormedProduct(categoryUrl, query, p)
  {
    if links != [] {
      var last := links[|links| - 1];
      ProductsWellFormed(categoryUrl, query, links[..|links| - 1]);
      if Keeps(query, last) {
        KeptRowWellFormed(categoryUrl, query, last);
      }
    }
  }

  /** Every scraped product is well formed, and a failed fetch gives no
      product at all. */
  lemma ScrapedProductsWellFormed(categoryUrl: string, query: string, page: Page)
    ensures page.FetchFailed? ==> PageProducts(categoryUrl, query, page) == []
    ensures forall p :: p in PageProducts(categoryUrl, query, page) ==> WellFormedProduct(categoryUrl, query, p)
  {
    if page.Fetched? {
      ProductsWellFormed(categoryUrl, query, page.links);
    }
  }

  // ---------------------------------------------------------------------
  // Choosing the category page

  /** The order in which `CATEGORY_KEYWORDS.entrySet()` yields its entries:
      `Map.ofEntries` leaves it unspecified, so it is an input, given as a
      permutation of the table's positions. */
  predicate IsIterationOrder(table: seq<(string, string)>, order: seq<nat>) {
    && |order| == |table|
    && (forall k :: 0 <= k < |order| ==> order[k] < |table|)
    && (forall t :: 0 <= t < |table| ==> t in order)
  }

  /** The table position of the first keyword, in iteration order, that the
      normalised query contains. */
  function FirstKeyword(key: string, table: seq<(string, string)>, order: seq<nat>): (r: Option<nat>)
    requires forall k :: 0 <= k < |order| ==> order[k] < |table|
    ensures r.Some? ==> r.value < |table| && Contains(key, table[r.value].0)
  {
    if order == [] then None
    else if Contains(key, table[order[0]].0) then Some(order[0])
    else FirstKeyword(key, table, order[1..])
  }

  /** The first-match search finds nothing exactly when no keyword of the
      table occurs in the query; what it finds is a keyword that occurs in
      the query and that no keyword earlier in the iteration order beats. */
  lemma {:induction false} FirstKeywordCorrect(key: string, table: seq<(string, string)>, order: seq<nat>)
    requires forall k :: 0 <= k < |order| ==> order[k] < |table|
    ensures (forall k :: 0 <= k < |order| ==> !Contains(key, table[order[k]].0)) <==> FirstKeyword(key, table, order) == None
    ensures FirstKeyword(key, table, order).Some? ==>
              exists p :: 0 <= p < |order| && order[p] == FirstKeyword(key, table, order).value &&
                Contains(key, table[order[p]].0) &&
                forall q :: 0 <= q < p ==> !Contains(key, table[order[q]].0)
  {
    if order != [] && !Contains(key, table[order[0]].0) {
      var rest := order[1..];
      FirstKeywordCorrect(key, table, rest);
      if FirstKeyword(key, table, rest).Some? {
        var p :| 0 <= p < |rest| && rest[p] == FirstKeyword(key, table, rest).value &&
          Contains(key, table[rest[p]].0) && forall q :: 0 <= q < p ==> !Contains(key, table[rest[q]].0);
        assert order[p + 1] == rest[p];
        assert forall q :: 0 <= q < p + 1 ==> !Contains(key, table[order[q]].0) by {
          forall q | 0 <= q < p + 1 ensures !Contains(key, table[order[q]].0) {
            if q > 0 {
              assert order[q] == rest[q - 1];
            }
          }
        }
      }
    } else if order != [] {
      assert order[0] == FirstKeyword(key, table, order).value;
    }
  }

  /** Under a complete iteration order, nothing is found exactly when the
      query contains none of the table's keywords. */
  lemma FirstKeywordNoneIff(key: string, table: seq<(string, string)>, order: seq<nat>)
    requires IsIterationOrder(table, order)
    ensures FirstKeyword(key, table, order) == None <==>
              forall t :: 0 <= t < |table| ==> !Contains(key, table[t].0)
  {
    FirstKeywordCorrect(key, table, order);
    if FirstKeyword(key, table, order) == None {
      forall t | 0 <= t < |table| ensures !Contains(key, table[t].0) {
        assert t in order;
        var k :| 0 <= k < |order| && order[k] == t;
      }
    }
  }

  /** The category page a search of `key` scrapes, if any. */
  function CategoryPageFor(key: string, order: seq<nat>): Option<string>
    requires IsIterationOrder(CategoryKeywords, order)
  {
    match FirstKeyword(key, CategoryKeywords, order)
    case None => None
    case Some(t) => Some(BaseUrl + CategoryKeywords[t].1)
  }

  /** The loop over `CATEGORY_KEYWORDS` in `searchProducts`: the page of the
      first keyword, in iteration order, that the query contains. The scrape
      the Java loop does before its `break` is left to the caller. */
  method FindCategoryPage(key: string, order: seq<nat>) returns (url: Option<string>)
    requires IsIterationOrder(CategoryKeywords, order)
    ensures url == CategoryPageFor(key, order)
  {
    url := None;
    for k := 0 to |order|
      invariant FirstKeyword(key, CategoryKeywords, order) == FirstKeyword(key, CategoryKeywords, order[k..])
      invariant url == None
    {
      assert order[k..][1..] == order[k + 1..];
      var entry := CategoryKeywords[order[k]];
      if Contains(key, entry.0) {
        url := Some(BaseUrl + entry.1);
        break;
      }
    }
  }

  /** The products a search of `key` finds when it misses the cache. */
  function Lookup(key: string, order: seq<nat>, fetch: string -> Page): seq<Product>
    requires IsIterationOrder(CategoryKeywords, order)
  {
    match CategoryPageFor(key, order)
    case None => []
    case Some(url) => PageProducts(url, key, fetch(url))
  }

  /** The category pages a search of `key` fetches on a miss: at most one. */
  function PagesFetched(key: string, order: seq<nat>): (r: seq<string>)
    requires IsIterationOrder(CategoryKeywords, order)
  {
    match CategoryPageFor(key, order)
    case None => []
    case Some(url) => [url]
  }

  /** What a miss finds: nothing, without any fetch, when the query holds no
      keyword; otherwise exactly one fetch, of the page of a keyword the
      query holds, and every product found is well formed and carries a real
      category name. */
  lemma LookupCorrect(key: string, order: seq<nat>, fetch: string -> Page)
    requires IsIterationOrder(CategoryKeywords, order)
    ensures |PagesFetched(key, order)| <= 1
    ensures PagesFetched(key, order) == [] <==>
              forall t :: 0 <= t < |CategoryKeywords| ==> !Contains(key, CategoryKeywords[t].0)
    ensures PagesFetched(key, order) == [] ==> Lookup(key, order, fetch) == []
    ensures forall url :: url in PagesFetched(key, order) ==>
              exists t :: 0 <= t < |CategoryKeywords| && Contains(key, CategoryKeywords[t].0) &&
                url == BaseUrl + CategoryKeywords[t].1
    ensures forall p :: p in Lookup(key, order, fetch) ==>
              p.category != OtherCategory &&
              WellFormedProduct(CategoryPageFor(key, order).value, key, p)
  {
    FirstKeywordNoneIff(key, CategoryKeywords, order);
    FirstKeywordCorrect(key, CategoryKeywords, order);
    match CategoryPageFor(key, order)
    case None =>
    case Some(url) =>
      var t := FirstKeyword(key, CategoryKeywords, order).value;
      KeywordPagesAreNamed();
      ScrapedProductsWellFormed(url, key, fetch(url));
  }

  // ---------------------------------------------------------------------
  // The service and its cache

  class ScraperService {
    /** Normalised query to the products last found for it. */
    var cache: map<string, seq<Product>>
    /** Normalised query to the minute its cached products stop being used. */
    var cacheExpiry: map<string, int>
    /** Every category page fetched so far, oldest first. */
    ghost var fetched: seq<string>

    /** The two maps are only ever written together, so they hold the same
        keys. */
    ghost predicate Valid()
      reads this
    {
      cache.Keys == cacheExpiry.Keys
    }

    constructor()
      ensures Valid()
      ensures cache == map[] && cacheExpiry == map[] && fetched == []
    {
      cache := map[];
      cacheExpiry := map[];
      fetched := [];
    }

    /** A cache hit: the key is cached and `now` is strictly before its
        expiry. */
    predicate IsFresh(key: string, now: int)
      reads this
    {
      key in cache && key in cacheExpiry && now < cacheExpiry[key]
    }

    /** What `searchProducts` answers for the normalised `key` in the
        current state: the stored products on a hit, the products a fresh
        lookup finds otherwise. */
    ghost function SearchResult(key: string, now: int, order: seq<nat>, fetch: string -> Page): seq<Product>
      requires IsIterationOrder(CategoryKeywords, order)
      reads this
    {
      if IsFresh(key, now) then cache[key] else Lookup(key, order, fetch)
    }

    /** `searchProducts`. A fresh entry is returned as stored, with no fetch
        and no change to either map. Otherwise at most one category page is
        fetched, and the result, even an empty one, replaces the entry for
        the key with an expiry one hour from now; every other key keeps its
        entry. */
    method SearchProducts(query: string, now: int, order: seq<nat>, fetch: string -> Page)
      returns (results: seq<Product>)
      requires IsIterationOrder(CategoryKeywords, order)
      modifies this
      ensures old(Valid()) ==> Valid()
      ensures results == old(SearchResult(Normalize(query), now, order, fetch))
      ensures var key := Normalize(query);
        if old(IsFresh(key, now)) then
          cache == old(cache) && cacheExpiry == old(cacheExpiry) && fetched == old(fetched)
        else
          && cache == old(cache)[key := results]
          && cacheExpiry == old(cacheExpiry)[key := now + CacheTtlMinutes]
          && fetched == old(fetched) + PagesFetched(key, order)
    {
      var key := Normalize(query);
      if key in cache {
        if key in cacheExpiry && now < cacheExpiry[key] {
          return cache[key];
        }
      }

      results := [];
      var categoryUrl := FindCategoryPage(key, order);
      if categoryUrl.Some? {
        var url := categoryUrl.value;
        fetched := fetched + [url];
        var scraped := ScrapeCategoryPage(url, key, fetch(url));
        results := results + scraped;
      }

      cache := cache[key := results];
      cacheExpiry := cacheExpiry[key := now + CacheTtlMinutes];
    }
  }
}
