/** The `Movie` scraper: an object holding the query language and the
    place to search near, the URL builder, and the walk over listing pages
    and detail pages that gathers every movie shown near that place.

    The HTTP requests and the HTML lookups are not modelled; each fetch
    is a parameter that gives, for a request URL, what the lookups on the
    returned page yield:
      - `navbarAt`: the stripped strings of each `td` of the navigation
        bar of a listing page, or `None` when the page has none;
      - `listingAt`: for each movie-name heading of a listing page, the
        `href` of its anchor, or `None` when the heading has no anchor;
      - `detailAt`: the parts of a detail page (see `Detail.DetailPage`). */
module GoogleMovie {
  import opened Wrappers
  import opened Text
  import opened Query
  import opened Pages
  import opened Detail
  import opened Lists

  /** The site every request goes to. */
  const BaseUrl: string := "http://www.google.com"

  /** What a `Movie` object holds: the site, the language and, once one of
      the two search setters has run, the place to search near. */
  datatype Config = Config(base: string, hl: string, near: Option<string>)

  // ---------------------------------------------------------------------
  // Specification of the operations

  /** `__makeUrl`, failing when no place has been set. */
  function UrlOf(c: Config, sort: Option<int>, start: Option<int>, mid: Option<string>, tid: Option<string>)
    : Result<string, Error>
  {
    if c.near.None? then Err(NearUnset) else Ok(Url(c.base, c.hl, c.near.value, sort, start, mid, tid))
  }

  /** The value of `start` that selects listing page `page` (pages hold ten movies). */
  function Offset(page: int): int {
    (page - 1) * 10
  }

  /** The offset of a page is a multiple of ten that gives the page back,
      and it is not negative for a page number of at least one. */
  lemma OffsetSpec(page: int)
    ensures Offset(page) % 10 == 0 && Offset(page) / 10 + 1 == page
    ensures page >= 1 ==> Offset(page) >= 0
  {
  }

  /** `__getPageIndexes`. */
  function PageIndexesOf(c: Config, navbarAt: string -> Option<seq<seq<string>>>): Result<seq<int>, Error> {
    match UrlOf(c, None, None, None, None)
    case Err(e) => Err(e)
    case Ok(u) => Ok(PageIndexes(navbarAt(u)))
  }

  /** The site followed by the `href` of each heading that has an anchor, in page order. */
  function PageLinks(base: string, anchors: seq<Option<string>>): seq<string> {
    if |anchors| == 0 then []
    else
      var a := anchors[|anchors| - 1];
      PageLinks(base, anchors[..|anchors| - 1]) + (if a.Some? then [base + a.value] else [])
  }

  /** `__getMovieLinkInOnePage(start)`. */
  function LinksInPageOf(c: Config, start: int, listingAt: string -> seq<Option<string>>): Result<seq<string>, Error> {
    match UrlOf(c, None, Some(start), None, None)
    case Err(e) => Err(e)
    case Ok(u) => Ok(PageLinks(c.base, listingAt(u)))
  }

  /** The links of listing page `page` for a request near `near`. */
  function PageLinksAt(c: Config, near: string, page: int, listingAt: string -> seq<Option<string>>): seq<string> {
    PageLinks(c.base, listingAt(Url(c.base, c.hl, near, None, Some(Offset(page)), None, None)))
  }

  /** The links of the given pages, page after page. */
  function LinksOf(c: Config, pages: seq<int>, listingAt: string -> seq<Option<string>>): seq<string>
    requires c.near.Some?
  {
    ConcatMap(pages, page => PageLinksAt(c, c.near.value, page, listingAt))
  }

  /** `getMovieLinks`. */
  function MovieLinksOf(c: Config, navbarAt: string -> Option<seq<seq<string>>>, listingAt: string -> seq<Option<string>>)
    : Result<seq<string>, Error>
  {
    match PageIndexesOf(c, navbarAt)
    case Err(e) => Err(e)
    case Ok(pages) => Ok(LinksOf(c, pages, listingAt))
  }

  /** `getMovieDetail(link)`: the id read from the link, the detail URL
      for that id, and the record of the page fetched from it. */
  function MovieDetailOf(c: Config, link: string, detailAt: string -> DetailPage): Result<MovieRecord, Error> {
    match MovieId(link)
    case Err(e) => Err(e)
    case Ok(mid) =>
      match UrlOf(c, None, None, Some(mid), None)
      case Err(e) => Err(e)
      case Ok(u) => RecordOf(detailAt(u))
  }

  /** The detail of each link. */
  function DetailsOf(c: Config, links: seq<string>, detailAt: string -> DetailPage): seq<Result<MovieRecord, Error>> {
    seq(|links|, i requires 0 <= i < |links| => MovieDetailOf(c, links[i], detailAt))
  }

  /** The records of the given links in order, stopping at the first failure. */
  function MoviesOf(c: Config, links: seq<string>, detailAt: string -> DetailPage): Result<seq<MovieRecord>, Error> {
    Collect(DetailsOf(c, links, detailAt))
  }

  /** `getMovies`. */
  function AllMoviesOf(c: Config, navbarAt: string -> Option<seq<seq<string>>>,
                       listingAt: string -> seq<Option<string>>, detailAt: string -> DetailPage)
    : Result<seq<MovieRecord>, Error>
  {
    match MovieLinksOf(c, navbarAt, listingAt)
    case Err(e) => Err(e)
    case Ok(links) => MoviesOf(c, links, detailAt)
  }

  // ---------------------------------------------------------------------
  // Properties of the specification

  /** Every operation that builds a URL fails while no place is set. A
      movie detail reads the id first, so a link whose `mid` segment has no
      `=` fails with that error before the URL is built. */
  lemma NearUnsetFails(c: Config, navbarAt: string -> Option<seq<seq<string>>>,
                       listingAt: string -> seq<Option<string>>, detailAt: string -> DetailPage)
    requires c.near.None?
    ensures forall sort, start, mid, tid :: UrlOf(c, sort, start, mid, tid) == Err(NearUnset)
    ensures MovieLinksOf(c, navbarAt, listingAt) == Err(NearUnset)
    ensures AllMoviesOf(c, navbarAt, listingAt, detailAt) == Err(NearUnset)
    ensures forall link :: MovieDetailOf(c, link, detailAt).Err?
    ensures forall link :: MovieId(link).Ok? ==> MovieDetailOf(c, link, detailAt) == Err(NearUnset)
    ensures forall link :: MovieId(link).Err? ==> MovieDetailOf(c, link, detailAt) == Err(MovieId(link).error)
  {
  }

  /** With a place set, the first listing URL is exactly the listing path,
      `hl`, `near` and the default `sort`, and splitting it at `&` gives
      back those three parameters, provided none of the texts holds `&`. */
  lemma ListingUrlParams(c: Config)
    requires c.near.Some?
    requires '&' !in ListingPath(c.base) && '&' !in c.hl && '&' !in c.near.value
    ensures UrlOf(c, None, None, None, None)
      == Ok(ListingPath(c.base) + ("hl=" + c.hl + "&near=" + c.near.value + "&sort=1"))
    ensures Split(UrlOf(c, None, None, None, None).value, '&')
      == [ListingPath(c.base) + ("hl=" + c.hl), "near=" + c.near.value, "sort=1"]
  {
    UrlDefaults(c.base, c.hl, c.near.value);
    ListingSegments(c.base, c.hl, c.near.value);
  }

  /** A page's links are the site followed by the `href`s of its anchored
      headings: no more links than headings, one per heading when every
      heading has an anchor, in heading order. */
  lemma {:induction false} PageLinksSpec(base: string, anchors: seq<Option<string>>)
    ensures |PageLinks(base, anchors)| <= |anchors|
    ensures forall link :: link in PageLinks(base, anchors) <==>
      exists i :: 0 <= i < |anchors| && anchors[i].Some? && link == base + anchors[i].value
    ensures (forall i :: 0 <= i < |anchors| ==> anchors[i].Some?) ==>
      |PageLinks(base, anchors)| == |anchors|
      && forall i :: 0 <= i < |anchors| ==> PageLinks(base, anchors)[i] == base + anchors[i].value
  {
    if |anchors| > 0 {
      var init := anchors[..|anchors| - 1];
      PageLinksSpec(base, init);
      assert forall i :: 0 <= i < |init| ==> init[i] == anchors[i];
    }
  }

  /** The links of consecutive runs of headings follow each other: the
      links keep heading order whether or not a heading has an anchor. */
  lemma {:induction false} PageLinksAppend(base: string, a: seq<Option<string>>, b: seq<Option<string>>)
    ensures PageLinks(base, a + b) == PageLinks(base, a) + PageLinks(base, b)
  {
    if |b| == 0 {
      assert a + b == a;
    } else {
      PageLinksAppend(base, a, b[..|b| - 1]);
      assert (a + b)[..|a + b| - 1] == a + b[..|b| - 1];
    }
  }

  /** The links of consecutive runs of pages follow each other: the links
      keep page order. */
  lemma LinksOfAppend(c: Config, a: seq<int>, b: seq<int>, listingAt: string -> seq<Option<string>>)
    requires c.near.Some?
    ensures LinksOf(c, a + b, listingAt) == LinksOf(c, a, listingAt) + LinksOf(c, b, listingAt)
  {
    ConcatMapAppend(a, b, page => PageLinksAt(c, c.near.value, page, listingAt));
  }

  /** A link is collected exactly when it is a link of one of the pages. */
  lemma LinksOfSpec(c: Config, pages: seq<int>, listingAt: string -> seq<Option<string>>)
    requires c.near.Some?
    ensures forall link :: link in LinksOf(c, pages, listingAt) <==>
      exists i :: 0 <= i < |pages| && link in PageLinksAt(c, c.near.value, pages[i], listingAt)
  {
    ConcatMapMember(pages, page => PageLinksAt(c, c.near.value, page, listingAt));
  }

  /** Pages of `n` links each give `n` links per page. */
  lemma LinksOfCount(c: Config, pages: seq<int>, listingAt: string -> seq<Option<string>>, n: nat)
    requires c.near.Some?
    requires forall i :: 0 <= i < |pages| ==> |PageLinksAt(c, c.near.value, pages[i], listingAt)| == n
    ensures |LinksOf(c, pages, listingAt)| == |pages| * n
  {
    ConcatMapLength(pages, page => PageLinksAt(c, c.near.value, page, listingAt), n);
  }

  /** Without a navigation bar on the first page there are no links and so no movies. */
  lemma NoNavbarNoMovies(c: Config, navbarAt: string -> Option<seq<seq<string>>>,
                         listingAt: string -> seq<Option<string>>, detailAt: string -> DetailPage)
    requires c.near.Some? && navbarAt(UrlOf(c, None, None, None, None).value).None?
    ensures MovieLinksOf(c, navbarAt, listingAt) == Ok([])
    ensures AllMoviesOf(c, navbarAt, listingAt, detailAt) == Ok([])
  {
  }

  /** The movies succeed exactly when every link's detail does; then there
      is one record per link, in link order (a link listed twice gives two
      records), and otherwise the error is that of the first failing link. */
  lemma MoviesOfSpec(c: Config, links: seq<string>, detailAt: string -> DetailPage)
    ensures MoviesOf(c, links, detailAt).Ok? <==> forall i :: 0 <= i < |links| ==> MovieDetailOf(c, links[i], detailAt).Ok?
    ensures MoviesOf(c, links, detailAt).Ok? ==>
      |MoviesOf(c, links, detailAt).value| == |links|
      && forall i :: 0 <= i < |links| ==> MoviesOf(c, links, detailAt).value[i] == MovieDetailOf(c, links[i], detailAt).value
    ensures MoviesOf(c, links, detailAt).Err? ==>
      exists i :: 0 <= i < |links| && MovieDetailOf(c, links[i], detailAt).Err?
        && MoviesOf(c, links, detailAt).error == MovieDetailOf(c, links[i], detailAt).error
        && forall j :: 0 <= j < i ==> MovieDetailOf(c, links[j], detailAt).Ok?
  {
    var details := DetailsOf(c, links, detailAt);
    assert |details| == |links|;
    assert forall i :: 0 <= i < |links| ==> details[i] == MovieDetailOf(c, links[i], detailAt);
    CollectSpec(details);
  }

  // ---------------------------------------------------------------------
  // The object

  class Movie {
    const baseUrl: string
    /** The language the queries ask for. */
    const hl: string
    /** The place to search near; `None` until a search setter runs. */
    var near: Option<string>

    /** `Movie(hl='en')`. */
    constructor(hl: string := "en")
      ensures baseUrl == BaseUrl && this.hl == hl && near == None
    {
      baseUrl := BaseUrl;
      this.hl := hl;
      near := None;
    }

    /** What the object currently holds. */
    function State(): Config
      reads this
    {
      Config(baseUrl, hl, near)
    }

    /** `searchByCoordinates`, given the two coordinates as they are formatted. */
    method SearchByCoordinates(latitude: string, longitude: string)
      modifies this
      ensures near == Some(latitude + "," + longitude)
    {
      near := Some(latitude + "," + longitude);
    }

    /** `searchByLocation`. */
    method SearchByLocation(location: string)
      modifies this
      ensures near == Some(location)
    {
      near := Some(location);
    }

    /** `__makeUrl`: the URL grown piece by piece, each optional parameter
        appended only when it is supplied. */
    method MakeUrl(sort: Option<int>, start: Option<int>, mid: Option<string>, tid: Option<string>)
      returns (r: Result<string, Error>)
      ensures r == UrlOf(State(), sort, start, mid, tid)
    {
      var url := baseUrl + "/movies?";
      url := url + ("hl=" + hl);
      if near.None? {
        return Err(NearUnset);
      }
      url := url + ("&near=" + near.value);
      ghost var grown := ListingPath(baseUrl) + ("hl=" + hl) + ("&near=" + near.value);
      assert url == grown;
      if sort.None? {
        url := url + "&sort=1";
      } else {
        url := url + ("&sort=" + IntToString(sort.value));
      }
      grown := grown + ("&sort=" + SortText(sort));
      assert url == grown;
      if start.Some? {
        url := url + ("&start=" + IntToString(start.value));
        assert "&start=" + IntToString(start.value) == Suffix("start", OptionalNumber(start)) by {
          SuffixTexts(IntToString(start.value));
        }
      }
      grown := grown + Suffix("start", OptionalNumber(start));
      assert url == grown;
      if mid.Some? {
        url := url + ("&mid=" + mid.value);
        assert "&mid=" + mid.value == Suffix("mid", mid) by {
          SuffixTexts(mid.value);
        }
      }
      grown := grown + Suffix("mid", mid);
      assert url == grown;
      if tid.Some? {
        url := url + ("&tid=" + tid.value);
        assert "&tid=" + tid.value == Suffix("tid", tid) by {
          SuffixTexts(tid.value);
        }
      }
      grown := grown + Suffix("tid", tid);
      assert url == grown;
      return Ok(url);
    }

    /** `__getPageIndexes`: the navigation bar of the first listing page. */
    method GetPageIndexes(navbarAt: string -> Option<seq<seq<string>>>) returns (r: Result<seq<int>, Error>)
      ensures r == PageIndexesOf(State(), navbarAt)
    {
      var url := MakeUrl(None, None, None, None);
      if url.Err? {
        return Err(url.error);
      }
      var pages := CollectPageIndexes(navbarAt(url.value));
      return Ok(pages);
    }

    /** `__getMovieLinkInOnePage`. */
    method GetMovieLinkInOnePage(start: int, listingAt: string -> seq<Option<string>>) returns (r: Result<seq<string>, Error>)
      ensures r == LinksInPageOf(State(), start, listingAt)
    {
      var url := MakeUrl(None, Some(start), None, None);
      if url.Err? {
        return Err(url.error);
      }
      var anchors := listingAt(url.value);
      var links := [];
      for i := 0 to |anchors|
        invariant links == PageLinks(baseUrl, anchors[..i])
      {
        assert anchors[..i + 1][..i] == anchors[..i];
        var a := anchors[i];
        if a.Some? {
          links := links + [baseUrl + a.value];
        }
      }
      assert anchors[..|anchors|] == anchors;
      return Ok(links);
    }

    /** `getMovieLinks`: the links of every page, page after page. */
    method GetMovieLinks(navbarAt: string -> Option<seq<seq<string>>>, listingAt: string -> seq<Option<string>>)
      returns (r: Result<seq<string>, Error>)
      ensures r == MovieLinksOf(State(), navbarAt, listingAt)
    {
      var pr := GetPageIndexes(navbarAt);
      if pr.Err? {
        return Err(pr.error);
      }
      var pages := pr.value;
      var links := [];
      for k := 0 to |pages|
        invariant links == LinksOf(State(), pages[..k], listingAt)
      {
        assert pages[..k + 1][..k] == pages[..k];
        var start := (pages[k] - 1) * 10;
        var pageLinks := GetMovieLinkInOnePage(start, listingAt);
        links := links + pageLinks.value;
      }
      assert pages[..|pages|] == pages;
      return Ok(links);
    }

    /** `__getMovieId`: the value of the last segment naming `mid`. */
    method GetMovieId(url: string) returns (r: Result<string, Error>)
      ensures r == MovieId(url)
    {
      var segments := Split(url, '&');
      var mid := "";
      for i := 0 to |segments|
        invariant MidFrom(segments, "") == MidFrom(segments[i..], mid)
      {
        assert segments[i..][1..] == segments[i + 1..];
        var segment := segments[i];
        if Contains(segment, "mid") {
          var value := SegmentValue(segment);
          if value.Err? {
            return value;
          }
          mid := value.value;
        }
      }
      return Ok(mid);
    }

    /** `getMovieDetail`. */
    method GetMovieDetail(url: string, detailAt: string -> DetailPage) returns (r: Result<MovieRecord, Error>)
      ensures r == MovieDetailOf(State(), url, detailAt)
    {
      var mid := GetMovieId(url);
      if mid.Err? {
        return Err(mid.error);
      }
      var detailUrl := MakeUrl(None, None, Some(mid.value), None);
      if detailUrl.Err? {
        return Err(detailUrl.error);
      }
      var page := detailAt(detailUrl.value);
      r := ReadRecord(page);
    }

    /** `getMovies`: the detail of every link, in link order. */
    method GetMovies(navbarAt: string -> Option<seq<seq<string>>>, listingAt: string -> seq<Option<string>>,
                     detailAt: string -> DetailPage)
      returns (r: Result<seq<MovieRecord>, Error>)
      ensures r == AllMoviesOf(State(), navbarAt, listingAt, detailAt)
    {
      var lr := GetMovieLinks(navbarAt, listingAt);
      if lr.Err? {
        return Err(lr.error);
      }
      var links := lr.value;
      ghost var details := DetailsOf(State(), links, detailAt);
      var movies := [];
      assert Collect(details) == Prepend(movies, Collect(details[0..])) by {
        assert details[0..] == details;
        PrependNothing(Collect(details));
      }
      for i := 0 to |links|
        invariant Collect(details) == Prepend(movies, Collect(details[i..]))
      {
        var movie := GetMovieDetail(links[i], detailAt);
        assert Collect(details[i..]) == match movie
          case Err(e) => Err(e)
          case Ok(m) => Prepend([m], Collect(details[i + 1..]))
        by {
          assert details[i..][0] == details[i] == movie;
          assert details[i..][1..] == details[i + 1..];
        }
        if movie.Err? {
          return Err(movie.error);
        }
        PrependPrepend(movies, [movie.value], Collect(details[i + 1..]));
        movies := movies + [movie.value];
      }
      assert movies + [] == movies;
      return Ok(movies);
    }
  }
}
