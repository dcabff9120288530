# Google Movies scraper: a model of the `Movie` class

`google_movie.py` defines one class, `Movie`. It holds a query language
(`hl`) and a place to search near (`near`). It builds Google Movies request
URLs and walks the listing pages and the detail pages of every movie shown
near that place. For each movie it gathers the name, the description, five
info fields and the theaters with their showtimes.

This project models the string and list logic of that class. The HTTP
requests and the HTML lookups are not modelled. Each fetch is a parameter:
a function from a request URL to what the lookups on the returned page
yield.

- `navbarAt` gives the stripped strings of each `td` of the navigation bar, or `None` when there is no bar.
- `listingAt` gives the `href` of the anchor of each movie-name heading, or `None` for a heading without an anchor.
- `detailAt` gives a `Detail.DetailPage`: the name, the short description, the fragments of the "continued" description, the info line and the theater blocks.

Modules:

- `Wrappers`: `Option`, `Result` and the error cases.
  - `NearUnset`: a URL is built before a search setter ran; the source raises `AttributeError`.
  - `NoMidValue`: a `mid` segment has no `=`; `split('=')[1]` raises `IndexError`.
  - `NoSynopsisText`: the continued-description element has no text; `list(...)[0]` raises `IndexError`.
- `Text`: the Python string builtins the class uses.
  - `str.split` with a one-character separator.
  - `str.strip`, with the `str.isspace` character set.
  - The substring test `t in s`.
  - `str.isdigit` and `int` on ASCII digits.
  - `'{0}'.format` of an integer.
- `Query`: the request URL. `Url` is the builder's concatenation of pieces. `Params` and `Render` give the same URL as a list of `key=value` parameters.
- `Pages`: the digit and dedup loop of `__getPageIndexes`.
- `TimePattern`: the one regular expression, ` &nbsp.*?(\d{2}:\d{2})`, as a hand-written leftmost, lazy scanner. `.` does not match a newline.
- `Detail`: the movie id read from a URL, the info fields, the theaters with their times, and the record of a detail page.
- `GoogleMovie`:
  - The specification functions of the operations (`UrlOf`, `PageIndexesOf`, `MovieLinksOf`, `MovieDetailOf`, `AllMoviesOf`) and the lemmas about them.
  - `class Movie`, whose methods are imperative versions of the source methods. Each method is proved equal to its specification function.

Where the source loops, the model loops too. `CollectPageIndexes`, `GetMovieLinkInOnePage`, `GetMovieLinks`, `GetMovieId`, `AssignInfoFields`, `CollectTimes`, `CollectTheaters` and `GetMovies` are `for` loops with invariants. `MakeUrl` grows the URL step by step. The source has no loop of its own for the showtime search: it calls `time_re.search`. `SearchTime` stands in for the regular-expression engine's scan.

`__getPageIndexes` returns the page numbers in the order in which they first appear in the bar, not sorted. The model follows the code and proves this order.

## Model

| member | source | states |
|---|---|---|
| GoogleMovie.Movie.constructor | google_movie.py:10-14 | the site is `http://www.google.com`, `hl` is the argument (default `en`), and no place is set yet |
| GoogleMovie.Movie.SearchByCoordinates | google_movie.py:16-20 | `near` becomes `latitude + "," + longitude`, replacing any earlier place |
| GoogleMovie.Movie.SearchByLocation | google_movie.py:22-25 | `near` becomes the location verbatim, replacing any earlier place |
| GoogleMovie.Movie.MakeUrl | google_movie.py:27-51 | the URL grown step by step equals `UrlOf` of the object's state; it is `Err(NearUnset)` when no place is set |
| GoogleMovie.NearUnsetFails | google_movie.py:30 | with no place set, every URL, the movie links and the movies fail with `NearUnset`; every movie detail fails too, with the id's error (`NoMidValue`) when the link's `mid` segment has no `=`, and with `NearUnset` otherwise |
| Query.UrlParams | google_movie.py:27-51 | the URL is the listing path followed by the parameters `hl`, `near`, `sort`, then `start`, `mid`, `tid` (each only when given), joined with `&` |
| Query.RenderParams | google_movie.py:29-50 | the parameter list renders as `hl=…&near=…&sort=…`, then `&start=`, `&mid=`, `&tid=` each only when given, in that order |
| Query.UrlDefaults | google_movie.py:35-36 | with every optional argument absent the URL is exactly the prefix followed by `&sort=1` |
| Query.UrlSegments | google_movie.py:27-51 | when no text holds `&`, splitting the URL at `&` gives one segment per parameter, in order; the first is glued to the listing path |
| Query.SplitRender | google_movie.py:103 | `split('&')` of a path followed by rendered parameters gives back each `key=value` text |
| Query.ListingSegments | google_movie.py:56 | the segments of the first listing URL are the path with `hl=…`, then `near=…`, then `sort=1` |
| Query.DetailSegments | google_movie.py:110 | the segments of a detail URL are those of the listing URL, then `mid=…` |
| GoogleMovie.ListingUrlParams | google_movie.py:28-36 | with a place set, the first listing URL is exactly the prefix and `&sort=1`, and it splits into its three segments |
| Pages.CollectPageIndexes | google_movie.py:66-71 | the nested loop over cells and strings computes `PageIndexes` of the bar |
| Pages.PageIndexesSpec | google_movie.py:63-72 | no bar gives no pages; otherwise the pages are exactly the values of the all-digit labels (never a label like `next`), without duplicates, in order of first appearance |
| Pages.DedupSpec | google_movie.py:70-71 | deduplication keeps exactly the input's elements, each once, ordered by first occurrence |
| Pages.NumbersSpec | google_movie.py:69-70 | a label contributes its integer value exactly when it is all digits |
| Pages.CellNumbersSpec | google_movie.py:66-70 | a value comes from the cells exactly when some label of some cell is all digits with that value |
| Pages.PageIndexesExample | google_movie.py:66-71 | the labels `1`, `2`, `3`, `next` give the pages `[1, 2, 3]` |
| GoogleMovie.Movie.GetPageIndexes | google_movie.py:53-72 | the method computes `PageIndexesOf` of the state: the page numbers of the first listing page, or `NearUnset` |
| GoogleMovie.Movie.GetMovieLinkInOnePage | google_movie.py:74-86 | the loop over headings computes `LinksInPageOf`: the site followed by each anchored heading's `href` |
| GoogleMovie.PageLinksSpec | google_movie.py:82-85 | a page has no more links than headings; a link is there exactly when some anchored heading gives it; with every heading anchored there is one link per heading, in order |
| GoogleMovie.PageLinksAppend | google_movie.py:82-85 | the links of consecutive runs of headings are concatenated: heading order is kept whether or not a heading has an anchor |
| GoogleMovie.Movie.GetMovieLinks | google_movie.py:88-97 | the loop over pages computes `MovieLinksOf`: the links of every page, fetched at `start = (page-1)*10`, page after page |
| GoogleMovie.OffsetSpec | google_movie.py:94 | the offset of a page is a multiple of ten that gives the page back, and it is not negative from page 1 on |
| GoogleMovie.LinksOfAppend | google_movie.py:93-96 | the links of consecutive runs of pages are concatenated: page order is kept |
| GoogleMovie.LinksOfSpec | google_movie.py:93-96 | a link is collected exactly when it is a link of one of the pages |
| GoogleMovie.LinksOfCount | google_movie.py:93-96 | pages of `n` links each give `n` links per page in total |
| GoogleMovie.NoNavbarNoMovies | google_movie.py:63-64 | without a navigation bar there are no links and no movies, and this is not an error |
| GoogleMovie.Movie.GetMovieId | google_movie.py:99-106 | the loop over `&`-segments computes `MovieId` of the URL, failing at the first `mid` segment without `=` |
| Detail.MidFromSpec | google_movie.py:102-106 | the id fails exactly when some segment containing `mid` has no `=`; it stays `""` when no segment contains `mid`; otherwise the last such segment decides |
| Detail.SegmentValueSpec | google_movie.py:105 | `split('=')[1]` fails exactly when the segment has no `=`, and a value never holds `=` |
| Detail.SegmentValueOfParam | google_movie.py:105 | the value of a `key=value` segment is `value` |
| Detail.DetailUrlMovieId | google_movie.py:109-110 | the id read back from a detail URL built with `mid` is that `mid`, when no text holds `&` and the id holds no `=` |
| GoogleMovie.Movie.GetMovieDetail | google_movie.py:108-170 | the method computes `MovieDetailOf`: the id from the link, the detail URL for it, and the record of the fetched page |
| Detail.ReadRecord | google_movie.py:118-170 | the reading of a page computes `RecordOf`: name, description, the five info fields and the theaters |
| Detail.AssignInfoFields | google_movie.py:132-147 | after the `enumerate` loop, field `i` is piece `i` for `i < 5`, or `""` past the last piece; later pieces are dropped |
| Detail.InfoOfSpec | google_movie.py:129-147 | field `i` is the stripped `i`-th `-`-piece of the info line or `""`; the length always comes from the first piece; a line without `-` fills only the length |
| Detail.FieldsOfParts | google_movie.py:130-147 | the fields assigned from stripped pieces are the stripped pieces by position, `""` past the end |
| Detail.StripAll | google_movie.py:130 | the comprehension keeps one stripped piece per piece, at the same position |
| TimePattern.SearchTime | google_movie.py:156 | the scanner returns exactly what `Search` specifies |
| TimePattern.SearchSpec | google_movie.py:112 | the search finds a match exactly when one exists, and it is the leftmost with the shortest stretch; the captured time is `DD:DD` |
| TimePattern.SearchFromSpec | google_movie.py:112 | searching from position `i` finds the leftmost match at or after `i`, and for it the shortest stretch |
| TimePattern.LazyFromSpec | google_movie.py:112 | the lazy `.*?` stops at the first clock time not preceded by a newline, and finds none past a newline |
| Detail.CollectTimes | google_movie.py:153-158 | the loop over spans computes `ShowTimes` of the span texts |
| Detail.ShowTimesSpec | google_movie.py:155-158 | at most one time per span, each a `DD:DD` string; spans that do not match add nothing |
| Detail.ShowTimesAppend | google_movie.py:155-158 | the times of consecutive runs of spans are concatenated: span order is kept |
| Detail.OneMatchingSpan | google_movie.py:155-158 | a matching and a non-matching span give exactly the one time, in either order |
| Detail.CollectTheaters | google_movie.py:149-161 | the loop over theater blocks computes `TheatersOf` of the blocks |
| Detail.TheatersOfSpec | google_movie.py:149-161 | one theater per block, in page order, each with its own name, address and times |
| GoogleMovie.Movie.GetMovies | google_movie.py:172-179 | the loop over links computes `AllMoviesOf`, stopping at the first failing detail |
| GoogleMovie.MoviesOfSpec | google_movie.py:176-179 | the movies succeed exactly when every link's detail does; then there is one record per link, in order, duplicates kept; otherwise the error is that of the first failing link |
| Lists.CollectSpec | google_movie.py:176-178 | collecting results succeeds exactly when all succeed, keeping every value in order, and otherwise returns the first failure |
| Lists.ConcatMapAppend | google_movie.py:96 | `extend` over consecutive runs of items concatenates their lists |
| Lists.ConcatMapMember | google_movie.py:96 | an element is in the extended list exactly when it is in the list of one of the items |
| Lists.ConcatMapLength | google_movie.py:96 | items of `n` elements each give `n` elements per item |
| Text.SplitPieces | google_movie.py:103 | no piece of `split(sep)` holds the separator, and joining the pieces with it gives back the text |
| Text.SplitSingle | google_movie.py:130 | `split` gives the text itself as the only piece when the separator is absent, and at least two pieces otherwise |
| Text.SplitAround | google_movie.py:103 | splitting at a separator splits the two sides independently |
| Text.SplitJoin | google_movie.py:103 | `split` undoes joining pieces that do not hold the separator |
| Text.IndexOfSpec | google_movie.py:105 | the first separator is found: none comes before it |
| Text.StripSpec | google_movie.py:130 | `strip` cuts a run of whitespace from each end and leaves a text that neither begins nor ends with whitespace |
| Text.ContainsSpec | google_movie.py:104 | `t in s` holds exactly when `t` occurs in `s` at some offset |
| Text.NatToStringSpec | google_movie.py:42 | a natural number is written as digits without a leading zero that read back as the number |
| Text.IntToStringSpec | google_movie.py:38 | an integer is written as its digits without a leading zero, with a leading `-` when negative, and reads back as the integer |

## Left out

- HTTP requests (`requests.get`) and HTML parsing (BeautifulSoup `find`, `find_all`, `get_text`, `stripped_strings`): these are network I/O and a foreign library. They are the fetch parameters `navbarAt`, `listingAt` and `detailAt`, which are total functions of the URL. Network failures are not modelled.
- When a required HTML element is missing (the name heading, the description span, the info block, or a theater's name, address or times element), the source raises `AttributeError`. A `DetailPage` always holds these parts, so that error path is not modelled.
- An anchor without `href` raises `KeyError` in the source. `listingAt` yields the `href` text of each anchor, so that case is not modelled.
- GoogleMovie.Movie.SearchByCoordinates: takes the two coordinates as the strings `'{0}'.format` makes of them. Python's float-to-text formatting is not modelled.
- `str.isdigit` and the regular expression's `\d` are restricted to the ASCII digits `0`–`9`. Python also accepts other Unicode digits. For a character such as `²`, Python's `isdigit()` is true but `int(text)` raises `ValueError`. The model skips such a label instead of raising.
- The regular-expression engine is not modelled in general. Only the one fixed pattern is, as a scanner.
- `sort` and `start` are integers written with `'{0}'.format`. Other Python values that could be passed to `__makeUrl` are not modelled.
- `main()` is a hard-coded usage example and is not part of this model.
