/** What `Movie.getMovieDetail` extracts from a detail page once the HTML
    lookups are done: the movie id recovered from a listing link, the
    description, the five dash-separated info fields and, per theater,
    the showtimes found by the time pattern. */
module Detail {
  import opened Wrappers
  import opened Text
  import opened TimePattern
  import opened Query

  // ---------------------------------------------------------------------
  // Movie id (`__getMovieId`)

  /** Whether a `&`-separated segment of a link is taken to carry the movie id. */
  predicate IsMidSegment(segment: string) {
    Contains(segment, "mid")
  }

  /** `segment.split('=')[1]`, raising when there is no second piece. */
  function SegmentValue(segment: string): Result<string, Error> {
    var parts := Split(segment, '=');
    if |parts| < 2 then Err(NoMidValue) else Ok(parts[1])
  }

  /** The loop of `__getMovieId` from the given segments onwards, `mid`
      being the value found so far. */
  function MidFrom(segments: seq<string>, mid: string): Result<string, Error> {
    if |segments| == 0 then Ok(mid)
    else if IsMidSegment(segments[0]) then
      match SegmentValue(segments[0])
      case Err(e) => Err(e)
      case Ok(v) => MidFrom(segments[1..], v)
    else MidFrom(segments[1..], mid)
  }

  /** `__getMovieId(url)`. */
  function MovieId(url: string): Result<string, Error> {
    MidFrom(Split(url, '&'), "")
  }

  /** A segment's value fails exactly when the segment has no `=`, and a
      value never holds `=`. A `key=value` segment gives back its value. */
  lemma SegmentValueSpec(segment: string)
    ensures SegmentValue(segment).Err? <==> '=' !in segment
    ensures SegmentValue(segment).Ok? ==> '=' !in SegmentValue(segment).value
  {
    SplitSingle(segment, '=');
    SplitPieces(segment, '=');
  }

  lemma SegmentValueOfParam(key: string, value: string)
    requires '=' !in key && '=' !in value
    ensures SegmentValue(key + "=" + value) == Ok(value)
  {
    assert key + "=" + value == key + ['='] + value;
    SplitAround(key, value, '=');
    SplitSingle(key, '=');
    SplitSingle(value, '=');
  }

  /** The loop fails exactly when some `mid` segment has no value; it keeps
      `mid` when no segment is a `mid` segment; otherwise the last `mid`
      segment decides the result. */
  lemma {:induction false} MidFromSpec(segments: seq<string>, mid: string)
    ensures MidFrom(segments, mid).Err? <==>
      exists i :: 0 <= i < |segments| && IsMidSegment(segments[i]) && SegmentValue(segments[i]).Err?
    ensures (forall i :: 0 <= i < |segments| ==> !IsMidSegment(segments[i])) ==> MidFrom(segments, mid) == Ok(mid)
    ensures forall j ::
      (&& 0 <= j < |segments| && IsMidSegment(segments[j])
       && (forall i :: j < i < |segments| ==> !IsMidSegment(segments[i]))
       && MidFrom(segments, mid).Ok?)
      ==> MidFrom(segments, mid) == SegmentValue(segments[j])
  {
    if |segments| > 0 {
      var rest := segments[1..];
      assert forall i :: 1 <= i < |segments| ==> segments[i] == rest[i - 1];
      var next := if IsMidSegment(segments[0]) && SegmentValue(segments[0]).Ok? then SegmentValue(segments[0]).value else mid;
      MidFromSpec(rest, next);
      if IsMidSegment(segments[0]) && SegmentValue(segments[0]).Err? {
        assert MidFrom(segments, mid).Err?;
      } else {
        assert MidFrom(segments, mid) == MidFrom(rest, next);
        forall j | 1 <= j < |segments| && IsMidSegment(segments[j])
          && (forall i :: j < i < |segments| ==> !IsMidSegment(segments[i]))
          && MidFrom(segments, mid).Ok?
          ensures MidFrom(segments, mid) == SegmentValue(segments[j])
        {
          assert IsMidSegment(rest[j - 1]);
          assert forall i :: j - 1 < i < |rest| ==> !IsMidSegment(rest[i]) by {
            forall i | j - 1 < i < |rest| ensures !IsMidSegment(rest[i]) {
              assert rest[i] == segments[i + 1];
            }
          }
        }
        if IsMidSegment(segments[0]) {
          if forall i :: 0 < i < |segments| ==> !IsMidSegment(segments[i]) {
            assert forall i :: 0 <= i < |rest| ==> !IsMidSegment(rest[i]) by {
              forall i | 0 <= i < |rest| ensures !IsMidSegment(rest[i]) {
                assert rest[i] == segments[i + 1];
              }
            }
          }
        }
        if exists i :: 0 <= i < |segments| && IsMidSegment(segments[i]) && SegmentValue(segments[i]).Err? {
          var i :| 0 <= i < |segments| && IsMidSegment(segments[i]) && SegmentValue(segments[i]).Err?;
          assert i > 0 && IsMidSegment(rest[i - 1]) && SegmentValue(rest[i - 1]).Err?;
        }
      }
    }
  }

  /** Segments that all hold `=` and end with `mid=<mid>` give `mid`. */
  lemma MidFromLastSegment(segments: seq<string>, mid: string)
    requires |segments| >= 1 && forall i :: 0 <= i < |segments| ==> '=' in segments[i]
    requires segments[|segments| - 1] == "mid=" + mid && '=' !in mid
    ensures MidFrom(segments, "") == Ok(mid)
  {
    var last := |segments| - 1;
    forall i | 0 <= i < |segments| ensures SegmentValue(segments[i]).Ok? {
      SegmentValueSpec(segments[i]);
    }
    assert IsMidSegment(segments[last]) by {
      ContainsSpec(segments[last], "mid");
      assert OccursAt(segments[last], "mid", 0);
    }
    assert "mid=" + mid == "mid" + "=" + mid;
    SegmentValueOfParam("mid", mid);
    MidFromSpec(segments, "");
  }

  /** Each segment of a detail URL holds `=`. */
  lemma DetailSegmentsKeyed(pre: string, hl: string, near: string, mid: string)
    ensures var segments := [pre + ("hl=" + hl), "near=" + near, "sort=1", "mid=" + mid];
      forall i :: 0 <= i < |segments| ==> '=' in segments[i]
  {
    var segments := [pre + ("hl=" + hl), "near=" + near, "sort=1", "mid=" + mid];
    assert segments[0][|pre| + 2] == '=';
    assert segments[1][4] == '=';
    assert segments[2][4] == '=';
    assert segments[3][3] == '=';
  }

  /** The movie-id round trip of `getMovieDetail`: the id read back from a
      detail URL built with `mid` is that `mid`, as long as neither the
      listing path, `hl`, `near` nor the id hold `&` and the id holds no `=`. */
  lemma DetailUrlMovieId(base: string, hl: string, near: string, mid: string)
    requires '&' !in ListingPath(base) && '&' !in hl && '&' !in near
    requires '&' !in mid && '=' !in mid
    ensures MovieId(Url(base, hl, near, None, None, Some(mid), None)) == Ok(mid)
  {
    var segments := [ListingPath(base) + ("hl=" + hl), "near=" + near, "sort=1", "mid=" + mid];
    DetailSegments(base, hl, near, mid);
    DetailSegmentsKeyed(ListingPath(base), hl, near, mid);
    MidFromLastSegment(segments, mid);
  }

  // ---------------------------------------------------------------------
  // Info fields

  /** The five fields of the dash-separated info line. */
  datatype Info = Info(length: string, genre: string, language: string, subtitle: string, actors: string)

  /** The field at position `i` of the info line. */
  function Field(info: Info, i: nat): string
    requires i < 5
  {
    if i == 0 then info.length
    else if i == 1 then info.genre
    else if i == 2 then info.language
    else if i == 3 then info.subtitle
    else info.actors
  }

  /** Every piece stripped of surrounding whitespace. */
  function StripAll(parts: seq<string>): (r: seq<string>)
    ensures |r| == |parts|
    ensures forall i :: 0 <= i < |parts| ==> r[i] == Strip(parts[i])
  {
    if |parts| == 0 then [] else [Strip(parts[0])] + StripAll(parts[1..])
  }

  /** `[info.strip() for info in infos.split('-')]`. */
  function InfoPieces(infos: string): seq<string> {
    StripAll(Split(infos, '-'))
  }

  function PieceOr(pieces: seq<string>, i: nat): string {
    if i < |pieces| then pieces[i] else ""
  }

  /** The fields assigned from the pieces, positionally. */
  function InfoFromPieces(p: seq<string>): Info {
    Info(PieceOr(p, 0), PieceOr(p, 1), PieceOr(p, 2), PieceOr(p, 3), PieceOr(p, 4))
  }

  lemma FieldOfPieces(p: seq<string>, i: nat)
    requires i < 5
    ensures Field(InfoFromPieces(p), i) == PieceOr(p, i)
  {
  }

  /** Field `i` of the fields assigned from stripped pieces is the
      stripped piece `i`, or empty past the last piece. */
  lemma FieldsOfParts(parts: seq<string>)
    ensures forall i :: 0 <= i < 5 ==>
      Field(InfoFromPieces(StripAll(parts)), i) == if i < |parts| then Strip(parts[i]) else ""
  {
    var p := StripAll(parts);
    forall i | 0 <= i < 5
      ensures Field(InfoFromPieces(p), i) == if i < |parts| then Strip(parts[i]) else ""
    {
      assert Field(InfoFromPieces(p), i) == PieceOr(p, i) by {
        FieldOfPieces(p, i);
      }
    }
  }

  /** The fields `getMovieDetail` assigns from the info line. */
  function InfoOf(infos: string): Info {
    InfoFromPieces(InfoPieces(infos))
  }

  /** The `enumerate` loop of `getMovieDetail`: every field starts empty,
      the piece at position `i < 5` goes to field `i`, later pieces are dropped. */
  method AssignInfoFields(movieInfo: seq<string>) returns (info: Info)
    ensures info == InfoFromPieces(movieInfo)
    ensures forall i :: 0 <= i < 5 ==> Field(info, i) == if i < |movieInfo| then movieInfo[i] else ""
  {
    info := Info("", "", "", "", "");
    for counter := 0 to |movieInfo|
      invariant info.length == if 0 < counter then movieInfo[0] else ""
      invariant info.genre == if 1 < counter then movieInfo[1] else ""
      invariant info.language == if 2 < counter then movieInfo[2] else ""
      invariant info.subtitle == if 3 < counter then movieInfo[3] else ""
      invariant info.actors == if 4 < counter then movieInfo[4] else ""
    {
      var text := movieInfo[counter];
      if counter == 0 {
        info := info.(length := text);
      } else if counter == 1 {
        info := info.(genre := text);
      } else if counter == 2 {
        info := info.(language := text);
      } else if counter == 3 {
        info := info.(subtitle := text);
      } else if counter == 4 {
        info := info.(actors := text);
      }
    }
    forall i | 0 <= i < 5
      ensures Field(info, i) == if i < |movieInfo| then movieInfo[i] else ""
    {
      FieldOfPieces(movieInfo, i);
    }
  }

  /** Field `i` is the stripped `i`-th dash-separated piece, or empty when
      the line has fewer pieces; the length always comes from the first piece. */
  lemma InfoOfSpec(infos: string)
    ensures forall i :: 0 <= i < 5 ==>
      Field(InfoOf(infos), i) == if i < |Split(infos, '-')| then Strip(Split(infos, '-')[i]) else ""
    ensures InfoOf(infos).length == Strip(Split(infos, '-')[0])
    ensures '-' !in infos ==> InfoOf(infos) == Info(Strip(infos), "", "", "", "")
  {
    FieldsOfParts(Split(infos, '-'));
    if '-' !in infos {
      SplitSingle(infos, '-');
    }
  }

  // ---------------------------------------------------------------------
  // Theaters and showtimes

  /** A theater block of the page: its name, its address and the text of
      each `span` of its times element. */
  datatype TheaterBlock = TheaterBlock(name: string, address: string, spanTexts: seq<string>)

  datatype Theater = Theater(name: string, address: string, times: seq<string>)

  /** The times found in the span texts, at most one per span, in span order. */
  function ShowTimes(spanTexts: seq<string>): seq<string> {
    if |spanTexts| == 0 then []
    else
      var t := FindTime(spanTexts[|spanTexts| - 1]);
      ShowTimes(spanTexts[..|spanTexts| - 1]) + (if t.Some? then [t.value] else [])
  }

  function TheaterOf(block: TheaterBlock): Theater {
    Theater(block.name, block.address, ShowTimes(block.spanTexts))
  }

  function TheatersOf(blocks: seq<TheaterBlock>): seq<Theater> {
    if |blocks| == 0 then [] else TheatersOf(blocks[..|blocks| - 1]) + [TheaterOf(blocks[|blocks| - 1])]
  }

  /** Every showtime is a `DD:DD` string, there is at most one per span,
      and a span whose text does not match adds nothing. */
  lemma {:induction false} ShowTimesSpec(spanTexts: seq<string>)
    ensures |ShowTimes(spanTexts)| <= |spanTexts|
    ensures forall k :: 0 <= k < |ShowTimes(spanTexts)| ==> IsClock(ShowTimes(spanTexts)[k])
    ensures (forall k :: 0 <= k < |spanTexts| ==> FindTime(spanTexts[k]).None?) ==> ShowTimes(spanTexts) == []
  {
    if |spanTexts| > 0 {
      var init := spanTexts[..|spanTexts| - 1];
      ShowTimesSpec(init);
      SearchSpec(spanTexts[|spanTexts| - 1]);
      assert forall k :: 0 <= k < |init| ==> init[k] == spanTexts[k];
    }
  }

  /** The times of consecutive runs of spans follow each other. */
  lemma {:induction false} ShowTimesAppend(a: seq<string>, b: seq<string>)
    ensures ShowTimes(a + b) == ShowTimes(a) + ShowTimes(b)
  {
    if |b| == 0 {
      assert a + b == a;
    } else {
      ShowTimesAppend(a, b[..|b| - 1]);
      assert (a + b)[..|a + b| - 1] == a + b[..|b| - 1];
    }
  }

  /** A time element with one matching and one non-matching span yields
      exactly the one time, whichever order they come in. */
  lemma OneMatchingSpan(hit: string, miss: string)
    requires FindTime(hit).Some? && FindTime(miss).None?
    ensures ShowTimes([hit, miss]) == [FindTime(hit).value]
    ensures ShowTimes([miss, hit]) == [FindTime(hit).value]
  {
    assert [hit, miss][..1] == [hit];
    assert [miss, hit][..1] == [miss];
    assert [hit][..0] == [] && [miss][..0] == [];
    assert ShowTimes([hit]) == [FindTime(hit).value];
    assert ShowTimes([miss]) == [];
  }

  /** The span loop of `getMovieDetail` for one theater. */
  method CollectTimes(spanTexts: seq<string>) returns (times: seq<string>)
    ensures times == ShowTimes(spanTexts)
  {
    times := [];
    for k := 0 to |spanTexts|
      invariant times == ShowTimes(spanTexts[..k])
    {
      assert spanTexts[..k + 1][..k] == spanTexts[..k];
      var m := SearchTime(spanTexts[k]);
      SearchSpec(spanTexts[k]);
      if m.Some? {
        times := times + [spanTexts[k][m.value.at..m.value.at + 5]];
      }
    }
    assert spanTexts[..|spanTexts|] == spanTexts;
  }

  // ---------------------------------------------------------------------
  // The detail page and the record built from it

  /** What the HTML lookups of a detail page yield: the movie-name heading,
      the short description, the text fragments of the "continued"
      description element (`None` when there is none), the info line and
      the theater blocks. */
  datatype DetailPage = DetailPage(
    name: string,
    shortDescription: string,
    moreDescription: Option<seq<string>>,
    info: string,
    theaters: seq<TheaterBlock>)

  datatype MovieRecord = MovieRecord(
    name: string,
    description: string,
    length: string,
    genre: string,
    language: string,
    subtitle: string,
    actors: string,
    theaters: seq<Theater>)

  /** The short description followed by only the first fragment of the
      continued one, when that element is present. */
  function Description(shortText: string, more: Option<seq<string>>): Result<string, Error> {
    if more.None? then Ok(shortText)
    else if |more.value| == 0 then Err(NoSynopsisText)
    else Ok(shortText + more.value[0])
  }

  /** The record `getMovieDetail` returns for a fetched page. */
  function RecordOf(page: DetailPage): Result<MovieRecord, Error> {
    match Description(page.shortDescription, page.moreDescription)
    case Err(e) => Err(e)
    case Ok(d) =>
      var info := InfoOf(page.info);
      Ok(MovieRecord(page.name, d, info.length, info.genre, info.language, info.subtitle, info.actors,
                     TheatersOf(page.theaters)))
  }

  /** The theaters keep page order, one per block, each with its own name,
      address and the times of its spans. */
  lemma {:induction false} TheatersOfSpec(blocks: seq<TheaterBlock>)
    ensures |TheatersOf(blocks)| == |blocks|
    ensures forall i :: 0 <= i < |blocks| ==> TheatersOf(blocks)[i] == TheaterOf(blocks[i])
  {
    if |blocks| > 0 {
      var init := blocks[..|blocks| - 1];
      TheatersOfSpec(init);
      assert forall i :: 0 <= i < |init| ==> init[i] == blocks[i];
    }
  }

  /** The theater loop of `getMovieDetail`: each theater block with the
      times found in its spans, in page order. */
  method CollectTheaters(blocks: seq<TheaterBlock>) returns (theaters: seq<Theater>)
    ensures theaters == TheatersOf(blocks)
  {
    theaters := [];
    for t := 0 to |blocks|
      invariant theaters == TheatersOf(blocks[..t])
    {
      assert blocks[..t + 1][..t] == blocks[..t];
      var block := blocks[t];
      var times := CollectTimes(block.spanTexts);
      theaters := theaters + [Theater(block.name, block.address, times)];
    }
    assert blocks[..|blocks|] == blocks;
  }

  /** The part of `getMovieDetail` that reads a fetched page: the
      description, the info fields and each theater with its times. */
  method ReadRecord(page: DetailPage) returns (r: Result<MovieRecord, Error>)
    ensures r == RecordOf(page)
  {
    var description := page.shortDescription;
    if page.moreDescription.Some? {
      var fragments := page.moreDescription.value;
      if |fragments| == 0 {
        return Err(NoSynopsisText);
      }
      description := description + fragments[0];
    }
    assert Description(page.shortDescription, page.moreDescription) == Ok(description);
    var info := AssignInfoFields(InfoPieces(page.info));
    assert info == InfoOf(page.info);
    var theaters := CollectTheaters(page.theaters);
    return Ok(MovieRecord(page.name, description, info.length, info.genre, info.language,
                          info.subtitle, info.actors, theaters));
  }
}
