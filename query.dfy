/** The request URL `Movie.__makeUrl` builds: the listing path followed by
    the query parameters `hl`, `near`, `sort` and, when supplied, `start`,
    `mid` and `tid`, in that order. This module gives the URL through the
    list of parameters it carries, independently of the order in which
    the builder concatenates its pieces. */
module Query {
  import opened Wrappers
  import opened Text

  /** One `key=value` query parameter. */
  datatype Param = Param(key: string, value: string)

  function ParamText(p: Param): string {
    p.key + "=" + p.value
  }

  /** The parameters joined with `&`. */
  function Render(ps: seq<Param>): string {
    if |ps| == 0 then ""
    else if |ps| == 1 then ParamText(ps[0])
    else Render(ps[..|ps| - 1]) + "&" + ParamText(ps[|ps| - 1])
  }

  /** One parameter when the argument is given, none when it is `None`. */
  function OptionalParam(key: string, v: Option<string>): seq<Param> {
    if v.Some? then [Param(key, v.value)] else []
  }

  function OptionalNumber(v: Option<int>): Option<string> {
    if v.Some? then Some(IntToString(v.value)) else None
  }

  /** The value of `sort`: `1` (by movie) unless the caller gives one. */
  function SortText(sort: Option<int>): string {
    if sort.None? then "1" else IntToString(sort.value)
  }

  /** The parameters of a request, in the order they appear in the URL. */
  function Params(hl: string, near: string, sort: Option<int>, start: Option<int>,
                  mid: Option<string>, tid: Option<string>): seq<Param>
  {
    [Param("hl", hl), Param("near", near), Param("sort", SortText(sort))]
      + OptionalParam("start", OptionalNumber(start))
      + OptionalParam("mid", mid)
      + OptionalParam("tid", tid)
  }

  /** The path that every request goes to. */
  function ListingPath(base: string): string {
    base + "/movies?"
  }

  /** `&key=value` for a supplied argument, nothing otherwise. */
  function Suffix(key: string, v: Option<string>): string {
    if v.Some? then "&" + ParamText(Param(key, v.value)) else ""
  }

  /** The request URL as the builder grows it: the listing path, then one
      piece per parameter, each optional piece empty when its argument is absent. */
  function Url(base: string, hl: string, near: string, sort: Option<int>, start: Option<int>,
               mid: Option<string>, tid: Option<string>): string
  {
    ListingPath(base) + ("hl=" + hl) + ("&near=" + near) + ("&sort=" + SortText(sort))
      + Suffix("start", OptionalNumber(start)) + Suffix("mid", mid) + Suffix("tid", tid)
  }

  /** The optional pieces as the builder writes them. */
  lemma SuffixTexts(x: string)
    ensures Suffix("start", Some(x)) == "&start=" + x
    ensures Suffix("mid", Some(x)) == "&mid=" + x
    ensures Suffix("tid", Some(x)) == "&tid=" + x
  {
    assert "&" + ("start" + "=" + x) == "&start=" + x;
    assert "&" + ("mid" + "=" + x) == "&mid=" + x;
    assert "&" + ("tid" + "=" + x) == "&tid=" + x;
  }

  /** The parameter texts of the listing and detail requests. */
  lemma ParamTexts(x: string)
    ensures ParamText(Param("hl", x)) == "hl=" + x
    ensures ParamText(Param("near", x)) == "near=" + x
    ensures ParamText(Param("sort", x)) == "sort=" + x
    ensures ParamText(Param("mid", x)) == "mid=" + x
  {
    assert "hl" + "=" + x == "hl=" + x;
    assert "near" + "=" + x == "near=" + x;
    assert "sort" + "=" + x == "sort=" + x;
    assert "mid" + "=" + x == "mid=" + x;
  }

  /** Appending one parameter appends `&key=value` to the rendering. */
  lemma {:induction false} RenderAppend(ps: seq<Param>, p: Param)
    requires |ps| >= 1
    ensures Render(ps + [p]) == Render(ps) + "&" + ParamText(p)
  {
    assert (ps + [p])[..|ps|] == ps;
  }

  lemma {:induction false} RenderOptional(ps: seq<Param>, key: string, v: Option<string>)
    requires |ps| >= 1
    ensures Render(ps + OptionalParam(key, v)) == Render(ps) + Suffix(key, v)
  {
    if v.Some? {
      RenderAppend(ps, Param(key, v.value));
    } else {
      assert ps + [] == ps;
    }
  }

  /** The three parameters every request carries. */
  lemma {:induction false} RenderFixed(hl: string, near: string, sort: string)
    ensures Render([Param("hl", hl), Param("near", near), Param("sort", sort)])
      == "hl=" + hl + "&near=" + near + "&sort=" + sort
  {
    var p1 := [Param("hl", hl)];
    var p2 := p1 + [Param("near", near)];
    var r1 := "hl=" + hl;
    var r2 := r1 + "&near=" + near;
    assert Render(p2) == r2 by {
      RenderAppend(p1, Param("near", near));
    }
    assert Render(p2 + [Param("sort", sort)]) == r2 + "&sort=" + sort by {
      RenderAppend(p2, Param("sort", sort));
    }
    assert p2 + [Param("sort", sort)] == [Param("hl", hl), Param("near", near), Param("sort", sort)];
  }

  /** The parameters render as `hl`, `near` and `sort` (with its default),
      then `start`, `mid` and `tid` each only when supplied, in that order. */
  lemma {:induction false} RenderParams(hl: string, near: string, sort: Option<int>, start: Option<int>,
                                        mid: Option<string>, tid: Option<string>)
    ensures Render(Params(hl, near, sort, start, mid, tid))
      == "hl=" + hl + "&near=" + near + "&sort=" + SortText(sort)
         + Suffix("start", OptionalNumber(start)) + Suffix("mid", mid) + Suffix("tid", tid)
  {
    var p3 := [Param("hl", hl), Param("near", near), Param("sort", SortText(sort))];
    var p4 := p3 + OptionalParam("start", OptionalNumber(start));
    var p5 := p4 + OptionalParam("mid", mid);
    var p6 := p5 + OptionalParam("tid", tid);
    var r3 := "hl=" + hl + "&near=" + near + "&sort=" + SortText(sort);
    var r4 := r3 + Suffix("start", OptionalNumber(start));
    var r5 := r4 + Suffix("mid", mid);
    var r6 := r5 + Suffix("tid", tid);
    assert Render(p3) == r3 by {
      RenderFixed(hl, near, SortText(sort));
    }
    assert Render(p4) == r4 by {
      RenderOptional(p3, "start", OptionalNumber(start));
    }
    assert Render(p5) == r5 by {
      RenderOptional(p4, "mid", mid);
    }
    assert Render(p6) == r6 by {
      RenderOptional(p5, "tid", tid);
    }
    assert p6 == Params(hl, near, sort, start, mid, tid);
  }

  /** The URL the builder grows is the listing path followed by the
      parameters of the request joined with `&`. */
  lemma UrlParams(base: string, hl: string, near: string, sort: Option<int>, start: Option<int>,
                  mid: Option<string>, tid: Option<string>)
    ensures Url(base, hl, near, sort, start, mid, tid) == ListingPath(base) + Render(Params(hl, near, sort, start, mid, tid))
  {
    var l := ListingPath(base);
    var a, b, c := "hl=" + hl, "&near=" + near, "&sort=" + SortText(sort);
    var s4, s5, s6 := Suffix("start", OptionalNumber(start)), Suffix("mid", mid), Suffix("tid", tid);
    assert "hl=" + hl + "&near=" + near + "&sort=" + SortText(sort) == a + b + c by {
      Regroup3(a, "&near=", near);
      Regroup3(a + b, "&sort=", SortText(sort));
    }
    assert Render(Params(hl, near, sort, start, mid, tid)) == a + b + c + s4 + s5 + s6 by {
      RenderParams(hl, near, sort, start, mid, tid);
    }
    assert l + (a + b + c + s4 + s5 + s6) == l + (a + b + c) + s4 + s5 + s6 by {
      Regroup3(l, a + b + c + s4 + s5, s6);
      Regroup3(l, a + b + c + s4, s5);
      Regroup3(l, a + b + c, s4);
    }
    assert l + (a + b + c) == l + a + b + c by {
      Regroup3(l, a + b, c);
      Regroup3(l, a, b);
    }
  }

  lemma Regroup3(x: string, y: string, z: string)
    ensures x + y + z == x + (y + z)
  {
  }

  /** With every optional argument absent the URL is exactly the prefix and `&sort=1`. */
  lemma UrlDefaults(base: string, hl: string, near: string)
    ensures Url(base, hl, near, None, None, None, None)
      == ListingPath(base) + ("hl=" + hl + "&near=" + near + "&sort=1")
  {
    var l := ListingPath(base);
    var a, b := "hl=" + hl, "&near=" + near;
    assert "&sort=" + SortText(None) == "&sort=1";
    assert l + a + b + "&sort=1" == l + (a + b + "&sort=1") by {
      Regroup3(l + a, b, "&sort=1");
      Regroup3(l, a, b + "&sort=1");
      Regroup3(a, b, "&sort=1");
    }
    assert a + b + "&sort=1" == "hl=" + hl + "&near=" + near + "&sort=1" by {
      Regroup3(a, "&near=", near);
    }
  }

  /** No parameter text of `ps` holds `&`. */
  predicate AmpersandFree(ps: seq<Param>) {
    forall i :: 0 <= i < |ps| ==> '&' !in ParamText(ps[i])
  }

  /** The texts of the parameters, the first one glued to `pre`. */
  function Pieces(pre: string, ps: seq<Param>): (texts: seq<string>)
    requires |ps| >= 1
  {
    if |ps| == 1 then [pre + ParamText(ps[0])]
    else Pieces(pre, ps[..|ps| - 1]) + [ParamText(ps[|ps| - 1])]
  }

  /** There is one piece per parameter, the first glued to `pre`. */
  lemma {:induction false} PiecesSpec(pre: string, ps: seq<Param>)
    requires |ps| >= 1
    ensures |Pieces(pre, ps)| == |ps|
    ensures Pieces(pre, ps)[0] == pre + ParamText(ps[0])
    ensures forall i :: 1 <= i < |ps| ==> Pieces(pre, ps)[i] == ParamText(ps[i])
  {
    if |ps| > 1 {
      var init := ps[..|ps| - 1];
      PiecesSpec(pre, init);
      assert forall i :: 0 <= i < |init| ==> init[i] == ps[i];
    }
  }

  /** A rendering after `pre` is the pieces joined with `&`. */
  lemma {:induction false} RenderJoin(pre: string, ps: seq<Param>)
    requires |ps| >= 1
    ensures pre + Render(ps) == Join(Pieces(pre, ps), '&')
  {
    if |ps| > 1 {
      var init := ps[..|ps| - 1];
      var last := ParamText(ps[|ps| - 1]);
      var t := Pieces(pre, init);
      RenderJoin(pre, init);
      PiecesSpec(pre, init);
      JoinAppend(t, last, '&');
      assert Pieces(pre, ps) == t + [last];
      assert Render(ps) == Render(init) + "&" + last;
      assert pre + Render(ps) == pre + Render(init) + ['&'] + last;
    }
  }

  /** Splitting a URL on `&` gives back its parameters, the first one
      glued to the text before it, provided no key or value holds `&`. */
  lemma SplitRender(pre: string, ps: seq<Param>)
    requires |ps| >= 1 && '&' !in pre && AmpersandFree(ps)
    ensures |Split(pre + Render(ps), '&')| == |ps|
    ensures Split(pre + Render(ps), '&')[0] == pre + ParamText(ps[0])
    ensures forall i :: 1 <= i < |ps| ==> Split(pre + Render(ps), '&')[i] == ParamText(ps[i])
  {
    var texts := Pieces(pre, ps);
    RenderJoin(pre, ps);
    PiecesSpec(pre, ps);
    assert '&' !in texts[0];
    SplitJoin(texts, '&');
  }

  /** A parameter whose key and value hold no `&` has a text without `&`. */
  lemma ParamTextFree(p: Param)
    requires '&' !in p.key && '&' !in p.value
    ensures '&' !in ParamText(p)
  {
  }

  /** Splitting a request URL on `&` gives back its parameters, the first one
      glued to the listing path, provided no text holds `&`. */
  lemma UrlSegments(base: string, hl: string, near: string, sort: Option<int>, start: Option<int>,
                    mid: Option<string>, tid: Option<string>)
    requires '&' !in ListingPath(base) && AmpersandFree(Params(hl, near, sort, start, mid, tid))
    ensures var ps := Params(hl, near, sort, start, mid, tid);
      var segments := Split(Url(base, hl, near, sort, start, mid, tid), '&');
      && |segments| == |ps|
      && segments[0] == ListingPath(base) + ParamText(ps[0])
      && forall i :: 1 <= i < |ps| ==> segments[i] == ParamText(ps[i])
  {
    UrlParams(base, hl, near, sort, start, mid, tid);
    SplitRender(ListingPath(base), Params(hl, near, sort, start, mid, tid));
  }

  /** The segments of the first listing URL: the listing path with `hl`,
      then `near`, then the default `sort`. */
  lemma ListingSegments(base: string, hl: string, near: string)
    requires '&' !in ListingPath(base) && '&' !in hl && '&' !in near
    ensures Split(Url(base, hl, near, None, None, None, None), '&')
      == [ListingPath(base) + ("hl=" + hl), "near=" + near, "sort=1"]
  {
    var ps := Params(hl, near, None, None, None, None);
    assert ps == [Param("hl", hl), Param("near", near), Param("sort", "1")];
    ParamTextFree(ps[0]);
    ParamTextFree(ps[1]);
    ParamTextFree(ps[2]);
    UrlSegments(base, hl, near, None, None, None, None);
    var segments := Split(Url(base, hl, near, None, None, None, None), '&');
    ParamTexts(hl);
    ParamTexts(near);
    ParamTexts("1");
    assert "sort=" + "1" == "sort=1";
    assert segments[1] == "near=" + near && segments[2] == "sort=1";
  }

  /** The segments of a detail URL: those of the first listing URL, then `mid`. */
  lemma DetailSegments(base: string, hl: string, near: string, mid: string)
    requires '&' !in ListingPath(base) && '&' !in hl && '&' !in near && '&' !in mid
    ensures Split(Url(base, hl, near, None, None, Some(mid), None), '&')
      == [ListingPath(base) + ("hl=" + hl), "near=" + near, "sort=1", "mid=" + mid]
  {
    var ps := Params(hl, near, None, None, Some(mid), None);
    assert ps == [Param("hl", hl), Param("near", near), Param("sort", "1"), Param("mid", mid)];
    ParamTextFree(ps[0]);
    ParamTextFree(ps[1]);
    ParamTextFree(ps[2]);
    ParamTextFree(ps[3]);
    UrlSegments(base, hl, near, None, None, Some(mid), None);
    var segments := Split(Url(base, hl, near, None, None, Some(mid), None), '&');
    ParamTexts(hl);
    ParamTexts(near);
    ParamTexts("1");
    assert "sort=" + "1" == "sort=1";
    ParamTexts(mid);
    assert segments[1] == "near=" + near && segments[2] == "sort=1" && segments[3] == "mid=" + mid;
  }
}
