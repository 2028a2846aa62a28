/** The four wiki macros of the current package: LikeButton, ActivityFeed,
    Recommendations and LikeBox. Each splits its argument text at `,`,
    fills a parameter record from the fields and fixed defaults, writes the
    record into its plugin's query template, and wraps the URL in an
    iframe. `page` is the URL Trac resolves for the current wiki page
    (`abs_href`), taken as given. */
module Macros {
  import opened Wrappers
  import opened PyStr
  import opened QueryString
  import opened FBWikiMacro

  /** `unicode(args).split(",")`: the fields of a macro argument. */
  function Options(args: Option<string>): seq<string> {
    Split(Unicode(args), ',')
  }

  /** The page a macro points at: the first field, unless there is none or
      it is the text "None", in which case `fallback`. */
  function Href(options: seq<string>, fallback: string): string {
    if |options| > 0 && options[0] != "None" then options[0] else fallback
  }

  /** The text a first field is made of and what can follow it. */
  predicate FirstFieldOf(a: string, tail: string) {
    ',' !in a && FieldEnd(tail, ',')
  }

  /** The page chosen for the argument `a + tail`, where `a` is its first
      field: `a` verbatim, or `fallback` exactly when `a` is "None". */
  lemma HrefOfFirstField(a: string, tail: string, fallback: string)
    requires FirstFieldOf(a, tail)
    ensures Href(Options(Some(a + tail)), fallback) == (if a == "None" then fallback else a)
  {
    FirstField(a, ',', tail);
  }

  /** Without an argument the macro falls back: `unicode(None)` is "None". */
  lemma HrefOfAbsentArgument(fallback: string)
    ensures Href(Options(None), fallback) == fallback
  {
    HrefOfFirstField("None", "", fallback);
    assert "None" + "" == "None";
  }

  /** An argument text without `&` gives fields without `&`, so neither the
      page nor any other field-derived value can add a query field. */
  lemma NoAmpersandInFields(args: Option<string>)
    requires '&' !in Unicode(args)
    ensures forall i | 0 <= i < |Options(args)| :: '&' !in Options(args)[i]
  {
    SplitFieldsWithin(Unicode(args), ',', '&');
  }

  // ---------------------------------------------------------------- LikeButton

  datatype LikeButtonParams = LikeButtonParams(
    href: string,
    layout: string,
    showFaces: string,
    width: string,
    action: string,
    colorscheme: string,
    height: string)

  /** `LikeButton.expand_macro`, the decisions: the page, and a layout that
      is "standard" unless a second field names one. */
  function LikeButtonParamsOf(options: seq<string>, page: string): LikeButtonParams {
    LikeButtonParams(
      Href(options, page),
      if |options| > 1 then options[1] + "_count" else "standard",
      "true", "450", "like", "light", "80")
  }

  /** The query of the like plugin, in template order. */
  function LikeButtonQuery(p: LikeButtonParams): seq<Param> {
    [Param("href", p.href), Param("layout", p.layout), Param("show_faces", p.showFaces),
     Param("width", p.width), Param("action", p.action), Param("colorscheme", p.colorscheme),
     Param("height", p.height)]
  }

  /** `LikeButton.expand_macro(formatter, name, args)`. */
  function LikeButton(args: Option<string>, page: string): Iframe {
    var p := LikeButtonParamsOf(Options(args), page);
    MakeIframe(Src("like", LikeButtonQuery(p)), p.width, p.height)
  }

  /** One field: that page (or the current one for "None") and the
      standard layout. */
  lemma LikeButtonOneField(a: string, page: string)
    requires ',' !in a
    ensures LikeButtonParamsOf(Options(Some(a)), page) ==
      LikeButtonParams(if a == "None" then page else a, "standard", "true", "450", "like", "light", "80")
  {
    assert a + "" == a;
    HrefOfFirstField(a, "", page);
    FirstField(a, ',', "");
  }

  /** Two or more fields: the second one, suffixed with "_count", is the
      layout (`button` gives `button_count`); later fields play no part. */
  lemma LikeButtonTwoFields(a: string, b: string, tail: string, page: string)
    requires ',' !in a && FirstFieldOf(b, tail)
    ensures LikeButtonParamsOf(Options(Some(a + "," + b + tail)), page) ==
      LikeButtonParams(if a == "None" then page else a, b + "_count", "true", "450", "like", "light", "80")
  {
    var t := a + "," + b + tail;
    assert t == a + [','] + (b + tail);
    SplitConcat(a, ',', b + tail);
    FirstField(b, ',', tail);
  }

  /** The layout is "standard" exactly when the argument has no comma: a
      named layout always ends in "_count". */
  lemma LikeButtonStandardIff(args: Option<string>, page: string)
    ensures LikeButtonParamsOf(Options(args), page).layout == "standard" <==> ',' !in Unicode(args)
  {
    SplitSingleIff(Unicode(args), ',');
    var options := Options(args);
    if |options| > 1 {
      var layout := options[1] + "_count";
      assert layout[|layout| - 1] == 't';
    }
  }

  /** Fields after the second never change the iframe. */
  lemma LikeButtonIgnoresExtraFields(a: string, b: string, rest: string, page: string)
    requires ',' !in a && ',' !in b
    ensures LikeButton(Some(a + "," + b + "," + rest), page) == LikeButton(Some(a + "," + b), page)
  {
    assert a + "," + b + "," + rest == a + "," + b + ("," + rest);
    LikeButtonTwoFields(a, b, "," + rest, page);
    assert a + "," + b == a + "," + b + "";
    LikeButtonTwoFields(a, b, "", page);
  }

  /** The `src` is the `%` template of `LikeButton.expand_macro`, every `%s`
      replaced by the corresponding parameter verbatim. */
  lemma LikeButtonSrcTemplate(p: LikeButtonParams)
    ensures Src("like", LikeButtonQuery(p)) ==
      FbUrl + "/" + "like" + ".php?" +
      ("href=" + p.href + "&layout=" + p.layout + "&show_faces=" + p.showFaces +
       "&width=" + p.width + "&action=" + p.action + "&colorscheme=" + p.colorscheme +
       "&height=" + p.height)
  {
    var ps := LikeButtonQuery(p);
    RenderOne(ps[0]);
    assert ps[..1] == [ps[0]];
    var t := "href=" + p.href;
    RenderStep(ps, 1, t);
    t := t + "&layout=" + p.layout;
    RenderStep(ps, 2, t);
    t := t + "&show_faces=" + p.showFaces;
    RenderStep(ps, 3, t);
    t := t + "&width=" + p.width;
    RenderStep(ps, 4, t);
    t := t + "&action=" + p.action;
    RenderStep(ps, 5, t);
    t := t + "&colorscheme=" + p.colorscheme;
    RenderStep(ps, 6, t);
    t := t + "&height=" + p.height;
    assert ps[..7] == ps;
  }

  /** The like keys and fixed values need no escaping. Proof scaffolding:
      stated apart so that the plainness proofs stay within the solver's
      budget. */
  lemma LikeButtonKeysBare()
    ensures '&' !in "href" && '=' !in "href" && '&' !in "layout" && '=' !in "layout"
    ensures '&' !in "show_faces" && '=' !in "show_faces" && '&' !in "width" && '=' !in "width"
    ensures '&' !in "action" && '=' !in "action" && '&' !in "colorscheme" && '=' !in "colorscheme"
    ensures '&' !in "height" && '=' !in "height"
    ensures '&' !in "true" && '&' !in "450" && '&' !in "like" && '&' !in "light" && '&' !in "80"
  {
  }

  /** The query of a decided like button survives a read-back: no value
      holds an `&`. */
  lemma LikeButtonQueryPlain(p: LikeButtonParams)
    requires '&' !in p.href && '&' !in p.layout
    requires p.showFaces == "true" && p.width == "450" && p.action == "like"
    requires p.colorscheme == "light" && p.height == "80"
    ensures Plain(LikeButtonQuery(p))
  {
    LikeButtonKeysBare();
    var ps := LikeButtonQuery(p);
    assert PlainPair(ps[0]) && PlainPair(ps[1]) && PlainPair(ps[2]) && PlainPair(ps[3]);
    assert PlainPair(ps[4]) && PlainPair(ps[5]) && PlainPair(ps[6]);
  }

  /** The keys of the like query, in the order of the `LikeButton` template. */
  lemma LikeButtonKeys(p: LikeButtonParams)
    ensures Keys(LikeButtonQuery(p)) ==
      ["href", "layout", "show_faces", "width", "action", "colorscheme", "height"]
  {
  }

  /** The iframe for decided parameters, read back: the like endpoint, the
      query exactly as decided, and a style that repeats the query's width
      and height. */
  lemma LikeButtonFrameOf(p: LikeButtonParams)
    requires '&' !in p.href && '&' !in p.layout
    requires p.showFaces == "true" && p.width == "450" && p.action == "like"
    requires p.colorscheme == "light" && p.height == "80"
    ensures var f := MakeIframe(Src("like", LikeButtonQuery(p)), p.width, p.height);
      var q := QueryParams(f.src);
      && Endpoint(f.src) == FbUrl + "/" + "like" + ".php"
      && q == LikeButtonQuery(p)
      && Lookup(q, "width") == Some(p.width) && Lookup(StyleDecls(f.style), "width") == Some(p.width + "px")
      && Lookup(q, "height") == Some(p.height) && Lookup(StyleDecls(f.style), "height") == Some(p.height + "px")
  {
    var ps := LikeButtonQuery(p);
    LikeButtonQueryPlain(p);
    LookupFirst(ps, 3, "width");
    LookupFirst(ps, 6, "height");
    FrameReadsBack("like", ps, p.width, p.height);
  }

  /** Read back, the iframe of any LikeButton call shows the like endpoint
      with the seven template keys in order, and its style repeats the
      query's 450 by 80 size; this needs an argument and a page URL without
      `&`, since the macros substitute values verbatim. */
  lemma LikeButtonFrame(args: Option<string>, page: string)
    requires '&' !in Unicode(args) && '&' !in page
    ensures var f := LikeButton(args, page);
      var q := QueryParams(f.src);
      && Endpoint(f.src) == FbUrl + "/" + "like" + ".php"
      && q == LikeButtonQuery(LikeButtonParamsOf(Options(args), page))
      && Keys(q) == ["href", "layout", "show_faces", "width", "action", "colorscheme", "height"]
      && Lookup(q, "href") == Some(Href(Options(args), page))
      && Lookup(q, "width") == Some("450") && Lookup(StyleDecls(f.style), "width") == Some("450" + "px")
      && Lookup(q, "height") == Some("80") && Lookup(StyleDecls(f.style), "height") == Some("80" + "px")
      && f.scrolling == "no" && f.frameborder == "0" && f.allowTransparency == "true"
  {
    var p := LikeButtonParamsOf(Options(args), page);
    NoAmpersandInFields(args);
    assert '&' !in p.href && '&' !in p.layout;
    LikeButtonFrameOf(p);
    LikeButtonKeys(p);
    LookupFirst(LikeButtonQuery(p), 0, "href");
  }

  /** `[[LikeButton]]` without an argument likes the current page, with the
      default layout; read back, its `href` is the page URL. */
  lemma LikeButtonAbsentArgument(page: string)
    ensures LikeButtonParamsOf(Options(None), page) ==
      LikeButtonParams(page, "standard", "true", "450", "like", "light", "80")
    ensures '&' !in page ==> Lookup(QueryParams(LikeButton(None, page).src), "href") == Some(page)
  {
    HrefOfAbsentArgument(page);
    LikeButtonOneField("None", page);
    if '&' !in page {
      assert '&' !in Unicode(None);
      LikeButtonFrame(None, page);
    }
  }

  // -------------------------------------------------------------- ActivityFeed

  datatype ActivityFeedParams = ActivityFeedParams(
    site: string,
    width: string,
    height: string,
    header: string,
    colorscheme: string,
    recommendations: string)

  /** `ActivityFeed.expand_macro`, the decisions: the site, and
      recommendations switched off by the mere presence of a second field. */
  function ActivityFeedParamsOf(options: seq<string>, page: string): ActivityFeedParams {
    ActivityFeedParams(
      Href(options, page), "300", "300", "true", "light",
      if |options| > 1 then "false" else "true")
  }

  /** The query of the activity plugin, in template order. */
  function ActivityFeedQuery(p: ActivityFeedParams): seq<Param> {
    [Param("site", p.site), Param("width", p.width), Param("height", p.height),
     Param("header", p.header), Param("colorscheme", p.colorscheme),
     Param("recommendations", p.recommendations)]
  }

  /** `ActivityFeed.expand_macro(formatter, name, args)`. */
  function ActivityFeed(args: Option<string>, page: string): Iframe {
    var p := ActivityFeedParamsOf(Options(args), page);
    MakeIframe(Src("activity", ActivityFeedQuery(p)), p.width, p.height)
  }

  /** One field: that site (or the current page for "None"), with
      recommendations. */
  lemma ActivityFeedOneField(a: string, page: string)
    requires ',' !in a
    ensures ActivityFeedParamsOf(Options(Some(a)), page) ==
      ActivityFeedParams(if a == "None" then page else a, "300", "300", "true", "light", "true")
  {
    assert a + "" == a;
    HrefOfFirstField(a, "", page);
    FirstField(a, ',', "");
  }

  /** Two or more fields: recommendations are off, whatever the second field
      says (even "true"). */
  lemma ActivityFeedTwoFields(a: string, rest: string, page: string)
    requires ',' !in a
    ensures ActivityFeedParamsOf(Options(Some(a + "," + rest)), page) ==
      ActivityFeedParams(if a == "None" then page else a, "300", "300", "true", "light", "false")
  {
    assert a + "," + rest == a + [','] + rest;
    SplitConcat(a, ',', rest);
    HrefOfFirstField(a, "," + rest, page);
  }

  /** Recommendations are "false" exactly when the argument has a comma. */
  lemma ActivityFeedRecommendationsIff(args: Option<string>, page: string)
    ensures ActivityFeedParamsOf(Options(args), page).recommendations == "false" <==> ',' in Unicode(args)
  {
    SplitSingleIff(Unicode(args), ',');
  }

  /** Only the first field and the presence of a comma matter: the text after
      the first comma never changes the iframe. */
  lemma ActivityFeedIgnoresFieldText(a: string, rest1: string, rest2: string, page: string)
    requires ',' !in a
    ensures ActivityFeed(Some(a + "," + rest1), page) == ActivityFeed(Some(a + "," + rest2), page)
  {
    ActivityFeedTwoFields(a, rest1, page);
    ActivityFeedTwoFields(a, rest2, page);
  }

  /** The `src` is the `%` template of `ActivityFeed.expand_macro`, every `%s`
      replaced by the corresponding parameter verbatim. */
  lemma ActivityFeedSrcTemplate(p: ActivityFeedParams)
    ensures Src("activity", ActivityFeedQuery(p)) ==
      FbUrl + "/" + "activity" + ".php?" +
      ("site=" + p.site + "&width=" + p.width + "&height=" + p.height +
       "&header=" + p.header + "&colorscheme=" + p.colorscheme +
       "&recommendations=" + p.recommendations)
  {
    var ps := ActivityFeedQuery(p);
    RenderOne(ps[0]);
    assert ps[..1] == [ps[0]];
    var t := "site=" + p.site;
    RenderStep(ps, 1, t);
    t := t + "&width=" + p.width;
    RenderStep(ps, 2, t);
    t := t + "&height=" + p.height;
    RenderStep(ps, 3, t);
    t := t + "&header=" + p.header;
    RenderStep(ps, 4, t);
    t := t + "&colorscheme=" + p.colorscheme;
    RenderStep(ps, 5, t);
    t := t + "&recommendations=" + p.recommendations;
    assert ps[..6] == ps;
  }

  /** The keys of the activity query, in the order of the `ActivityFeed`
      template. */
  lemma ActivityFeedKeys(p: ActivityFeedParams)
    ensures Keys(ActivityFeedQuery(p)) ==
      ["site", "width", "height", "header", "colorscheme", "recommendations"]
  {
  }

  /** The activity and recommendations keys and fixed values need no
      escaping. Proof scaffolding: stated apart so that the plainness proofs
      stay within the solver's budget. */
  lemma FeedKeysBare()
    ensures '&' !in "site" && '=' !in "site" && '&' !in "width" && '=' !in "width"
    ensures '&' !in "height" && '=' !in "height" && '&' !in "header" && '=' !in "header"
    ensures '&' !in "colorscheme" && '=' !in "colorscheme"
    ensures '&' !in "recommendations" && '=' !in "recommendations"
    ensures '&' !in "300" && '&' !in "true" && '&' !in "false" && '&' !in "light"
  {
  }

  /** The query of a decided activity feed survives a read-back. */
  lemma ActivityFeedQueryPlain(p: ActivityFeedParams)
    requires '&' !in p.site
    requires p.width == "300" && p.height == "300" && p.header == "true" && p.colorscheme == "light"
    requires p.recommendations == "true" || p.recommendations == "false"
    ensures Plain(ActivityFeedQuery(p))
  {
    FeedKeysBare();
    var ps := ActivityFeedQuery(p);
    assert PlainPair(ps[0]) && PlainPair(ps[1]) && PlainPair(ps[2]);
    assert PlainPair(ps[3]) && PlainPair(ps[4]) && PlainPair(ps[5]);
  }

  /** The iframe for decided parameters, read back: the activity endpoint,
      the query exactly as decided, and a style that repeats the query's
      width and height. */
  lemma ActivityFeedFrameOf(p: ActivityFeedParams)
    requires '&' !in p.site
    requires p.width == "300" && p.height == "300" && p.header == "true" && p.colorscheme == "light"
    requires p.recommendations == "true" || p.recommendations == "false"
    ensures var f := MakeIframe(Src("activity", ActivityFeedQuery(p)), p.width, p.height);
      var q := QueryParams(f.src);
      && Endpoint(f.src) == FbUrl + "/" + "activity" + ".php"
      && q == ActivityFeedQuery(p)
      && Lookup(q, "width") == Some(p.width) && Lookup(StyleDecls(f.style), "width") == Some(p.width + "px")
      && Lookup(q, "height") == Some(p.height) && Lookup(StyleDecls(f.style), "height") == Some(p.height + "px")
  {
    var ps := ActivityFeedQuery(p);
    ActivityFeedQueryPlain(p);
    LookupFirst(ps, 1, "width");
    LookupFirst(ps, 2, "height");
    FrameReadsBack("activity", ps, p.width, p.height);
  }

  /** Read back, the iframe of any ActivityFeed call shows the activity
      endpoint with the six template keys in order, and its style repeats
      the query's 300 by 300 size; this needs an argument and a page URL
      without `&`. */
  lemma ActivityFeedFrame(args: Option<string>, page: string)
    requires '&' !in Unicode(args) && '&' !in page
    ensures var f := ActivityFeed(args, page);
      var q := QueryParams(f.src);
      && Endpoint(f.src) == FbUrl + "/" + "activity" + ".php"
      && q == ActivityFeedQuery(ActivityFeedParamsOf(Options(args), page))
      && Keys(q) == ["site", "width", "height", "header", "colorscheme", "recommendations"]
      && Lookup(q, "site") == Some(Href(Options(args), page))
      && Lookup(q, "width") == Some("300") && Lookup(StyleDecls(f.style), "width") == Some("300" + "px")
      && Lookup(q, "height") == Some("300") && Lookup(StyleDecls(f.style), "height") == Some("300" + "px")
      && f.scrolling == "no" && f.frameborder == "0" && f.allowTransparency == "true"
  {
    var p := ActivityFeedParamsOf(Options(args), page);
    NoAmpersandInFields(args);
    assert '&' !in p.site;
    ActivityFeedFrameOf(p);
    ActivityFeedKeys(p);
    LookupFirst(ActivityFeedQuery(p), 0, "site");
  }

  /** `[[ActivityFeed]]` without an argument shows the current page's
      activity, with recommendations; read back, its `site` is the page URL. */
  lemma ActivityFeedAbsentArgument(page: string)
    ensures ActivityFeedParamsOf(Options(None), page) ==
      ActivityFeedParams(page, "300", "300", "true", "light", "true")
    ensures '&' !in page ==> Lookup(QueryParams(ActivityFeed(None, page).src), "site") == Some(page)
  {
    HrefOfAbsentArgument(page);
    ActivityFeedOneField("None", page);
    if '&' !in page {
      assert '&' !in Unicode(None);
      ActivityFeedFrame(None, page);
    }
  }

  // ----------------------------------------------------------- Recommendations

  datatype RecommendationsParams = RecommendationsParams(
    site: string,
    width: string,
    height: string,
    header: string,
    colorscheme: string)

  /** `Recommendations.expand_macro`, the decisions: only the site. */
  function RecommendationsParamsOf(options: seq<string>, page: string): RecommendationsParams {
    RecommendationsParams(Href(options, page), "300", "300", "true", "light")
  }

  /** The query of the recommendations plugin, in template order. */
  function RecommendationsQuery(p: RecommendationsParams): seq<Param> {
    [Param("site", p.site), Param("width", p.width), Param("height", p.height),
     Param("header", p.header), Param("colorscheme", p.colorscheme)]
  }

  /** `Recommendations.expand_macro(formatter, name, args)`. */
  function Recommendations(args: Option<string>, page: string): Iframe {
    var p := RecommendationsParamsOf(Options(args), page);
    MakeIframe(Src("recommendations", RecommendationsQuery(p)), p.width, p.height)
  }

  /** The site is the first field, or the current page for "None". */
  lemma RecommendationsSite(a: string, tail: string, page: string)
    requires FirstFieldOf(a, tail)
    ensures RecommendationsParamsOf(Options(Some(a + tail)), page) ==
      RecommendationsParams(if a == "None" then page else a, "300", "300", "true", "light")
  {
    HrefOfFirstField(a, tail, page);
  }

  /** Everything after the first comma is ignored. */
  lemma RecommendationsIgnoresRest(a: string, rest: string, page: string)
    requires ',' !in a
    ensures Recommendations(Some(a + "," + rest), page) == Recommendations(Some(a), page)
  {
    assert a + "," + rest == a + ("," + rest);
    RecommendationsSite(a, "," + rest, page);
    assert a + "" == a;
    RecommendationsSite(a, "", page);
  }

  /** The `src` is the `%` template of `Recommendations.expand_macro`, every `%s`
      replaced by the corresponding parameter verbatim. */
  lemma RecommendationsSrcTemplate(p: RecommendationsParams)
    ensures Src("recommendations", RecommendationsQuery(p)) ==
      FbUrl + "/" + "recommendations" + ".php?" +
      ("site=" + p.site + "&width=" + p.width + "&height=" + p.height +
       "&header=" + p.header + "&colorscheme=" + p.colorscheme)
  {
    var ps := RecommendationsQuery(p);
    RenderOne(ps[0]);
    assert ps[..1] == [ps[0]];
    var t := "site=" + p.site;
    RenderStep(ps, 1, t);
    t := t + "&width=" + p.width;
    RenderStep(ps, 2, t);
    t := t + "&height=" + p.height;
    RenderStep(ps, 3, t);
    t := t + "&header=" + p.header;
    RenderStep(ps, 4, t);
    t := t + "&colorscheme=" + p.colorscheme;
    assert ps[..5] == ps;
  }

  /** The keys of the recommendations query, in template order: no
      `recommendations` key. */
  lemma RecommendationsKeys(p: RecommendationsParams)
    ensures Keys(RecommendationsQuery(p)) == ["site", "width", "height", "header", "colorscheme"]
  {
  }

  /** The recommendations query has no `recommendations` parameter. */
  lemma RecommendationsHasNoFlag(p: RecommendationsParams)
    ensures Lookup(RecommendationsQuery(p), "recommendations") == None
  {
    var ps := RecommendationsQuery(p);
    assert forall i | 0 <= i < |ps| :: ps[i].key != "recommendations";
  }

  /** With a site free of `&`, the decided query survives a round trip. */
  lemma RecommendationsQueryPlain(p: RecommendationsParams)
    requires '&' !in p.site
    requires p.width == "300" && p.height == "300" && p.header == "true" && p.colorscheme == "light"
    ensures Plain(RecommendationsQuery(p))
  {
    FeedKeysBare();
    var ps := RecommendationsQuery(p);
    assert PlainPair(ps[0]) && PlainPair(ps[1]) && PlainPair(ps[2]);
    assert PlainPair(ps[3]) && PlainPair(ps[4]);
  }

  /** The iframe for decided parameters, read back. */
  lemma RecommendationsFrameOf(p: RecommendationsParams)
    requires '&' !in p.site
    requires p.width == "300" && p.height == "300" && p.header == "true" && p.colorscheme == "light"
    ensures var f := MakeIframe(Src("recommendations", RecommendationsQuery(p)), p.width, p.height);
      var q := QueryParams(f.src);
      && Endpoint(f.src) == FbUrl + "/" + "recommendations" + ".php"
      && q == RecommendationsQuery(p)
      && Lookup(q, "width") == Some(p.width) && Lookup(StyleDecls(f.style), "width") == Some(p.width + "px")
      && Lookup(q, "height") == Some(p.height) && Lookup(StyleDecls(f.style), "height") == Some(p.height + "px")
  {
    var ps := RecommendationsQuery(p);
    RecommendationsQueryPlain(p);
    LookupFirst(ps, 1, "width");
    LookupFirst(ps, 2, "height");
    FrameReadsBack("recommendations", ps, p.width, p.height);
  }

  /** Read back, the iframe of any Recommendations call shows the
      recommendations endpoint with five keys and no `recommendations`
      parameter, and its style repeats the query's 300 by 300 size; this
      needs an argument and a page URL without `&`. */
  lemma RecommendationsFrame(args: Option<string>, page: string)
    requires '&' !in Unicode(args) && '&' !in page
    ensures var f := Recommendations(args, page);
      var q := QueryParams(f.src);
      && Endpoint(f.src) == FbUrl + "/" + "recommendations" + ".php"
      && q == RecommendationsQuery(RecommendationsParamsOf(Options(args), page))
      && Keys(q) == ["site", "width", "height", "header", "colorscheme"]
      && Lookup(q, "site") == Some(Href(Options(args), page))
      && Lookup(q, "recommendations") == None
      && Lookup(q, "width") == Some("300") && Lookup(StyleDecls(f.style), "width") == Some("300" + "px")
      && Lookup(q, "height") == Some("300") && Lookup(StyleDecls(f.style), "height") == Some("300" + "px")
      && f.scrolling == "no" && f.frameborder == "0" && f.allowTransparency == "true"
  {
    var p := RecommendationsParamsOf(Options(args), page);
    NoAmpersandInFields(args);
    assert '&' !in p.site;
    RecommendationsFrameOf(p);
    RecommendationsKeys(p);
    RecommendationsHasNoFlag(p);
    LookupFirst(RecommendationsQuery(p), 0, "site");
  }

  // -------------------------------------------------------------------- LikeBox

  /** The Facebook address every LikeBox page name is appended to. */
  const FacebookHome: string := "http://www.facebook.com/"

  datatype LikeBoxParams = LikeBoxParams(
    href: string,
    connections: string,
    stream: string,
    header: string,
    width: string,
    height: string)

  /** `LikeBox.expand_macro`, the decisions: the page name appended to the
      Facebook address (nothing for "None"), and the stream/header mode
      named by the second field, which also fixes the height. */
  function LikeBoxParamsOf(options: seq<string>): LikeBoxParams {
    var href := FacebookHome + Href(options, "");
    var plain := LikeBoxParams(href, "10", "false", "false", "292", "255");
    if |options| > 1 then
      var param := options[1];
      if param == "stream" then plain.(stream := "true", height := "555")
      else if param == "header" then plain.(header := "true", height := "287")
      else if param == "full" then plain.(stream := "true", header := "true", height := "587")
      else plain
    else plain
  }

  /** The query of the like box plugin, in template order. */
  function LikeBoxQuery(p: LikeBoxParams): seq<Param> {
    [Param("href", p.href), Param("connections", p.connections), Param("stream", p.stream),
     Param("header", p.header), Param("width", p.width), Param("height", p.height)]
  }

  /** `LikeBox.expand_macro(formatter, name, args)`; the current page plays
      no part. */
  function LikeBox(args: Option<string>): Iframe {
    var p := LikeBoxParamsOf(Options(args));
    MakeIframe(Src("likebox", LikeBoxQuery(p)), p.width, p.height)
  }

  /** One field: the page `a` on Facebook (the bare address for "None"),
      without stream or header. */
  lemma LikeBoxOneField(a: string)
    requires ',' !in a
    ensures LikeBoxParamsOf(Options(Some(a))) ==
      LikeBoxParams(FacebookHome + (if a == "None" then "" else a), "10", "false", "false", "292", "255")
  {
    assert a + "" == a;
    HrefOfFirstField(a, "", "");
    FirstField(a, ',', "");
  }

  /** Two or more fields: the second selects the mode, `stream` (height
      555), `header` (287) or `full` (both, 587); any other text leaves both
      off at height 255. Width and connections never change, and later
      fields play no part. */
  lemma LikeBoxTwoFields(a: string, b: string, tail: string)
    requires ',' !in a && FirstFieldOf(b, tail)
    ensures var p := LikeBoxParamsOf(Options(Some(a + "," + b + tail)));
      && p.href == FacebookHome + (if a == "None" then "" else a)
      && p.connections == "10" && p.width == "292"
      && (b == "stream" ==> p.stream == "true" && p.header == "false" && p.height == "555")
      && (b == "header" ==> p.stream == "false" && p.header == "true" && p.height == "287")
      && (b == "full" ==> p.stream == "true" && p.header == "true" && p.height == "587")
      && (b != "stream" && b != "header" && b != "full" ==>
            p.stream == "false" && p.header == "false" && p.height == "255")
  {
    var t := a + "," + b + tail;
    assert t == a + [','] + (b + tail);
    SplitConcat(a, ',', b + tail);
    FirstField(b, ',', tail);
    assert t == a + ("," + b + tail);
    HrefOfFirstField(a, "," + b + tail, "");
  }

  /** Whatever the argument, the height follows from the two flags alone:
      255, plus 300 with the stream and 32 with the header. */
  lemma LikeBoxHeightFollowsFlags(args: Option<string>)
    ensures var p := LikeBoxParamsOf(Options(args));
      && (p.stream == "true" || p.stream == "false")
      && (p.header == "true" || p.header == "false")
      && p.height == (if p.stream == "true" then (if p.header == "true" then "587" else "555")
                      else (if p.header == "true" then "287" else "255"))
  {
  }

  /** Fields after the second never change the iframe. */
  lemma LikeBoxIgnoresExtraFields(a: string, b: string, rest: string)
    requires ',' !in a && ',' !in b
    ensures LikeBox(Some(a + "," + b + "," + rest)) == LikeBox(Some(a + "," + b))
  {
    var t1, t2 := a + "," + b + "," + rest, a + "," + b;
    assert t1 == a + [','] + (b + ("," + rest));
    assert t2 == a + [','] + (b + "");
    SplitConcat(a, ',', b + ("," + rest));
    SplitConcat(a, ',', b + "");
    FirstField(b, ',', "," + rest);
    FirstField(b, ',', "");
    assert LikeBoxParamsOf(Options(Some(t1))) == LikeBoxParamsOf(Options(Some(t2)));
  }

  /** The `src` is the `%` template of `LikeBox.expand_macro`, every `%s`
      replaced by the corresponding parameter verbatim. */
  lemma LikeBoxSrcTemplate(p: LikeBoxParams)
    ensures Src("likebox", LikeBoxQuery(p)) ==
      FbUrl + "/" + "likebox" + ".php?" +
      ("href=" + p.href + "&connections=" + p.connections + "&stream=" + p.stream +
       "&header=" + p.header + "&width=" + p.width + "&height=" + p.height)
  {
    var ps := LikeBoxQuery(p);
    RenderOne(ps[0]);
    assert ps[..1] == [ps[0]];
    var t := "href=" + p.href;
    RenderStep(ps, 1, t);
    t := t + "&connections=" + p.connections;
    RenderStep(ps, 2, t);
    t := t + "&stream=" + p.stream;
    RenderStep(ps, 3, t);
    t := t + "&header=" + p.header;
    RenderStep(ps, 4, t);
    t := t + "&width=" + p.width;
    RenderStep(ps, 5, t);
    t := t + "&height=" + p.height;
    assert ps[..6] == ps;
  }

  /** The keys of the like box query, in the order of the `LikeBox` template. */
  lemma LikeBoxKeys(p: LikeBoxParams)
    ensures Keys(LikeBoxQuery(p)) == ["href", "connections", "stream", "header", "width", "height"]
  {
  }

  /** The like box keys and the values it can choose need no escaping.
      Proof scaffolding: stated apart so that the plainness proofs stay
      within the solver's budget. */
  lemma LikeBoxKeysBare()
    ensures '&' !in "href" && '=' !in "href" && '&' !in "connections" && '=' !in "connections"
    ensures '&' !in "stream" && '=' !in "stream" && '&' !in "header" && '=' !in "header"
    ensures '&' !in "width" && '=' !in "width" && '&' !in "height" && '=' !in "height"
    ensures '&' !in "10" && '&' !in "true" && '&' !in "false" && '&' !in "292"
    ensures forall h | h in ["255", "555", "287", "587"] :: '&' !in h && ';' !in h
  {
  }

  /** With a page free of `&`, the decided query survives a round trip. */
  lemma LikeBoxQueryPlain(p: LikeBoxParams)
    requires '&' !in p.href
    requires p.connections == "10" && p.width == "292"
    requires p.stream == "true" || p.stream == "false"
    requires p.header == "true" || p.header == "false"
    requires p.height in ["255", "555", "287", "587"]
    ensures Plain(LikeBoxQuery(p))
  {
    LikeBoxKeysBare();
    var ps := LikeBoxQuery(p);
    assert PlainPair(ps[0]) && PlainPair(ps[1]) && PlainPair(ps[2]);
    assert PlainPair(ps[3]) && PlainPair(ps[4]) && PlainPair(ps[5]);
  }

  /** The iframe for decided parameters, read back. */
  lemma LikeBoxFrameOf(p: LikeBoxParams)
    requires '&' !in p.href
    requires p.connections == "10" && p.width == "292"
    requires p.stream == "true" || p.stream == "false"
    requires p.header == "true" || p.header == "false"
    requires p.height in ["255", "555", "287", "587"]
    ensures var f := MakeIframe(Src("likebox", LikeBoxQuery(p)), p.width, p.height);
      var q := QueryParams(f.src);
      && Endpoint(f.src) == FbUrl + "/" + "likebox" + ".php"
      && q == LikeBoxQuery(p)
      && Lookup(q, "width") == Some(p.width) && Lookup(StyleDecls(f.style), "width") == Some(p.width + "px")
      && Lookup(q, "height") == Some(p.height) && Lookup(StyleDecls(f.style), "height") == Some(p.height + "px")
  {
    var ps := LikeBoxQuery(p);
    LikeBoxQueryPlain(p);
    LookupFirst(ps, 4, "width");
    LookupFirst(ps, 5, "height");
    assert ';' !in p.height;
    FrameReadsBack("likebox", ps, p.width, p.height);
  }

  /** Any argument free of `&` decides parameters the like box query can
      carry: a page without `&`, and one of the four modes with its height. */
  lemma LikeBoxDecided(args: Option<string>)
    requires '&' !in Unicode(args)
    ensures var p := LikeBoxParamsOf(Options(args));
      && '&' !in p.href
      && p.connections == "10" && p.width == "292"
      && (p.stream == "true" || p.stream == "false")
      && (p.header == "true" || p.header == "false")
      && p.height in ["255", "555", "287", "587"]
      && p.height == (if p.stream == "true" then (if p.header == "true" then "587" else "555")
                      else (if p.header == "true" then "287" else "255"))
  {
    NoAmpersandInFields(args);
    assert '&' !in FacebookHome;
    LikeBoxHeightFollowsFlags(args);
  }

  /** Read back, the iframe of any LikeBox call shows the likebox endpoint
      with the six template keys in order, and its style repeats the
      query's width (292) and height; this needs an argument without `&`. */
  lemma LikeBoxFrame(args: Option<string>)
    requires '&' !in Unicode(args)
    ensures var f := LikeBox(args);
      var p := LikeBoxParamsOf(Options(args));
      var q := QueryParams(f.src);
      && Endpoint(f.src) == FbUrl + "/" + "likebox" + ".php"
      && q == LikeBoxQuery(p)
      && Keys(q) == ["href", "connections", "stream", "header", "width", "height"]
      && Lookup(q, "href") == Some(p.href)
      && Lookup(q, "width") == Some("292") && Lookup(StyleDecls(f.style), "width") == Some("292" + "px")
      && Lookup(q, "height") == Some(p.height) && Lookup(StyleDecls(f.style), "height") == Some(p.height + "px")
      && f.scrolling == "no" && f.frameborder == "0" && f.allowTransparency == "true"
  {
    var p := LikeBoxParamsOf(Options(args));
    LikeBoxDecided(args);
    LikeBoxFrameOf(p);
    LikeBoxKeys(p);
    LookupFirst(LikeBoxQuery(p), 0, "href");
  }
}
