/** The older, self-contained macros (`FacebookPlugins.py`): LikeButton and
    ActivityFeed, each returning its iframe as one hand-written markup
    string. They differ from the current package in their fallback: the
    `len(options) > 0` guard always holds, so the page is the first field
    even when that field is "None", and the class's `url` keyword is never
    used. */
module LegacyMacros {
  import opened Wrappers
  import opened PyStr
  import opened QueryString
  import opened FBWikiMacro
  import opened Macros

  /** The `url` class attribute: an unexpanded version-control keyword. */
  const UrlKeyword: string := "$URL$"

  /** The iframe record serialized in the attribute order and quoting the
      legacy macros write by hand. */
  function Markup(f: Iframe): string {
    "<iframe src=\"" + f.src + "\" scrolling=\"" + f.scrolling + "\" frameborder=\"" + f.frameborder +
    "\" style=\"" + f.style + "\" allowTransparency=\"" + f.allowTransparency + "\"></iframe>"
  }

  /** The page of a legacy macro: the first field whenever there is one. */
  function LegacyHref(options: seq<string>): string {
    if |options| > 0 then options[0] else UrlKeyword
  }

  /** Legacy `LikeButton.expand_macro`, the decisions. */
  function LegacyLikeButtonParamsOf(options: seq<string>): LikeButtonParams {
    LikeButtonParams(
      LegacyHref(options),
      if |options| > 1 then options[1] + "_count" else "standard",
      "true", "450", "like", "light", "80")
  }

  /** The legacy like-button markup template with its nine `%s` filled in
      from `p` (the width and height appear twice). */
  function LegacyLikeButtonMarkup(p: LikeButtonParams): string {
    "<iframe src=\"http://www.facebook.com/plugins/like.php?href=" + p.href + "&layout=" + p.layout +
    "&show_faces=" + p.showFaces + "&width=" + p.width + "&action=" + p.action +
    "&colorscheme=" + p.colorscheme + "&height=" + p.height +
    "\" scrolling=\"no\" frameborder=\"0\" style=\"border:none; overflow:hidden; width:" + p.width +
    "px; height:" + p.height + "px;\" allowTransparency=\"true\"></iframe>"
  }

  /** Legacy `LikeButton.expand_macro(formatter, name, args)`. */
  function LegacyLikeButton(args: Option<string>): string {
    LegacyLikeButtonMarkup(LegacyLikeButtonParamsOf(Options(args)))
  }

  /** Legacy `ActivityFeed.expand_macro`, the decisions. */
  function LegacyActivityFeedParamsOf(options: seq<string>): ActivityFeedParams {
    ActivityFeedParams(
      LegacyHref(options), "300", "300", "true", "light",
      if |options| > 1 then "false" else "true")
  }

  /** The legacy activity-feed markup template with its eight `%s` filled in
      from `p`. */
  function LegacyActivityFeedMarkup(p: ActivityFeedParams): string {
    "<iframe src=\"http://www.facebook.com/plugins/activity.php?site=" + p.site + "&width=" + p.width +
    "&height=" + p.height + "&header=" + p.header + "&colorscheme=" + p.colorscheme +
    "&recommendations=" + p.recommendations +
    "\" scrolling=\"no\" frameborder=\"0\" style=\"border:none; overflow:hidden; width:" + p.width +
    "px; height:" + p.height + "px;\" allowTransparency=\"true\"></iframe>"
  }

  /** Legacy `ActivityFeed.expand_macro(formatter, name, args)`. */
  function LegacyActivityFeed(args: Option<string>): string {
    LegacyActivityFeedMarkup(LegacyActivityFeedParamsOf(Options(args)))
  }

  /** The page is the first field of the argument `a + tail`, verbatim, even
      when it is "None": the keyword fallback is never taken. */
  lemma LegacyHrefOfFirstField(a: string, tail: string)
    requires FirstFieldOf(a, tail)
    ensures LegacyHref(Options(Some(a + tail))) == a
  {
    FirstField(a, ',', tail);
  }

  /** An absent argument links the text "None", not the current page. */
  lemma LegacyHrefOfAbsentArgument()
    ensures LegacyHref(Options(None)) == "None"
  {
    LegacyHrefOfFirstField("None", "");
    assert "None" + "" == "None";
  }

  /** Whatever the argument, the page is its first field and never the
      `url` keyword's fallback. */
  lemma LegacyHrefNeverFallsBack(args: Option<string>)
    ensures var options := Options(args);
      |options| > 0 && LegacyHref(options) == options[0]
    ensures UrlKeyword !in Options(args) ==> LegacyHref(Options(args)) != UrlKeyword
  {
  }

  /** The legacy page is the current macros' page whenever the first field
      is not "None", and the "None" the current macros would replace
      otherwise. */
  lemma LegacyHrefAsCurrent(args: Option<string>, page: string)
    ensures LegacyHref(Options(args)) == Href(Options(args), "None")
    ensures Options(args)[0] != "None" ==> LegacyHref(Options(args)) == Href(Options(args), page)
  {
  }

  // Proof scaffolding for the two `…MarkupAgrees` lemmas below. The
  // concatenations of the templates' fixed texts, proved one short piece at a
  // time, and the regroupings after them state nothing about the macros: they
  // exist only to keep those proofs within the solver's resource budget.

  lemma FrameOpening()
    ensures "<iframe src=\"" + FbUrl == "<iframe src=\"http://www.facebook.com/plugins"
    ensures "<iframe src=\"http://www.facebook.com/plugins" + "/" == "<iframe src=\"http://www.facebook.com/plugins/"
  {
  }

  lemma LikeOpening()
    ensures "<iframe src=\"http://www.facebook.com/plugins/" + "like" == "<iframe src=\"http://www.facebook.com/plugins/like"
    ensures "<iframe src=\"http://www.facebook.com/plugins/like" + ".php?" == "<iframe src=\"http://www.facebook.com/plugins/like.php?"
  {
  }

  lemma LikeOpeningHref()
    ensures "<iframe src=\"http://www.facebook.com/plugins/like.php?" + "href=" == "<iframe src=\"http://www.facebook.com/plugins/like.php?href="
  {
  }

  lemma ActivityOpening()
    ensures "<iframe src=\"http://www.facebook.com/plugins/" + "activity" == "<iframe src=\"http://www.facebook.com/plugins/activity"
    ensures "<iframe src=\"http://www.facebook.com/plugins/activity" + ".php?" == "<iframe src=\"http://www.facebook.com/plugins/activity.php?"
  {
  }

  lemma ActivityOpeningSite()
    ensures "<iframe src=\"http://www.facebook.com/plugins/activity.php?" + "site=" == "<iframe src=\"http://www.facebook.com/plugins/activity.php?site="
  {
  }

  lemma FrameAttributes()
    ensures "\" scrolling=\"" + "no" + "\" frameborder=\"" + "0" + "\" style=\"" == "\" scrolling=\"no\" frameborder=\"0\" style=\""
  {
  }

  lemma FrameStyleOpening()
    ensures "\" scrolling=\"no\" frameborder=\"0\" style=\"" + "border:none; overflow:hidden; width:" ==
      "\" scrolling=\"no\" frameborder=\"0\" style=\"border:none; overflow:hidden; width:"
  {
  }

  lemma FrameClosing()
    ensures "px;" + "\" allowTransparency=\"" + "true" + "\"></iframe>" == "px;\" allowTransparency=\"true\"></iframe>"
  {
  }

  /** Regrouping a serialized iframe whose `src` is a base URL, a first key
      `k0` and the rest `r` of the query, and whose style names a width and
      a height: `head`, `middle` and `tail` are the fixed texts of a
      hand-written template around the values. */
  lemma FrameRegroup(
    a: string, base: string, k0: string, r: string,
    b1: string, sc: string, b2: string, fb: string, b3: string,
    s0: string, w: string, s1: string, h: string, s2: string, b4: string, at: string, b5: string,
    head: string, middle: string, tail: string)
    requires head == a + base + k0
    requires middle == b1 + sc + b2 + fb + b3 + s0
    requires tail == s2 + b4 + at + b5
    ensures a + (base + (k0 + r)) + b1 + sc + b2 + fb + b3 + (s0 + w + s1 + h + s2) + b4 + at + b5 ==
            head + r + middle + w + s1 + h + tail
  {
  }

  /** Seven values and the six keys between them, appended one at a time or
      as one block. */
  lemma SevenValues(
    x: string, v0: string, k1: string, v1: string, k2: string, v2: string,
    k3: string, v3: string, k4: string, v4: string, k5: string, v5: string, k6: string, v6: string)
    ensures x + v0 + k1 + v1 + k2 + v2 + k3 + v3 + k4 + v4 + k5 + v5 + k6 + v6 ==
            x + (v0 + k1 + v1 + k2 + v2 + k3 + v3 + k4 + v4 + k5 + v5 + k6 + v6)
  {
  }

  /** Six values and the five keys between them, appended one at a time or
      as one block. */
  lemma SixValues(
    x: string, v0: string, k1: string, v1: string, k2: string, v2: string,
    k3: string, v3: string, k4: string, v4: string, k5: string, v5: string)
    ensures x + v0 + k1 + v1 + k2 + v2 + k3 + v3 + k4 + v4 + k5 + v5 ==
            x + (v0 + k1 + v1 + k2 + v2 + k3 + v3 + k4 + v4 + k5 + v5)
  {
  }

  /** Four base pieces after an opening, regrouped. */
  lemma BaseRegroup(a: string, u1: string, u2: string, u3: string, u4: string, k0: string)
    ensures a + u1 + u2 + u3 + u4 + k0 == a + (u1 + u2 + u3 + u4) + k0
  {
  }

  /** The hand-written like-button template is the current iframe record
      serialized: for the same parameters they agree character for
      character. */
  lemma LikeButtonMarkupAgrees(p: LikeButtonParams)
    ensures Markup(MakeIframe(Src("like", LikeButtonQuery(p)), p.width, p.height)) ==
      LegacyLikeButtonMarkup(p)
  {
    LikeButtonSrcTemplate(p);
    FrameOpening();
    LikeOpening();
    LikeOpeningHref();
    FrameAttributes();
    FrameStyleOpening();
    FrameClosing();
    BaseRegroup("<iframe src=\"", FbUrl, "/", "like", ".php?", "href=");
    var r := p.href + "&layout=" + p.layout + "&show_faces=" + p.showFaces + "&width=" + p.width +
      "&action=" + p.action + "&colorscheme=" + p.colorscheme + "&height=" + p.height;
    SevenValues("href=", p.href, "&layout=", p.layout, "&show_faces=", p.showFaces, "&width=", p.width,
      "&action=", p.action, "&colorscheme=", p.colorscheme, "&height=", p.height);
    SevenValues("<iframe src=\"http://www.facebook.com/plugins/like.php?href=",
      p.href, "&layout=", p.layout, "&show_faces=", p.showFaces, "&width=", p.width,
      "&action=", p.action, "&colorscheme=", p.colorscheme, "&height=", p.height);
    FrameRegroup(
      "<iframe src=\"", FbUrl + "/" + "like" + ".php?", "href=", r,
      "\" scrolling=\"", "no", "\" frameborder=\"", "0", "\" style=\"",
      "border:none; overflow:hidden; width:", p.width, "px; height:", p.height, "px;",
      "\" allowTransparency=\"", "true", "\"></iframe>",
      "<iframe src=\"http://www.facebook.com/plugins/like.php?href=",
      "\" scrolling=\"no\" frameborder=\"0\" style=\"border:none; overflow:hidden; width:",
      "px;\" allowTransparency=\"true\"></iframe>");
  }

  /** The hand-written activity-feed template is the current iframe record
      serialized. */
  lemma ActivityFeedMarkupAgrees(p: ActivityFeedParams)
    ensures Markup(MakeIframe(Src("activity", ActivityFeedQuery(p)), p.width, p.height)) ==
      LegacyActivityFeedMarkup(p)
  {
    ActivityFeedSrcTemplate(p);
    FrameOpening();
    ActivityOpening();
    ActivityOpeningSite();
    FrameAttributes();
    FrameStyleOpening();
    FrameClosing();
    BaseRegroup("<iframe src=\"", FbUrl, "/", "activity", ".php?", "site=");
    var r := p.site + "&width=" + p.width + "&height=" + p.height + "&header=" + p.header +
      "&colorscheme=" + p.colorscheme + "&recommendations=" + p.recommendations;
    SixValues("site=", p.site, "&width=", p.width, "&height=", p.height, "&header=", p.header,
      "&colorscheme=", p.colorscheme, "&recommendations=", p.recommendations);
    SixValues("<iframe src=\"http://www.facebook.com/plugins/activity.php?site=",
      p.site, "&width=", p.width, "&height=", p.height, "&header=", p.header,
      "&colorscheme=", p.colorscheme, "&recommendations=", p.recommendations);
    FrameRegroup(
      "<iframe src=\"", FbUrl + "/" + "activity" + ".php?", "site=", r,
      "\" scrolling=\"", "no", "\" frameborder=\"", "0", "\" style=\"",
      "border:none; overflow:hidden; width:", p.width, "px; height:", p.height, "px;",
      "\" allowTransparency=\"", "true", "\"></iframe>",
      "<iframe src=\"http://www.facebook.com/plugins/activity.php?site=",
      "\" scrolling=\"no\" frameborder=\"0\" style=\"border:none; overflow:hidden; width:",
      "px;\" allowTransparency=\"true\"></iframe>");
  }

  /** One field: that page verbatim, "standard" layout and the fixed
      450 by 80 like button. */
  lemma LegacyLikeButtonOneField(a: string)
    requires ',' !in a
    ensures LegacyLikeButtonParamsOf(Options(Some(a))) ==
      LikeButtonParams(a, "standard", "true", "450", "like", "light", "80")
  {
    assert a + "" == a;
    LegacyHrefOfFirstField(a, "");
    FirstField(a, ',', "");
  }

  /** Two or more fields: the second one, suffixed with "_count", is the
      layout. */
  lemma LegacyLikeButtonTwoFields(a: string, b: string, tail: string)
    requires ',' !in a && FirstFieldOf(b, tail)
    ensures LegacyLikeButtonParamsOf(Options(Some(a + "," + b + tail))) ==
      LikeButtonParams(a, b + "_count", "true", "450", "like", "light", "80")
  {
    var t := a + "," + b + tail;
    assert t == a + [','] + (b + tail);
    SplitConcat(a, ',', b + tail);
    FirstField(b, ',', tail);
  }

  /** The layout is "standard" exactly when the argument has no comma. */
  lemma LegacyLikeButtonStandardIff(args: Option<string>)
    ensures LegacyLikeButtonParamsOf(Options(args)).layout == "standard" <==> ',' !in Unicode(args)
  {
    SplitSingleIff(Unicode(args), ',');
    var options := Options(args);
    if |options| > 1 {
      var layout := options[1] + "_count";
      assert layout[|layout| - 1] == 't';
    }
  }

  /** The legacy like button is the current one, serialized, for a host
      whose page URL is the text "None"; it differs only in the page. */
  lemma LegacyLikeButtonAsCurrent(args: Option<string>)
    ensures LegacyLikeButton(args) == Markup(LikeButton(args, "None"))
  {
    LegacyHrefAsCurrent(args, "None");
    LikeButtonMarkupAgrees(LikeButtonParamsOf(Options(args), "None"));
  }

  /** Away from "None" the two versions write the same markup, whatever the
      current page. */
  lemma LegacyLikeButtonAgrees(args: Option<string>, page: string)
    requires Options(args)[0] != "None"
    ensures LegacyLikeButton(args) == Markup(LikeButton(args, page))
  {
    LegacyHrefAsCurrent(args, page);
    LikeButtonMarkupAgrees(LikeButtonParamsOf(Options(args), page));
  }

  /** The legacy like button, read back from its markup: the like endpoint,
      the query keys in template order, the width and height once in the
      query and once in the style, and the fixed attributes. */
  lemma LegacyLikeButtonFrame(args: Option<string>)
    requires '&' !in Unicode(args)
    ensures var f := LikeButton(args, "None");
      var q := QueryParams(f.src);
      && LegacyLikeButton(args) == Markup(f)
      && Endpoint(f.src) == FbUrl + "/" + "like" + ".php"
      && Keys(q) == ["href", "layout", "show_faces", "width", "action", "colorscheme", "height"]
      && Lookup(q, "href") == Some(Options(args)[0])
      && Lookup(q, "width") == Some("450") && Lookup(StyleDecls(f.style), "width") == Some("450" + "px")
      && Lookup(q, "height") == Some("80") && Lookup(StyleDecls(f.style), "height") == Some("80" + "px")
      && f.scrolling == "no" && f.frameborder == "0" && f.allowTransparency == "true"
  {
    LegacyLikeButtonAsCurrent(args);
    LikeButtonFrame(args, "None");
    LegacyHrefAsCurrent(args, "None");
  }

  /** A first field "None", or no argument at all, makes the legacy like
      button point at the text "None" rather than at any page. */
  lemma LegacyLikeButtonLinksNone(tail: string)
    requires FieldEnd(tail, ',')
    ensures LegacyLikeButtonParamsOf(Options(Some("None" + tail))).href == "None"
    ensures LegacyLikeButtonParamsOf(Options(None)).href == "None"
  {
    LegacyHrefOfFirstField("None", tail);
    LegacyHrefOfAbsentArgument();
  }

  /** The legacy `[[LikeButton]]` without an argument likes the text "None":
      its markup is an iframe whose `href` reads back as "None", whatever
      page it stands on. */
  lemma LegacyLikeButtonAbsentArgument()
    ensures var f := LikeButton(None, "None");
      && LegacyLikeButton(None) == Markup(f)
      && Lookup(QueryParams(f.src), "href") == Some("None")
  {
    assert '&' !in Unicode(None);
    LegacyLikeButtonFrame(None);
    LegacyHrefOfAbsentArgument();
  }

  /** A first field "None", or no argument at all, makes the legacy activity
      feed show the site named "None" rather than any page. */
  lemma LegacyActivityFeedLinksNone(tail: string)
    requires FieldEnd(tail, ',')
    ensures LegacyActivityFeedParamsOf(Options(Some("None" + tail))).site == "None"
    ensures LegacyActivityFeedParamsOf(Options(None)).site == "None"
  {
    LegacyHrefOfFirstField("None", tail);
    LegacyHrefOfAbsentArgument();
  }

  /** One field: that site verbatim, with recommendations. */
  lemma LegacyActivityFeedOneField(a: string)
    requires ',' !in a
    ensures LegacyActivityFeedParamsOf(Options(Some(a))) ==
      ActivityFeedParams(a, "300", "300", "true", "light", "true")
  {
    assert a + "" == a;
    LegacyHrefOfFirstField(a, "");
    FirstField(a, ',', "");
  }

  /** Two or more fields: recommendations are off whatever the second field
      says. */
  lemma LegacyActivityFeedTwoFields(a: string, rest: string)
    requires ',' !in a
    ensures LegacyActivityFeedParamsOf(Options(Some(a + "," + rest))) ==
      ActivityFeedParams(a, "300", "300", "true", "light", "false")
  {
    assert a + "," + rest == a + [','] + rest;
    SplitConcat(a, ',', rest);
  }

  /** Recommendations are "false" exactly when the argument has a comma. */
  lemma LegacyActivityFeedRecommendationsIff(args: Option<string>)
    ensures LegacyActivityFeedParamsOf(Options(args)).recommendations == "false" <==> ',' in Unicode(args)
  {
    SplitSingleIff(Unicode(args), ',');
  }

  /** The legacy activity feed is the current one, serialized, for a host
      whose page URL is the text "None". */
  lemma LegacyActivityFeedAsCurrent(args: Option<string>)
    ensures LegacyActivityFeed(args) == Markup(ActivityFeed(args, "None"))
  {
    LegacyHrefAsCurrent(args, "None");
    ActivityFeedMarkupAgrees(ActivityFeedParamsOf(Options(args), "None"));
  }

  /** Away from "None" the two versions write the same markup. */
  lemma LegacyActivityFeedAgrees(args: Option<string>, page: string)
    requires Options(args)[0] != "None"
    ensures LegacyActivityFeed(args) == Markup(ActivityFeed(args, page))
  {
    LegacyHrefAsCurrent(args, page);
    ActivityFeedMarkupAgrees(ActivityFeedParamsOf(Options(args), page));
  }

  /** The legacy activity feed, read back from its markup: the activity
      endpoint, its keys, the first field as site, and 300 by 300 in the
      query and in the style. */
  lemma LegacyActivityFeedFrame(args: Option<string>)
    requires '&' !in Unicode(args)
    ensures var f := ActivityFeed(args, "None");
      var q := QueryParams(f.src);
      && LegacyActivityFeed(args) == Markup(f)
      && Endpoint(f.src) == FbUrl + "/" + "activity" + ".php"
      && Keys(q) == ["site", "width", "height", "header", "colorscheme", "recommendations"]
      && Lookup(q, "site") == Some(Options(args)[0])
      && Lookup(q, "width") == Some("300") && Lookup(StyleDecls(f.style), "width") == Some("300" + "px")
      && Lookup(q, "height") == Some("300") && Lookup(StyleDecls(f.style), "height") == Some("300" + "px")
      && f.scrolling == "no" && f.frameborder == "0" && f.allowTransparency == "true"
  {
    LegacyActivityFeedAsCurrent(args);
    ActivityFeedFrame(args, "None");
    LegacyHrefAsCurrent(args, "None");
  }
}
