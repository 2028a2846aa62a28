# Trac Facebook plugins: from macro arguments to iframes

A Dafny model of the core of the Trac Facebook plugins: the wiki macros
`LikeButton`, `ActivityFeed`, `Recommendations` and `LikeBox`. Each macro
turns its argument text into a Facebook plugin iframe. The model covers
both the current package and the older, self-contained `FacebookPlugins.py`.

Every macro follows the same path:

1. The argument is coerced to text; an absent argument becomes `"None"`.
2. The text is split at every comma.
3. The first field picks the page. When that field is `"None"`, LikeButton,
   ActivityFeed and Recommendations fall back to the current wiki page, and
   LikeBox falls back to the bare Facebook address
   `http://www.facebook.com/`. The legacy macros never fall back.
4. The second field picks a layout, switches recommendations off, or picks
   a like box mode. Later fields are ignored.
5. The decided values are written into a `src` URL
   `http://www.facebook.com/plugins/<plugin>.php?k1=v1&k2=v2…`, with the keys
   in a fixed order.
6. `src` goes into an iframe whose style repeats the width and height.

Modules:

- `Wrappers` (`wrappers.dfy`): `Option`.
- `PyStr` (`pystr.dfy`): Python's `unicode(args)` and `str.split`, with
  `Join` and `Partition` as the partners used to read text back.
- `QueryString` (`query.dfy`): the `k=v&…` query text and its parser.
- `FBWikiMacro` (`fbwikimacro.dfy`): `fb_url`, the `iframe` helper and its
  style, plus a reader that takes an iframe apart again.
- `Macros` (`macros.dfy`): the four macros of the current package.
- `LegacyMacros` (`legacy.dfy`): the two macros of `FacebookPlugins.py`.
  Each returns one hand-written markup string.

Each macro is modelled in two steps:

- A function from the split fields to a parameter record
  (`LikeButtonParamsOf`, …).
- A function from that record to an `Iframe` record.

The properties are proved against independent partners:

- The query parser and the CSS declaration reader read the iframe back.
- `Join` is the inverse of `Split`.
- The legacy markup is compared with the current package's iframe,
  serialized.

The page URL that Trac would compute is a parameter (`page`).

## Model

| member | source | states |
|---|---|---|
| PyStr.Split | facebookplugins/__init__.py:81 | splitting at a separator always yields at least one field, and no field contains the separator |
| PyStr.JoinSplit | facebookplugins/__init__.py:81 | joining the fields with the separator gives back the original text: splitting loses no character |
| PyStr.SplitJoin | facebookplugins/__init__.py:81 | splitting a join of separator-free fields gives back exactly those fields |
| PyStr.SplitLength | facebookplugins/__init__.py:81 | there is one field more than there are separators in the text |
| PyStr.SplitSingleIff | facebookplugins/__init__.py:93 | the split has a single field exactly when the text holds no separator, so `len(options) > 1` means "there is a comma" |
| PyStr.SplitNoSep | facebookplugins/__init__.py:81 | text without a separator splits into itself alone |
| PyStr.SplitConcat | facebookplugins/__init__.py:81 | a separator-free prefix followed by a separator becomes the first field, and the rest splits on its own |
| PyStr.FirstField | facebookplugins/__init__.py:90-91 | the first field is the text before the first comma; there is only one field exactly when nothing follows it |
| PyStr.SplitFieldsWithin | facebookplugins/__init__.py:81 | a character absent from the text is absent from every field |
| QueryString.ParseRender | facebookplugins/__init__.py:96-97 | a query built from pairs whose keys avoid `&` and `=` and whose values avoid `&` parses back to the same pairs in the same order |
| QueryString.RenderStep | facebookplugins/__init__.py:96-97 | adding a pair appends `&key=value` to the query text, so the text is built left to right as in the format string |
| QueryString.LookupFirst | facebookplugins/__init__.py:96-97 | a key is looked up at its first position in the query |
| FBWikiMacro.StyleRoundTrip | facebookplugins/__init__.py:52 | read as CSS declarations, the style is `border:none`, `overflow:hidden`, `width:<w>px`, `height:<h>px`, in that order |
| FBWikiMacro.StyleDimensions | facebookplugins/__init__.py:52 | the style's `width` and `height` declarations are the given width and height with `px` appended |
| FBWikiMacro.SrcRoundTrip | facebookplugins/__init__.py:96-97 | for a plugin name without `?` and at least one pair, whose keys avoid `&` and `=` and whose values avoid `&`, a `src` splits at its `?` into `fb_url/<plugin>.php` and a query that parses back to the given pairs |
| FBWikiMacro.FrameReadsBack | facebookplugins/__init__.py:41-55 | for a plugin name without `?`, at least one pair, keys avoiding `&` and `=`, values avoiding `&`, pairs whose first `width` and `height` are the given ones, and a width and height without `;`: from the iframe alone one recovers the endpoint and the pairs; width and height agree between query and style; scrolling is "no", frameborder "0", allowTransparency "true" |
| Macros.HrefOfFirstField | facebookplugins/__init__.py:90-91 | the page is the first field verbatim, untrimmed, and it is the fallback exactly when that field is "None" |
| Macros.HrefOfAbsentArgument | facebookplugins/__init__.py:81-91 | an absent argument becomes the text "None" and so selects the current page |
| Macros.LikeButtonAbsentArgument | facebookplugins/__init__.py:81-99 | `[[LikeButton]]` without an argument likes the current page with the default layout, for every page URL; for a page URL without `&`, the iframe's `href` reads back as that URL |
| Macros.LikeButtonOneField | facebookplugins/__init__.py:81-94 | a single field gives that page (or the current page for "None") with the "standard" layout, show_faces true, width 450, action like, colorscheme light, height 80 |
| Macros.LikeButtonTwoFields | facebookplugins/__init__.py:81-94 | with a second field `b` the layout is `b` + "_count", e.g. button gives button_count; everything else is as with one field |
| Macros.LikeButtonStandardIff | facebookplugins/__init__.py:93-94 | the layout is "standard" exactly when the argument has no comma |
| Macros.LikeButtonIgnoresExtraFields | facebookplugins/__init__.py:90-94 | fields after the second never change the like button iframe |
| Macros.LikeButtonSrcTemplate | facebookplugins/__init__.py:96-97 | the `src` is the format string with each `%s` replaced verbatim by `fb_url`, `like` and the seven values in order |
| Macros.LikeButtonKeys | facebookplugins/__init__.py:96 | the query keys, in order, are href, layout, show_faces, width, action, colorscheme, height |
| Macros.LikeButtonFrameOf | facebookplugins/__init__.py:96-99 | for decided values whose `href` and layout hold no `&`, the iframe reads back to the like endpoint and exactly the decided query, and its style repeats the query's width and height |
| Macros.LikeButtonFrame | facebookplugins/__init__.py:76-99 | for any argument: the like endpoint, exactly the decided query (the seven keys in order, the chosen page as `href`, the chosen layout), and 450 by 80 both in the query and in the style |
| Macros.ActivityFeedOneField | facebookplugins/__init__.py:124-136 | a single field gives that site (or the current page for "None"), width and height 300, header true, light colorscheme, recommendations true |
| Macros.ActivityFeedTwoFields | facebookplugins/__init__.py:124-136 | any second field, whatever its text (even "true"), switches recommendations to "false" |
| Macros.ActivityFeedRecommendationsIff | facebookplugins/__init__.py:130-136 | recommendations are "false" exactly when the argument holds a comma |
| Macros.ActivityFeedIgnoresFieldText | facebookplugins/__init__.py:132-136 | only the first field and the presence of a comma matter: any two texts after the first comma give the same iframe |
| Macros.ActivityFeedSrcTemplate | facebookplugins/__init__.py:138-139 | the `src` is the format string with `fb_url`, `activity` and the six values substituted in order |
| Macros.ActivityFeedKeys | facebookplugins/__init__.py:138 | the query keys, in order, are site, width, height, header, colorscheme, recommendations |
| Macros.ActivityFeedFrameOf | facebookplugins/__init__.py:138-141 | for decided values whose `site` holds no `&`, the iframe reads back to the activity endpoint and exactly the decided query, with the style repeating width and height |
| Macros.ActivityFeedFrame | facebookplugins/__init__.py:119-141 | for any argument: the activity endpoint, exactly the decided query (the six keys in order, the chosen page as `site`, the recommendations flag), and 300 by 300 in the query and in the style |
| Macros.ActivityFeedAbsentArgument | facebookplugins/__init__.py:124-141 | `[[ActivityFeed]]` without an argument shows the current page with recommendations, for every page URL; for a page URL without `&`, the iframe's `site` reads back as that URL |
| Macros.RecommendationsSite | facebookplugins/__init__.py:165-173 | the site is the first field (the current page for "None"), and width, height, header and colorscheme are the fixed 300, 300, true, light |
| Macros.RecommendationsIgnoresRest | facebookplugins/__init__.py:172-178 | everything after the first comma is ignored |
| Macros.RecommendationsSrcTemplate | facebookplugins/__init__.py:175-176 | the `src` is the format string with `fb_url`, `recommendations` and the five values substituted in order |
| Macros.RecommendationsKeys | facebookplugins/__init__.py:175 | the query keys, in order, are site, width, height, header, colorscheme |
| Macros.RecommendationsHasNoFlag | facebookplugins/__init__.py:175-176 | the query has no `recommendations` parameter |
| Macros.RecommendationsFrameOf | facebookplugins/__init__.py:175-178 | for decided values whose `site` holds no `&`, the iframe reads back to the recommendations endpoint and exactly the decided query, with the style repeating width and height |
| Macros.RecommendationsFrame | facebookplugins/__init__.py:160-178 | for any argument: the recommendations endpoint, exactly the decided query (five keys, the chosen page as `site`, no `recommendations` flag), and 300 by 300 in the query and in the style |
| Macros.LikeBoxOneField | facebookplugins/__init__.py:204-213 | a single field gives `http://www.facebook.com/` followed by that field (the bare address for "None"), 10 connections, no stream, no header, width 292, height 255 |
| Macros.LikeBoxTwoFields | facebookplugins/__init__.py:204-226 | a second field "stream" gives stream and height 555, "header" gives header and 287, "full" gives both and 587, and any other text gives neither and 255; width and connections never change |
| Macros.LikeBoxHeightFollowsFlags | facebookplugins/__init__.py:208-226 | for every argument the flags are "true" or "false", and the height is a function of the two flags alone |
| Macros.LikeBoxIgnoresExtraFields | facebookplugins/__init__.py:212-226 | fields after the second never change the like box iframe |
| Macros.LikeBoxSrcTemplate | facebookplugins/__init__.py:228-229 | the `src` is the format string with `fb_url`, `likebox` and the six values substituted in order |
| Macros.LikeBoxKeys | facebookplugins/__init__.py:228 | the query keys, in order, are href, connections, stream, header, width, height |
| Macros.LikeBoxDecided | facebookplugins/__init__.py:204-226 | an argument without `&` decides a page without `&`, connections 10, width 292, flags that are each "true" or "false", and the height those flags select (255, 555, 287 or 587) |
| Macros.LikeBoxFrameOf | facebookplugins/__init__.py:228-231 | for decided values whose `href` holds no `&`, the iframe reads back to the likebox endpoint and exactly the decided query, with the style repeating width and height |
| Macros.LikeBoxFrame | facebookplugins/__init__.py:199-231 | for any argument: the likebox endpoint, exactly the decided query (the six keys in order, the chosen page as `href`), width 292, and the mode's height in the query and in the style |
| LegacyMacros.LegacyHrefOfFirstField | FacebookPlugins.py:41-51 | the legacy page is the first field verbatim, even when that field is "None" |
| LegacyMacros.LegacyHrefOfAbsentArgument | FacebookPlugins.py:41-51 | an absent argument links the text "None" |
| LegacyMacros.LegacyHrefNeverFallsBack | FacebookPlugins.py:42-51 | the split always has a field, so the page is always the first field and the `url` keyword is never chosen |
| LegacyMacros.LegacyHrefAsCurrent | FacebookPlugins.py:50-51 | the legacy page is the current package's page whenever the first field is not "None", and the text "None" otherwise |
| LegacyMacros.LegacyLikeButtonLinksNone | FacebookPlugins.py:41-51 | a first field "None", and an absent argument, make the legacy like button's `href` the text "None" |
| LegacyMacros.LegacyLikeButtonAbsentArgument | FacebookPlugins.py:41-57 | the legacy `[[LikeButton]]` without an argument writes an iframe whose `href` reads back as the text "None", on every page |
| LegacyMacros.LegacyLikeButtonOneField | FacebookPlugins.py:41-54 | a single field gives that page verbatim, the "standard" layout and the fixed show_faces true, width 450, action like, colorscheme light, height 80 |
| LegacyMacros.LegacyLikeButtonTwoFields | FacebookPlugins.py:41-54 | with a second field `b` the layout is `b` + "_count" |
| LegacyMacros.LegacyLikeButtonStandardIff | FacebookPlugins.py:43-54 | the layout is "standard" exactly when the argument has no comma |
| LegacyMacros.LikeButtonMarkupAgrees | FacebookPlugins.py:56-57 | the hand-written like markup, with width and height written twice, is character for character the current like iframe serialized |
| LegacyMacros.LegacyLikeButtonAsCurrent | FacebookPlugins.py:36-59 | the legacy like button is the current one serialized, for a host whose page URL is the text "None" |
| LegacyMacros.LegacyLikeButtonAgrees | FacebookPlugins.py:50-57 | when the first field is not "None" the legacy and current like buttons write the same markup, whatever the current page |
| LegacyMacros.LegacyLikeButtonFrame | FacebookPlugins.py:44-57 | the legacy markup shows the like endpoint, the seven keys in order, the first field as `href`, and 450 by 80 once in the query and once in the style |
| LegacyMacros.LegacyActivityFeedLinksNone | FacebookPlugins.py:84-93 | a first field "None", and an absent argument, make the legacy activity feed's `site` the text "None" |
| LegacyMacros.LegacyActivityFeedOneField | FacebookPlugins.py:84-96 | a single field gives that site verbatim, 300 by 300, header true, light colorscheme, recommendations true |
| LegacyMacros.LegacyActivityFeedTwoFields | FacebookPlugins.py:84-96 | any second field switches recommendations to "false" |
| LegacyMacros.LegacyActivityFeedRecommendationsIff | FacebookPlugins.py:90-96 | recommendations are "false" exactly when the argument holds a comma |
| LegacyMacros.ActivityFeedMarkupAgrees | FacebookPlugins.py:98-99 | the hand-written activity markup is character for character the current activity iframe serialized |
| LegacyMacros.LegacyActivityFeedAsCurrent | FacebookPlugins.py:80-101 | the legacy activity feed is the current one serialized, for a host whose page URL is the text "None" |
| LegacyMacros.LegacyActivityFeedAgrees | FacebookPlugins.py:92-99 | when the first field is not "None" the legacy and current activity feeds write the same markup |
| LegacyMacros.LegacyActivityFeedFrame | FacebookPlugins.py:86-99 | the legacy markup shows the activity endpoint, its six keys, the first field as `site`, and 300 by 300 in the query and in the style |

## Left out

- The current page URL is a `page` parameter. `abs_href` calls into Trac
  (`get_resource_url` with the request's `abs_href`, facebookplugins/__init__.py:31-38),
  which is host code.
- Genshi's `tag.iframe` rendering and HTML escaping are not modelled. The
  current macros return an `Iframe` attribute record. `LegacyMacros.Markup`
  serializes one in the attribute order the legacy strings use, without
  escaping, which is exactly what the legacy `%` templates do.
- Trac registration (`WikiMacroBase`, `Component`, `__all__`) and the
  `$Rev$` keyword are not modelled. The `url` keyword appears only as
  `LegacyMacros.UrlKeyword`, the legacy fallback that is never taken.
- The macro name, the `formatter` (except through `page`) and the Python 2
  `unicode` type are not modelled. Arguments are `Option<string>`: an
  absent argument becomes the text "None", and any other text is taken as it is.
- doc/util.py and setup.py are not part of this model: they are
  documentation tooling and packaging.
- Widths and heights are kept as the strings the macros pass (`'450'`,
  `'80'`, …), not as the `int` the `iframe` docstring mentions.
- Neither version escapes the values it puts into `src`. An argument or
  page URL containing `&` adds query pairs of its own. The read-back
  properties are therefore stated for text without `&`; the lines below
  name each such member.
- FBWikiMacro.SrcRoundTrip: stated only for a plugin name without `?` and at least one pair whose keys avoid `&` and `=` and whose values avoid `&`.
- FBWikiMacro.FrameReadsBack: stated only for the pairs `SrcRoundTrip` allows, and for a width and height without `;`, which would split the style's declarations.
- Macros.LikeButtonFrameOf: stated only for an `href` and a layout without `&`.
- Macros.ActivityFeedFrameOf: stated only for a `site` without `&`.
- Macros.RecommendationsFrameOf: stated only for a `site` without `&`.
- Macros.LikeBoxFrameOf: stated only for an `href` without `&`.
- Macros.LikeButtonAbsentArgument: the read-back of `href` is stated only for a page URL without `&`; the decided parameters are stated for every page URL.
- Macros.ActivityFeedAbsentArgument: the read-back of `site` is stated only for a page URL without `&`; the decided parameters are stated for every page URL.
- Macros.LikeButtonFrame: stated only for an argument and a page URL without `&`, which the macro does not escape.
- Macros.ActivityFeedFrame: stated only for an argument and a page URL without `&`.
- Macros.RecommendationsFrame: stated only for an argument and a page URL without `&`.
- Macros.LikeBoxFrame: stated only for an argument without `&`.
- LegacyMacros.LegacyLikeButtonFrame: stated only for an argument without `&`.
- LegacyMacros.LegacyActivityFeedFrame: stated only for an argument without `&`.

## Findings

| source | as written | input that shows it | evidently intended | confidence | as-written member | corrected member |
|---|---|---|---|---|---|---|
| FacebookPlugins.py:50-51 | `len(options) > 0` always holds after `split`, so the page is always the first field, and an absent argument links the text "None" | `[[LikeButton]]`, i.e. `args` absent | the current page, as the class's own example `[[LikeButton]]  # current page` says; the current package tests `options[0] != "None"` and falls back to the page URL | high, not executed | LegacyMacros.LegacyLikeButtonLinksNone | Macros.LikeButtonAbsentArgument |
| FacebookPlugins.py:92-93 | the same guard in the legacy activity feed always holds, so an absent argument shows the site "None" | `[[ActivityFeed]]`, i.e. `args` absent | the current page, as the class's own example `[[ActivityFeed]]  # current page` says; the current package falls back to the page URL | high, not executed | LegacyMacros.LegacyActivityFeedLinksNone | Macros.ActivityFeedAbsentArgument |
