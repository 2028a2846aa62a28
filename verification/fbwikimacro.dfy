/** The helper every current macro shares (`FBWikiMacro`): the base URL of
    Facebook's plugin endpoints, the `src` URL of one plugin, and the iframe
    that shows it. The iframe is the attribute record handed to Genshi's
    `tag.iframe`, not serialized markup. */
module FBWikiMacro {
  import opened Wrappers
  import opened PyStr
  import opened QueryString

  /** `fb_url`: base URL of Facebook's plugin scripts. */
  const FbUrl: string := "http://www.facebook.com/plugins"

  /** The attributes of the generated `<iframe>`. */
  datatype Iframe = Iframe(
    src: string,
    scrolling: string,
    frameborder: string,
    style: string,
    allowTransparency: string)

  /** The inline style that repeats the frame's size. */
  function Style(width: string, height: string): string {
    "border:none; overflow:hidden; width:" + width + "px; height:" + height + "px;"
  }

  /** `FBWikiMacro.iframe(src, width, height)`. */
  function MakeIframe(src: string, width: string, height: string): Iframe {
    Iframe(src, "no", "0", Style(width, height), "true")
  }

  /** `"%s/%s.php?<query>" % (fb_url, plugin_name, ...)`. */
  function Src(plugin: string, ps: seq<Param>): string {
    FbUrl + "/" + plugin + ".php?" + Render(ps)
  }

  /** The part of a URL before its first `?`. */
  function Endpoint(url: string): string {
    Partition(url, '?').0
  }

  /** The pairs of the query string after the first `?` of a URL. */
  function QueryParams(url: string): seq<Param> {
    Parse(Partition(url, '?').1)
  }

  /** Reads one `property:value` declaration, dropping one leading blank. */
  function ParseDecl(d: string): Param {
    var d' := if |d| > 0 && d[0] == ' ' then d[1..] else d;
    var (p, v) := Partition(d', ':');
    Param(p, v)
  }

  /** Reads a list of declarations. */
  function ReadDecls(ds: seq<string>): (decls: seq<Param>)
    ensures |decls| == |ds|
  {
    if |ds| == 0 then [] else [ParseDecl(ds[0])] + ReadDecls(ds[1..])
  }

  /** Reads an inline style back into its declarations, in order. */
  function StyleDecls(style: string): seq<Param> {
    ReadDecls(Split(style, ';'))
  }

  /** One `property:value` declaration of the style, as written after the
      first `;` (with its leading blank). */
  function Decl(property: string, value: string): string {
    " " + property + ":" + value
  }

  /** The style text as its four declarations, each followed by a `;`. */
  lemma StyleShape(width: string, height: string)
    ensures Style(width, height) ==
      "border:none" + [';'] + (Decl("overflow", "hidden") + [';'] +
      (Decl("width", width + "px") + [';'] + (Decl("height", height + "px") + [';'] + "")))
  {
  }

  /** Splitting the style at `;` gives its declarations. */
  lemma StyleSplit(width: string, height: string)
    requires ';' !in width && ';' !in height
    ensures Split(Style(width, height), ';') ==
      ["border:none", Decl("overflow", "hidden"), Decl("width", width + "px"),
       Decl("height", height + "px"), ""]
  {
    var d1, d2, d3 := Decl("overflow", "hidden"), Decl("width", width + "px"), Decl("height", height + "px");
    StyleShape(width, height);
    var t3 := d3 + [';'] + "";
    var t2 := d2 + [';'] + t3;
    var t1 := d1 + [';'] + t2;
    SplitConcat(d3, ';', "");
    SplitConcat(d2, ';', t3);
    SplitConcat(d1, ';', t2);
    SplitConcat("border:none", ';', t1);
  }

  /** A declaration with a colon-free property reads back as that property
      and its value. */
  lemma DeclRoundTrip(p: string, v: string)
    requires ':' !in p
    ensures ParseDecl(Decl(p, v)) == Param(p, v)
  {
    var d := Decl(p, v);
    assert d[1..] == p + [':'] + v;
    PartitionConcat(p, ':', v);
  }

  /** A declaration list of the shape the style has, read one by one:
      a first declaration without a leading blank, three with one, and the
      empty text after the final `;`. */
  lemma ReadStyleDecls(p0: string, v0: string, p1: string, v1: string,
                       p2: string, v2: string, p3: string, v3: string)
    requires ':' !in p0 && ':' !in p1 && ':' !in p2 && ':' !in p3
    requires |p0| > 0 && p0[0] != ' '
    ensures ReadDecls([p0 + ":" + v0, Decl(p1, v1), Decl(p2, v2), Decl(p3, v3), ""]) ==
      [Param(p0, v0), Param(p1, v1), Param(p2, v2), Param(p3, v3), Param("", "")]
  {
    var ds := [p0 + ":" + v0, Decl(p1, v1), Decl(p2, v2), Decl(p3, v3), ""];
    assert ds[0] == p0 + [':'] + v0;
    PartitionConcat(p0, ':', v0);
    DeclRoundTrip(p1, v1);
    DeclRoundTrip(p2, v2);
    DeclRoundTrip(p3, v3);
    assert Split("", ':') == [""];
    assert ReadDecls(ds[4..]) == [Param("", "")];
    assert ReadDecls(ds[3..]) == [Param(p3, v3)] + ReadDecls(ds[4..]) by { assert ds[3..][1..] == ds[4..]; }
    assert ReadDecls(ds[2..]) == [Param(p2, v2)] + ReadDecls(ds[3..]) by { assert ds[2..][1..] == ds[3..]; }
    assert ReadDecls(ds[1..]) == [Param(p1, v1)] + ReadDecls(ds[2..]) by { assert ds[1..][1..] == ds[2..]; }
  }

  /** Reading the style back gives the two fixed declarations, then the
      width and the height in pixels (the trailing `;` leaves an empty
      declaration at the end). */
  lemma StyleRoundTrip(width: string, height: string)
    requires ';' !in width && ';' !in height
    ensures StyleDecls(Style(width, height)) ==
      [Param("border", "none"), Param("overflow", "hidden"),
       Param("width", width + "px"), Param("height", height + "px"), Param("", "")]
  {
    StyleSplit(width, height);
    assert "border:none" == "border" + ":" + "none";
    ReadStyleDecls("border", "none", "overflow", "hidden", "width", width + "px", "height", height + "px");
  }

  /** The width and height the style declares, in pixels. */
  lemma StyleDimensions(width: string, height: string)
    requires ';' !in width && ';' !in height
    ensures Lookup(StyleDecls(Style(width, height)), "width") == Some(width + "px")
    ensures Lookup(StyleDecls(Style(width, height)), "height") == Some(height + "px")
  {
    var decls := StyleDecls(Style(width, height));
    StyleRoundTrip(width, height);
    assert "border" != "width" && "border" != "height";
    assert "overflow" != "width" && "overflow" != "height";
    assert Lookup(decls[2..], "width") == Some(width + "px");
    assert Lookup(decls[1..], "width") == Lookup(decls[2..], "width") by { assert decls[1..][1..] == decls[2..]; }
    assert "width" != "height";
    assert Lookup(decls[3..], "height") == Some(height + "px");
    assert Lookup(decls[2..], "height") == Lookup(decls[3..], "height") by { assert decls[2..][1..] == decls[3..]; }
    assert Lookup(decls[1..], "height") == Lookup(decls[2..], "height") by { assert decls[1..][1..] == decls[2..]; }
  }

  /** Reading a generated `src` back gives the plugin's endpoint and exactly
      the pairs that were written, provided no value holds an `&`. */
  lemma SrcRoundTrip(plugin: string, ps: seq<Param>)
    requires '?' !in plugin
    requires Plain(ps)
    ensures Endpoint(Src(plugin, ps)) == FbUrl + "/" + plugin + ".php"
    ensures QueryParams(Src(plugin, ps)) == ps
  {
    var base := FbUrl + "/" + plugin + ".php";
    assert '?' !in FbUrl + "/";
    assert '?' !in ".php";
    assert Src(plugin, ps) == base + ['?'] + Render(ps);
    PartitionConcat(base, '?', Render(ps));
    ParseRender(ps);
  }

  /** The iframe a macro returns for plugin `plugin` with query pairs `ps`:
      its `src` reads back as the plugin endpoint with exactly those pairs,
      the style repeats the width and height found in that query, and the
      remaining attributes are fixed. */
  lemma FrameReadsBack(plugin: string, ps: seq<Param>, width: string, height: string)
    requires '?' !in plugin
    requires Plain(ps)
    requires ';' !in width && ';' !in height
    requires Lookup(ps, "width") == Some(width) && Lookup(ps, "height") == Some(height)
    ensures var f := MakeIframe(Src(plugin, ps), width, height);
      && Endpoint(f.src) == FbUrl + "/" + plugin + ".php"
      && QueryParams(f.src) == ps
      && Lookup(QueryParams(f.src), "width") == Some(width)
      && Lookup(StyleDecls(f.style), "width") == Some(width + "px")
      && Lookup(QueryParams(f.src), "height") == Some(height)
      && Lookup(StyleDecls(f.style), "height") == Some(height + "px")
      && f.scrolling == "no" && f.frameborder == "0" && f.allowTransparency == "true"
  {
    SrcRoundTrip(plugin, ps);
    StyleDimensions(width, height);
  }
}
