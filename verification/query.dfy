/** The `key=value&key=value` query strings the macros write by `%`
    formatting, and a reader for them. The macros substitute values
    verbatim, with no percent-encoding, so the reader recovers what was
    written only when no value holds an `&`. */
module QueryString {
  import opened Wrappers
  import opened PyStr

  /** One `key=value` pair; also used for one `property:value` declaration
      of an inline style. */
  datatype Param = Param(key: string, value: string)

  /** The keys of `ps`, in order. */
  function Keys(ps: seq<Param>): seq<string> {
    seq(|ps|, i requires 0 <= i < |ps| => ps[i].key)
  }

  /** The value of the first pair with key `key`. */
  function Lookup(ps: seq<Param>, key: string): (v: Option<string>)
    ensures v.Some? <==> exists i | 0 <= i < |ps| :: ps[i].key == key
    ensures v.Some? ==> exists i | 0 <= i < |ps| :: ps[i] == Param(key, v.value)
  {
    if |ps| == 0 then None
    else if ps[0].key == key then Some(ps[0].value)
    else
      var v := Lookup(ps[1..], key);
      assert forall i | 1 <= i < |ps| :: ps[i] == ps[1..][i - 1];
      v
  }

  function Field(p: Param): string {
    p.key + "=" + p.value
  }

  /** The query string of `ps`: the fields joined by `&`. */
  function Render(ps: seq<Param>): string {
    Join(seq(|ps|, i requires 0 <= i < |ps| => Field(ps[i])), '&')
  }

  /** Reads one field back, cutting it at its first `=`. */
  function ParseField(f: string): Param {
    var (k, v) := Partition(f, '=');
    Param(k, v)
  }

  /** Reads a query string back into its pairs. */
  function Parse(q: string): (ps: seq<Param>)
    ensures |ps| >= 1
  {
    var fs := Split(q, '&');
    seq(|fs|, i requires 0 <= i < |fs| => ParseField(fs[i]))
  }

  /** A pair the render-and-parse round trip keeps: its key is free of `&`
      and `=`, its value of `&`. */
  predicate PlainPair(p: Param) {
    '&' !in p.key && '=' !in p.key && '&' !in p.value
  }

  /** Pairs that survive a render-and-parse round trip: at least one pair,
      each of them plain. */
  predicate Plain(ps: seq<Param>) {
    |ps| >= 1 && forall i | 0 <= i < |ps| :: PlainPair(ps[i])
  }

  /** Parsing a rendered query gives back exactly the pairs, in order. */
  lemma ParseRender(ps: seq<Param>)
    requires Plain(ps)
    ensures Parse(Render(ps)) == ps
  {
    var fs := seq(|ps|, i requires 0 <= i < |ps| => Field(ps[i]));
    forall i | 0 <= i < |fs|
      ensures '&' !in fs[i]
      ensures ParseField(fs[i]) == ps[i]
    {
      assert fs[i] == ps[i].key + ['='] + ps[i].value;
      PartitionConcat(ps[i].key, '=', ps[i].value);
    }
    SplitJoin(fs, '&');
  }

  /** `Lookup` finds the first pair with the key it is asked for. */
  lemma {:induction false} LookupFirst(ps: seq<Param>, i: nat, key: string)
    requires i < |ps| && ps[i].key == key
    requires forall j | 0 <= j < i :: ps[j].key != key
    ensures Lookup(ps, key) == Some(ps[i].value)
    decreases i
  {
    if i > 0 {
      LookupFirst(ps[1..], i - 1, key);
    }
  }

  /** A query of one pair is that pair's field. */
  lemma RenderOne(p: Param)
    ensures Render([p]) == p.key + "=" + p.value
  {
  }

  /** Rendering one pair more appends `&key=value`: the query is built
      left to right exactly as the `%` template writes it. */
  lemma RenderStep(ps: seq<Param>, k: nat, prefix: string)
    requires 1 <= k < |ps|
    requires Render(ps[..k]) == prefix
    ensures Render(ps[..k + 1]) == prefix + ("&" + ps[k].key + "=") + ps[k].value
  {
    var fs := seq(k, i requires 0 <= i < k => Field(ps[i]));
    var fs' := seq(k + 1, i requires 0 <= i < k + 1 => Field(ps[i]));
    assert fs == seq(|ps[..k]|, i requires 0 <= i < |ps[..k]| => Field(ps[..k][i]));
    assert fs' == seq(|ps[..k + 1]|, i requires 0 <= i < |ps[..k + 1]| => Field(ps[..k + 1][i]));
    assert fs' == fs + [Field(ps[k])];
    JoinSnoc(fs, '&', Field(ps[k]));
    assert Render(ps[..k + 1]) == prefix + "&" + (ps[k].key + "=" + ps[k].value);
  }
}
