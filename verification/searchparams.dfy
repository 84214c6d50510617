/** The part of `URLSearchParams` the reports read: splitting a query
    string into name/value pairs and looking a name up. Percent-decoding
    and the `+`-for-space rule are not modelled. */
module SearchParams {
  import opened Options
  import opened Strings

  type Params = seq<(string, string)>

  /** The index of the first occurrence of `c` in `s`. */
  function IndexOf(s: string, c: char): (r: Option<nat>)
    ensures r.None? <==> c !in s
    ensures r.Some? ==> r.value < |s| && s[r.value] == c && c !in s[..r.value]
    decreases |s|
  {
    if |s| == 0 then None
    else if s[0] == c then Some(0)
    else
      var r := IndexOf(s[1..], c);
      if r.None? then None
      else
        assert s[..r.value + 1] == [s[0]] + s[1..][..r.value];
        Some(r.value + 1)
  }

  /** One `&`-separated piece: the name runs up to the first `=`, the
      value is everything after it; without `=` the value is empty. */
  function NameValue(piece: string): (nv: (string, string))
    ensures '=' !in nv.0
    ensures '=' in piece ==> piece == nv.0 + "=" + nv.1
    ensures '=' !in piece ==> nv == (piece, "")
  {
    match IndexOf(piece, '=')
    case None => (piece, "")
    case Some(i) =>
      assert piece == piece[..i] + "=" + piece[i + 1..];
      (piece[..i], piece[i + 1..])
  }

  /** The pairs of the non-empty pieces, in order. */
  function PairsOf(pieces: seq<string>): (ps: Params)
    ensures |ps| <= |pieces|
    ensures forall p :: p in ps ==> exists q :: q in pieces && q != "" && p == NameValue(q)
  {
    if |pieces| == 0 then []
    else if pieces[0] == "" then PairsOf(pieces[1..])
    else [NameValue(pieces[0])] + PairsOf(pieces[1..])
  }

  /** `new URLSearchParams(query)` for a query without its leading `?`. */
  function ParseQuery(query: string): (ps: Params)
    ensures forall p :: p in ps ==> '&' !in p.0 && '&' !in p.1 && '=' !in p.0
  {
    PairsOf(Split(query, '&'))
  }

  /** `params.get(name)`: the value of the first pair with that name. */
  function Get(ps: Params, name: string): (r: Option<string>)
    ensures r.None? <==> forall i :: 0 <= i < |ps| ==> ps[i].0 != name
    ensures r.Some? ==> (name, r.value) in ps
    ensures |ps| > 0 && ps[0].0 == name ==> r == Some(ps[0].1)
    ensures r.Some? ==> exists i :: 0 <= i < |ps| && ps[i] == (name, r.value) &&
                                    forall j :: 0 <= j < i ==> ps[j].0 != name
  {
    if |ps| == 0 then None
    else if ps[0].0 == name then Some(ps[0].1)
    else
      var r := Get(ps[1..], name);
      assert forall i :: 0 < i < |ps| ==> ps[i] == ps[1..][i - 1];
      if r.Some? then
        var i :| 0 <= i < |ps[1..]| && ps[1..][i] == (name, r.value) &&
                 forall j :: 0 <= j < i ==> ps[1..][j].0 != name;
        assert ps[i + 1] == (name, r.value);
        assert forall j :: 0 <= j < i + 1 ==> ps[j].0 != name;
        r
      else r
  }

  /** Builds `name=value`; the inverse of `NameValue` for a name without
      `=`. */
  lemma NameValueOfPair(name: string, value: string)
    requires '=' !in name
    ensures NameValue(name + "=" + value) == (name, value)
  {
    var piece := name + "=" + value;
    assert piece[|name|] == '=';
    assert piece[..|name|] == name;
    assert piece[|name| + 1..] == value;
  }

  lemma PairsOfCons(piece: string, rest: seq<string>)
    requires piece != ""
    ensures PairsOf([piece] + rest) == [NameValue(piece)] + PairsOf(rest)
  {
    assert ([piece] + rest)[1..] == rest;
  }

  /** A pair whose parts hold no `&` and whose name holds no `=` survives
      serialisation; `Pair` is the `name=value` form. */
  predicate Serialisable(name: string, value: string)
  {
    '=' !in name && '&' !in name && '&' !in value
  }

  function Pair(name: string, value: string): string
  {
    name + "=" + value
  }

  lemma NoAmpersandInPair(name: string, value: string)
    requires Serialisable(name, value)
    ensures '&' !in Pair(name, value)
  {
    var p := Pair(name, value);
    forall i | 0 <= i < |p| ensures p[i] != '&' {
      if i < |name| { assert p[i] == name[i]; }
      else if i > |name| { assert p[i] == value[i - |name| - 1]; }
    }
  }

  /** Parsing one serialised pair gives it back. */
  lemma ParseOnePair(name: string, value: string)
    requires Serialisable(name, value)
    ensures ParseQuery(Pair(name, value)) == [(name, value)]
  {
    NoAmpersandInPair(name, value);
    SplitNoSeparator(Pair(name, value), '&');
    NameValueOfPair(name, value);
    PairsOfCons(Pair(name, value), []);
  }

  /** Parsing two serialised pairs joined by `&` gives both back, in order. */
  lemma ParseTwoPairs(n1: string, v1: string, n2: string, v2: string)
    requires Serialisable(n1, v1) && Serialisable(n2, v2)
    ensures ParseQuery(Pair(n1, v1) + "&" + Pair(n2, v2)) == [(n1, v1), (n2, v2)]
  {
    var p1, p2 := Pair(n1, v1), Pair(n2, v2);
    NoAmpersandInPair(n1, v1);
    NoAmpersandInPair(n2, v2);
    assert p1 + "&" + p2 == p1 + ['&'] + p2;
    SplitAtSeparator(p1, '&', p2);
    SplitNoSeparator(p2, '&');
    NameValueOfPair(n1, v1);
    NameValueOfPair(n2, v2);
    PairsOfCons(p2, []);
    PairsOfCons(p1, [p2]);
  }
}
