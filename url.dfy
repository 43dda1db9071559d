/**
 * The part of the WHATWG URL Standard the app relies on: `new URL(input,
 * base)` for the relative inputs it writes itself, `searchParams.get`
 * (application/x-www-form-urlencoded parsing) and the `hash` getter and
 * setter of `window.location`. Inputs outside the modelled subset are handed
 * to an abstract parser supplied by the caller.
 */
module Url {
  import opened Wrappers
  import Hex
  import Utf8

  /** A parsed URL, reduced to what the pages read; an absent query or fragment is `None`. */
  datatype Url = Url(pathname: string, query: Option<string>, fragment: Option<string>) {
    /** The `hash` getter: empty for an absent or empty fragment, otherwise '#' and the fragment. */
    function Hash(): (h: string)
      ensures h == "" <==> fragment == None || fragment == Some("")
      ensures h != "" ==> h[0] == '#' && h[1..] == fragment.value
    {
      if fragment == None || fragment == Some("") then "" else "#" + fragment.value
    }

    /** `searchParams`, as its name/value list in order. */
    function SearchParams(): (ps: seq<(string, string)>)
      ensures query.None? ==> ps == []
      ensures forall i :: 0 <= i < |ps| ==> '=' !in ps[i].0 && '&' !in ps[i].0 && '&' !in ps[i].1
    {
      match query
      case None => []
      case Some(q) => ParseQuery(q)
    }
  }

  /** Position of the first `c` in `s`, or `|s|` when there is none. */
  function IndexOf(s: string, c: char): (i: nat)
    ensures i <= |s|
    ensures i < |s| ==> s[i] == c
    ensures forall j :: 0 <= j < i ==> s[j] != c
  {
    if s == "" || s[0] == c then 0 else 1 + IndexOf(s[1..], c)
  }

  /** Splits at every `c` (so the result always has at least one part). */
  function SplitOn(s: string, c: char): (parts: seq<string>)
    ensures |parts| >= 1
    ensures forall k :: 0 <= k < |parts| ==> c !in parts[k]
    decreases |s|
  {
    var i := IndexOf(s, c);
    if i == |s| then [s] else [s[..i]] + SplitOn(s[i + 1..], c)
  }

  /** Joins non-empty `parts` with `c` between them. */
  function JoinOn(parts: seq<string>, c: char): string
    requires |parts| >= 1
  {
    if |parts| == 1 then parts[0] else parts[0] + [c] + JoinOn(parts[1..], c)
  }

  /** Joining four parts puts the separator between each neighbouring pair. */
  lemma JoinFour(a: string, b: string, c: string, d: string, sep: char)
    ensures JoinOn([a, b, c, d], sep) == a + [sep] + b + [sep] + c + [sep] + d
  {
    assert [c, d][1..] == [d];
    assert JoinOn([c, d], sep) == c + [sep] + d;
    assert [b, c, d][1..] == [c, d];
    assert JoinOn([b, c, d], sep) == b + [sep] + (c + [sep] + d);
    assert [a, b, c, d][1..] == [b, c, d];
    assert JoinOn([a, b, c, d], sep) == a + [sep] + (b + [sep] + (c + [sep] + d));
  }

  lemma {:induction false} SplitJoin(parts: seq<string>, c: char)
    requires |parts| >= 1
    requires forall k :: 0 <= k < |parts| ==> c !in parts[k]
    ensures SplitOn(JoinOn(parts, c), c) == parts
  {
    var s := JoinOn(parts, c);
    if |parts| > 1 {
      var rest := JoinOn(parts[1..], c);
      assert s == parts[0] + [c] + rest;
      assert s[|parts[0]|] == c;
      assert IndexOf(s, c) == |parts[0]|;
      assert s[..|parts[0]|] == parts[0];
      assert s[|parts[0]| + 1..] == rest;
      SplitJoin(parts[1..], c);
    }
  }

  lemma {:induction false} JoinSplit(s: string, c: char)
    ensures JoinOn(SplitOn(s, c), c) == s
    decreases |s|
  {
    var i := IndexOf(s, c);
    if i < |s| {
      JoinSplit(s[i + 1..], c);
      assert s == s[..i] + [c] + s[i + 1..];
    }
  }

  function PlusToSpace(s: string): (r: string)
    ensures |r| == |s|
    ensures forall i :: 0 <= i < |s| ==> r[i] == (if s[i] == '+' then ' ' else s[i])
  {
    seq(|s|, i requires 0 <= i < |s| => if s[i] == '+' then ' ' else s[i])
  }

  /** One `name=value` sequence: split at the first '=', a missing '=' gives an empty value. */
  function ParsePair(seg: string): (p: (string, string))
    ensures '=' !in p.0
    ensures '&' !in seg ==> '&' !in p.0 && '&' !in p.1
  {
    var i := IndexOf(seg, '=');
    (PlusToSpace(seg[..i]), if i < |seg| then PlusToSpace(seg[i + 1..]) else "")
  }

  function ParseSegments(segs: seq<string>): (ps: seq<(string, string)>)
    ensures |ps| <= |segs|
    ensures forall i :: 0 <= i < |ps| ==> '=' !in ps[i].0
    ensures (forall k :: 0 <= k < |segs| ==> '&' !in segs[k]) ==>
      forall i :: 0 <= i < |ps| ==> '&' !in ps[i].0 && '&' !in ps[i].1
  {
    if segs == [] then []
    else if segs[0] == "" then ParseSegments(segs[1..])
    else [ParsePair(segs[0])] + ParseSegments(segs[1..])
  }

  /**
   * application/x-www-form-urlencoded parsing: split on '&', skip empty
   * sequences, split each at its first '=', turn '+' into a space.
   */
  function ParseQuery(q: string): (ps: seq<(string, string)>)
    ensures q == "" ==> ps == []
    ensures forall i :: 0 <= i < |ps| ==> '=' !in ps[i].0 && '&' !in ps[i].0 && '&' !in ps[i].1
  {
    ParseSegments(SplitOn(q, '&'))
  }

  /** `searchParams.get(name)`: the value of the first pair with that name, or null. */
  function Get(ps: seq<(string, string)>, name: string): (r: Option<string>)
    ensures r.Some? <==> exists i :: 0 <= i < |ps| && ps[i].0 == name
    ensures r.Some? ==> exists i :: 0 <= i < |ps| && ps[i] == (name, r.value)
                          && forall j :: 0 <= j < i ==> ps[j].0 != name
  {
    if ps == [] then None
    else if ps[0].0 == name then Some(ps[0].1)
    else
      var r := Get(ps[1..], name);
      assert forall i :: 1 <= i < |ps| ==> ps[i] == ps[1..][i - 1];
      r
  }

  /**
   * Characters every component of the parser keeps unchanged: printable
   * ASCII except those some component percent-encodes, '%' (which
   * `searchParams` would decode) and '\' (a separator in special URLs).
   */
  predicate PlainChar(c: char) {
    '!' <= c <= '~' && c !in "\"<>`'%\\"
  }

  predicate IsPlain(s: string) {
    forall c :: c in s ==> PlainChar(c)
  }

  predicate PathChar(c: char) {
    'a' <= c <= 'z' || 'A' <= c <= 'Z' || '0' <= c <= '9' || c in "/-_~"
  }

  /** A path-absolute path that needs no dot-segment removal or escaping. */
  predicate IsSimplePath(p: string) {
    |p| >= 1 && p[0] == '/' && (|p| == 1 || p[1] != '/')
    && forall c :: c in p ==> PathChar(c)
  }

  /** A name written unescaped into a query that reads back as itself. */
  predicate IsQueryName(n: string) {
    n != "" && '=' !in n && '&' !in n && '+' !in n
  }

  /** A value written unescaped into a query that reads back as itself. */
  predicate IsQueryValue(v: string) {
    '&' !in v && '+' !in v
  }

  function PairText(p: (string, string)): string {
    p.0 + "=" + p.1
  }

  function PairTexts(ps: seq<(string, string)>): (ts: seq<string>)
    ensures |ts| == |ps|
    ensures forall i :: 0 <= i < |ps| ==> ts[i] == PairText(ps[i])
  {
    if ps == [] then [] else [PairText(ps[0])] + PairTexts(ps[1..])
  }

  /** A query written the way the app writes one: `name=value` joined by '&', nothing escaped. */
  function SerializeQuery(ps: seq<(string, string)>): string {
    if ps == [] then "" else JoinOn(PairTexts(ps), '&')
  }

  lemma {:induction false} ParsePairText(p: (string, string))
    requires IsQueryName(p.0) && IsQueryValue(p.1)
    ensures ParsePair(PairText(p)) == p
  {
    var seg := PairText(p);
    assert seg[|p.0|] == '=';
    assert IndexOf(seg, '=') == |p.0|;
    assert seg[..|p.0|] == p.0;
    assert seg[|p.0| + 1..] == p.1;
    assert PlusToSpace(p.0) == p.0;
    assert PlusToSpace(p.1) == p.1;
  }

  lemma {:induction false} ParseSegmentsTexts(ps: seq<(string, string)>)
    requires forall i :: 0 <= i < |ps| ==> IsQueryName(ps[i].0) && IsQueryValue(ps[i].1)
    ensures ParseSegments(PairTexts(ps)) == ps
  {
    var segs := PairTexts(ps);
    if ps != [] {
      assert segs[0] != "" by { assert |segs[0]| > 0; }
      ParsePairText(ps[0]);
      ParseSegmentsTexts(ps[1..]);
      assert ps == [ps[0]] + ps[1..];
    }
  }

  lemma {:induction false} JoinPlain(parts: seq<string>, c: char)
    requires |parts| >= 1 && PlainChar(c)
    requires forall k :: 0 <= k < |parts| ==> IsPlain(parts[k]) && '#' !in parts[k]
    requires c != '#'
    ensures IsPlain(JoinOn(parts, c)) && '#' !in JoinOn(parts, c)
  {
    if |parts| > 1 {
      JoinPlain(parts[1..], c);
    }
  }

  /** A query built from plain names and values is plain and has no '#'. */
  lemma SerializeQueryPlain(ps: seq<(string, string)>)
    requires forall i :: 0 <= i < |ps| ==> IsPlain(ps[i].0) && IsPlain(ps[i].1)
    requires forall i :: 0 <= i < |ps| ==> '#' !in ps[i].0 && '#' !in ps[i].1
    ensures IsPlain(SerializeQuery(ps)) && '#' !in SerializeQuery(ps)
  {
    if ps != [] {
      var ts := PairTexts(ps);
      forall k | 0 <= k < |ts| ensures IsPlain(ts[k]) && '#' !in ts[k] {
        assert ts[k] == ps[k].0 + "=" + ps[k].1;
      }
      JoinPlain(ts, '&');
    }
  }

  /** Reading back a query the app wrote gives exactly the pairs it wrote, in order. */
  lemma QueryRoundTrip(ps: seq<(string, string)>)
    requires forall i :: 0 <= i < |ps| ==> IsQueryName(ps[i].0) && IsQueryValue(ps[i].1)
    ensures ParseQuery(SerializeQuery(ps)) == ps
  {
    if ps != [] {
      var segs := PairTexts(ps);
      forall k | 0 <= k < |segs| ensures '&' !in segs[k] {
        assert segs[k] == ps[k].0 + "=" + ps[k].1;
      }
      assert SerializeQuery(ps) == JoinOn(segs, '&');
      SplitJoin(segs, '&');
      ParseSegmentsTexts(ps);
    } else {
      assert SplitOn("", '&') == [""];
    }
  }

  /** Splits at the first `c`: the part before it, and the part after it if there is one. */
  function SplitFirst(s: string, c: char): (r: (string, Option<string>))
    ensures c !in r.0
    ensures r.1 == None ==> r.0 == s
    ensures r.1 != None ==> s == r.0 + [c] + r.1.value
  {
    var i := IndexOf(s, c);
    if i == |s| then (s, None) else (s[..i], Some(s[i + 1..]))
  }

  /**
   * `new URL(input, base)` for a base with a special scheme. Computed here
   * for plain inputs that are empty, a fragment, a query or a simple
   * path-absolute reference; every other input goes to `other`.
   */
  function Parse(input: string, base: Url, other: string -> Option<Url>): (r: Option<Url>)
  {
    if !IsPlain(input) then other(input)
    else if input == "" then Some(base.(fragment := None))
    else if input[0] == '#' then Some(base.(fragment := Some(input[1..])))
    else
      var hashSplit := SplitFirst(input, '#');
      var querySplit := SplitFirst(hashSplit.0, '?');
      if input[0] == '?' then Some(Url(base.pathname, querySplit.1, hashSplit.1))
      else if IsSimplePath(querySplit.0) then Some(Url(querySplit.0, querySplit.1, hashSplit.1))
      else other(input)
  }
  /** The empty input resolves to the base URL without its fragment. */
  lemma ParseEmpty(base: Url, other: string -> Option<Url>)
    ensures Parse("", base, other) == Some(base.(fragment := None))
  {
    assert IsPlain("");
  }

  /** `#f` keeps the base's path and query and replaces its fragment. */
  lemma ParseFragmentOnly(f: string, base: Url, other: string -> Option<Url>)
    requires IsPlain(f)
    ensures Parse("#" + f, base, other) == Some(base.(fragment := Some(f)))
  {
    assert PlainChar('#');
    assert IsPlain("#" + f) by {
      forall c | c in "#" + f ensures PlainChar(c) {
        if c != '#' { assert c in f; }
      }
    }
    assert ("#" + f)[1..] == f;
  }

  /** `?q` keeps the base's path, takes the query `q`, and has no fragment. */
  lemma ParseQueryOnly(q: string, base: Url, other: string -> Option<Url>)
    requires IsPlain(q) && '#' !in q
    ensures Parse("?" + q, base, other) == Some(Url(base.pathname, Some(q), None))
  {
    var v := "?" + q;
    assert PlainChar('?');
    assert IsPlain(v) by {
      forall c | c in v ensures PlainChar(c) {
        if c != '?' { assert c in q; }
      }
    }
    assert '#' !in v;
    assert SplitFirst(v, '#') == (v, None);
    assert IndexOf(v, '?') == 0;
    assert v[1..] == q;
  }

  /** Inputs outside the computed subset are resolved by the browser's own parser. */
  lemma ParseOther(input: string, base: Url, other: string -> Option<Url>)
    requires !IsPlain(input)
    ensures Parse(input, base, other) == other(input)
  {
  }


  /** The fragment percent-encode set together with the C0 controls and all non-ASCII. */
  predicate InFragmentSet(c: char) {
    c as int <= 0x20 || c in "\"<>`" || c as int >= 0x7F
  }

  function PercentEncode(bs: seq<Hex.byte>): (r: string)
    ensures |r| == 3 * |bs|
    ensures forall i :: 0 <= i < |r| ==> !InFragmentSet(r[i])
  {
    if bs == [] then ""
    else ['%', Hex.UpperDigitChar(bs[0] / 16), Hex.UpperDigitChar(bs[0] % 16)] + PercentEncode(bs[1..])
  }

  /**
   * The fragment state of the parser: tabs and newlines are dropped, every
   * character of the fragment set becomes its UTF-8 bytes percent-encoded.
   */
  function EncodeFragment(s: string): (r: string)
    ensures forall i :: 0 <= i < |r| ==> !InFragmentSet(r[i])
  {
    if s == "" then ""
    else
      var c := s[0];
      (if c == '\t' || c == '\n' || c == '\r' then ""
       else if InFragmentSet(c) then PercentEncode(Utf8.EncodeChar(c))
       else [c]) + EncodeFragment(s[1..])
  }

  lemma {:induction false} EncodeFragmentKeeps(s: string)
    requires forall i :: 0 <= i < |s| ==> !InFragmentSet(s[i])
    ensures EncodeFragment(s) == s
  {
    if s != "" {
      EncodeFragmentKeeps(s[1..]);
    }
  }

  /**
   * `window.location.hash = v` followed by reading `window.location.hash`:
   * one leading '#' is dropped, the rest is encoded as a fragment, and an
   * empty fragment reads back as the empty string.
   */
  function AssignHash(v: string): (h: string)
    ensures h == "" || (|h| >= 2 && h[0] == '#')
  {
    var f := EncodeFragment(if v != "" && v[0] == '#' then v[1..] else v);
    if f == "" then "" else "#" + f
  }

  /** Assigning what was read back changes nothing. */
  lemma AssignHashIdempotent(v: string)
    ensures AssignHash(AssignHash(v)) == AssignHash(v)
  {
    var h := AssignHash(v);
    if h != "" {
      EncodeFragmentKeeps(h[1..]);
    }
  }

  /** A plain value not starting with '#' is stored as written and read back behind a '#'. */
  lemma {:induction false} AssignPlainHash(v: string)
    requires IsPlain(v) && v != "" && v[0] != '#'
    ensures AssignHash(v) == "#" + v
  {
    assert forall i :: 0 <= i < |v| ==> v[i] in v;
    EncodeFragmentKeeps(v);
  }
}
