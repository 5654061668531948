/** URL building (public/shared/js/paths.js): the site's base URL, taken from the
    page's `<base href>`, made canonical; paths resolved against it; page URLs
    with an optional query. The `<base>` element is a parameter. */
module Paths {
  import opened Wrappers
  import Text

  /** The base URL when the page has no usable `<base href>`. */
  const DefaultBaseUrl := "/"

  /** No two '/' next to each other. */
  predicate NoDoubleSlash(s: string)
  {
    forall i :: 0 <= i < |s| - 1 ==> !(s[i] == '/' && s[i + 1] == '/')
  }

  /** Begins and ends with '/'. */
  predicate SlashFramed(s: string)
  {
    |s| > 0 && s[0] == '/' && s[|s| - 1] == '/'
  }

  /** The characters of `s` other than '/', in order. */
  function WithoutSlashes(s: string): (r: string)
    ensures '/' !in r && |r| <= |s|
  {
    if s == [] then [] else (if s[0] == '/' then [] else [s[0]]) + WithoutSlashes(s[1..])
  }

  /** `s.replace(/\/+/g, '/')`: every run of '/' becomes a single '/'. The first and
      the last character stay what they were. */
  function Collapse(s: string): (r: string)
    ensures |r| <= |s|
    ensures s != [] ==> r != [] && r[0] == s[0] && r[|r| - 1] == s[|s| - 1]
  {
    if |s| < 2 then s
    else if s[0] == '/' && s[1] == '/' then Collapse(s[1..])
    else [s[0]] + Collapse(s[1..])
  }

  /** Collapsing leaves no double slash and drops nothing but slashes. */
  lemma {:induction false} CollapseSpec(s: string)
    ensures NoDoubleSlash(Collapse(s))
    ensures WithoutSlashes(Collapse(s)) == WithoutSlashes(s)
    decreases |s|
  {
    if |s| >= 2 {
      CollapseSpec(s[1..]);
      var t := Collapse(s[1..]);
      if !(s[0] == '/' && s[1] == '/') {
        var r := [s[0]] + t;
        assert r == Collapse(s);
        assert t[0] == s[1];
        forall i | 0 <= i < |r| - 1
          ensures !(r[i] == '/' && r[i + 1] == '/')
        {
          if i > 0 {
            assert r[i] == t[i - 1] && r[i + 1] == t[i];
          }
        }
        assert r[1..] == t;
        assert s[1..] == s[1..];
      }
    }
  }

  /** A string without double slashes is left as it is. */
  lemma {:induction false} CollapseKeeps(s: string)
    requires NoDoubleSlash(s)
    ensures Collapse(s) == s
    decreases |s|
  {
    if |s| >= 2 {
      assert !(s[0] == '/' && s[1] == '/');
      assert NoDoubleSlash(s[1..]) by {
        forall i | 0 <= i < |s[1..]| - 1
          ensures !(s[1..][i] == '/' && s[1..][i + 1] == '/')
        {
          assert s[1..][i] == s[i + 1] && s[1..][i + 1] == s[i + 2];
        }
      }
      CollapseKeeps(s[1..]);
      assert [s[0]] + s[1..] == s;
    }
  }

  /** `String(value || '/').trim()`, with '/' for an empty result: `None` stands
      for `null` and `undefined`. */
  function TrimmedBase(value: Option<string>): (t: string)
    ensures t != []
  {
    var v := if value.None? || value.value == "" then DefaultBaseUrl else value.value;
    var t := Text.Trim(v);
    if t == [] then DefaultBaseUrl else t
  }

  /** A '/' added in front and at the end where missing. */
  function SlashFrame(b: string): (r: string)
    requires b != []
    ensures SlashFramed(r)
  {
    var b := if b[0] == '/' then b else "/" + b;
    if b[|b| - 1] == '/' then b else b + "/"
  }

  /** Framing adds nothing but slashes. */
  lemma SlashFrameText(b: string)
    requires b != []
    ensures WithoutSlashes(SlashFrame(b)) == WithoutSlashes(b)
  {
    var f := if b[0] == '/' then b else "/" + b;
    assert WithoutSlashes(f) == WithoutSlashes(b) by {
      if b[0] != '/' {
        assert ("/" + b)[1..] == b;
      }
    }
    if f[|f| - 1] != '/' {
      WithoutSlashesAppend(f, "/");
    }
  }

  /** `normalizeBaseUrl(value)`: the trimmed value with a '/' added in front and at
      the end where missing, and runs of '/' collapsed. */
  function NormalizeBaseUrl(value: Option<string>): (r: string)
    ensures SlashFramed(r)
  {
    Collapse(SlashFrame(TrimmedBase(value)))
  }

  /** The normalized base URL has no double slash and keeps every other character
      of the trimmed input, in order. */
  lemma NormalizeBaseUrlSpec(value: Option<string>)
    ensures NoDoubleSlash(NormalizeBaseUrl(value))
    ensures WithoutSlashes(NormalizeBaseUrl(value)) == WithoutSlashes(TrimmedBase(value))
  {
    var t := TrimmedBase(value);
    CollapseSpec(SlashFrame(t));
    SlashFrameText(t);
  }

  /** A missing, empty or blank input normalizes to "/". */
  lemma NormalizeBlank(value: Option<string>)
    requires value.None? || Text.AllSpace(value.value)
    ensures NormalizeBaseUrl(value) == "/"
  {
    if value.Some? && value.value != "" {
      Text.TrimEmpty(value.value);
      assert TrimmedBase(value) == DefaultBaseUrl;
    } else {
      Text.TrimKeepsUnpadded(DefaultBaseUrl);
      assert TrimmedBase(value) == DefaultBaseUrl;
    }
  }

  lemma {:induction false} WithoutSlashesAppend(a: string, b: string)
    ensures WithoutSlashes(a + b) == WithoutSlashes(a) + WithoutSlashes(b)
    decreases |a|
  {
    if a != [] {
      WithoutSlashesAppend(a[1..], b);
      assert (a + b)[1..] == a[1..] + b;
    } else {
      assert a + b == b;
    }
  }

  /** Normalizing a normalized base URL changes nothing. */
  lemma NormalizeIdempotent(value: Option<string>)
    ensures NormalizeBaseUrl(Some(NormalizeBaseUrl(value))) == NormalizeBaseUrl(value)
  {
    var r := NormalizeBaseUrl(value);
    NormalizeBaseUrlSpec(value);
    Text.TrimKeepsUnpadded(r);
    assert TrimmedBase(Some(r)) == r;
    CollapseKeeps(r);
  }

  /** The page's `<base>` element: absent, or present with its `href` attribute
      (`None` when the attribute is missing). */
  datatype BaseElement = NoBaseElement | BaseElement(href: Option<string>)

  /** `getBaseUrl()`: "/" without a `<base>`, else its normalized `href` ("/" for a
      missing or empty one). */
  function GetBaseUrl(base: BaseElement): (r: string)
    ensures SlashFramed(r) && NoDoubleSlash(r)
    ensures base.NoBaseElement? ==> r == "/"
    ensures base.BaseElement? ==> r == NormalizeBaseUrl(base.href)
  {
    NormalizeBaseUrlSpec(if base.NoBaseElement? then Some(DefaultBaseUrl) else base.href);
    if base.NoBaseElement? then DefaultBaseUrl
    else
      var href := if base.href.None? || base.href.value == "" then DefaultBaseUrl else base.href.value;
      NormalizeBaseUrl(Some(href))
  }

  /** `s.replace(/^\/+/, '')`. */
  function DropLeadingSlashes(s: string): (r: string)
    ensures |r| <= |s| && r == s[|s| - |r|..]
    ensures r == [] || r[0] != '/'
    ensures forall i :: 0 <= i < |s| - |r| ==> s[i] == '/'
  {
    if s != [] && s[0] == '/' then DropLeadingSlashes(s[1..]) else s
  }

  /** `s.replace(/\/+$/, '')`. */
  function DropTrailingSlashes(s: string): (r: string)
    ensures |r| <= |s| && r == s[..|r|]
    ensures r == [] || r[|r| - 1] != '/'
    ensures forall i :: |r| <= i < |s| ==> s[i] == '/'
  {
    if s != [] && s[|s| - 1] == '/' then DropTrailingSlashes(s[..|s| - 1]) else s
  }

  /** `resolve(path)` against the base URL `baseUrl` that `getBaseUrl()` gives: the
      path (`None`: `null` or `undefined`) without its leading slashes, appended to
      the base URL. */
  function Resolve(path: Option<string>, baseUrl: string): (r: string)
    ensures var p := if path.None? then "" else path.value;
      && |baseUrl| <= |r| && r[..|baseUrl|] == baseUrl
      && r[|baseUrl|..] == DropLeadingSlashes(p)
  {
    var cleanPath := DropLeadingSlashes(if path.None? then "" else path.value);
    if cleanPath != [] then baseUrl + cleanPath else baseUrl
  }

  /** The joint between base and path never makes a double slash: a path without
      double slashes resolves, against any base `getBaseUrl` yields, to a URL
      without them. */
  lemma ResolveNoDoubleSlash(path: string, base: BaseElement)
    requires NoDoubleSlash(path)
    ensures NoDoubleSlash(Resolve(Some(path), GetBaseUrl(base)))
  {
    var b := GetBaseUrl(base);
    var p := DropLeadingSlashes(path);
    SuffixNoDoubleSlash(path, |path| - |p|);
    if p != [] {
      JoinNoDoubleSlash(b, p);
      assert Resolve(Some(path), b) == b + p;
    } else {
      assert Resolve(Some(path), b) == b;
    }
  }

  /** A suffix of a text without double slashes has none either. */
  lemma SuffixNoDoubleSlash(s: string, k: int)
    requires NoDoubleSlash(s) && 0 <= k <= |s|
    ensures NoDoubleSlash(s[k..])
  {
    var t := s[k..];
    forall i | 0 <= i < |t| - 1
      ensures !(t[i] == '/' && t[i + 1] == '/')
    {
      assert t[i] == s[k + i] && t[i + 1] == s[k + i + 1];
    }
  }

  /** Two texts without double slashes join without one when the second does not
      start with '/'. */
  lemma JoinNoDoubleSlash(b: string, p: string)
    requires NoDoubleSlash(b) && NoDoubleSlash(p)
    requires p != [] && p[0] != '/'
    ensures NoDoubleSlash(b + p)
  {
    var r := b + p;
    forall i | 0 <= i < |r| - 1
      ensures !(r[i] == '/' && r[i + 1] == '/')
    {
      if i < |b| - 1 {
        assert r[i] == b[i] && r[i + 1] == b[i + 1];
      } else if i == |b| - 1 {
        assert r[i + 1] == p[0];
      } else {
        assert r[i] == p[i - |b|] && r[i + 1] == p[i - |b| + 1];
      }
    }
  }

  /** `String(pagePath || '').replace(/^\/+|\/+$/g, '')`. */
  function CleanPage(pagePath: Option<string>): (r: string)
    ensures r == [] || (r[0] != '/' && r[|r| - 1] != '/')
  {
    var s := DropLeadingSlashes(if pagePath.None? then "" else pagePath.value);
    DropTrailingSlashes(s)
  }

  /** A query entry: the key and the value as `String(value)` gives it, `None` for
      `null` and `undefined`. */
  type Entry = (string, Option<string>)

  /** Keys of a query object are distinct. */
  predicate DistinctKeys(query: seq<Entry>)
  {
    forall i, j :: 0 <= i < j < |query| ==> query[i].0 != query[j].0
  }

  /** The parameters `page` keeps: entries with a value, in key order. */
  function KeptParams(query: seq<Entry>): (r: seq<(string, string)>)
    ensures |r| <= |query|
  {
    if query == [] then []
    else
      var rest := KeptParams(query[1..]);
      if query[0].1.None? then rest else [(query[0].0, query[0].1.value)] + rest
  }

  /** A key-value pair is kept exactly when the query has that key with that value. */
  lemma {:induction false} KeptParamsSpec(query: seq<Entry>, k: string, v: string)
    ensures (k, v) in KeptParams(query) <==> (k, Some(v)) in query
  {
    if query != [] {
      KeptParamsSpec(query[1..], k, v);
      assert query == [query[0]] + query[1..];
    }
  }

  /** `params.toString()`: `key=value` pairs joined by '&'. Percent-encoding is not
      modelled. */
  function QueryString(params: seq<(string, string)>): (qs: string)
    ensures qs == [] <==> params == []
  {
    if params == [] then []
    else if |params| == 1 then params[0].0 + "=" + params[0].1
    else params[0].0 + "=" + params[0].1 + "&" + QueryString(params[1..])
  }

  /** The page URL `page(pagePath, query)` builds: the cleaned page path plus one
      '/' resolved against the base, and '?' with the query string only when some
      entry has a value. */
  function PageUrl(pagePath: Option<string>, query: Option<seq<Entry>>, baseUrl: string): (url: string)
    ensures |baseUrl| <= |url| && url[..|baseUrl|] == baseUrl
  {
    var cleanPage := CleanPage(pagePath);
    var url := Resolve(Some(if cleanPage != [] then cleanPage + "/" else ""), baseUrl);
    var params := if query.None? then [] else KeptParams(query.value);
    if params != [] then
      PrefixKept(url, "?", baseUrl);
      PrefixKept(url + "?", QueryString(params), baseUrl);
      url + "?" + QueryString(params)
    else url
  }

  /** Appending to a text keeps any prefix it has. */
  lemma PrefixKept(s: string, t: string, p: string)
    requires |p| <= |s| && s[..|p|] == p
    ensures |p| <= |s + t| && (s + t)[..|p|] == p
  {
    assert (s + t)[..|p|] == s[..|p|];
  }

  /** The `forEach` over the query's keys: `params.set(key, value)` for every entry
      with a value. Keys are distinct, so each `set` adds a new pair at the end. */
  method CollectParams(q: seq<Entry>) returns (params: seq<(string, string)>)
    requires DistinctKeys(q)
    ensures params == KeptParams(q)
  {
    params := [];
    var i := 0;
    while i < |q|
      invariant 0 <= i <= |q|
      invariant params + KeptParams(q[i..]) == KeptParams(q)
    {
      assert q[i..][1..] == q[i + 1..];
      if q[i].1.Some? {
        params := params + [(q[i].0, q[i].1.value)];
      }
      i := i + 1;
    }
    assert q[i..] == [];
  }

  /** `page(pagePath, query)` (`query` is `None` when it is not an object). */
  method Page(pagePath: Option<string>, query: Option<seq<Entry>>, baseUrl: string)
    returns (url: string)
    requires query.Some? ==> DistinctKeys(query.value)
    ensures url == PageUrl(pagePath, query, baseUrl)
  {
    var cleanPage := CleanPage(pagePath);
    url := Resolve(Some(if cleanPage != [] then cleanPage + "/" else ""), baseUrl);
    if query.Some? {
      var params := CollectParams(query.value);
      var qs := QueryString(params);
      if qs != [] {
        url := url + "?" + qs;
      }
    }
  }

  /** The URL part of `page`: the base URL, then the cleaned page path with
      exactly one trailing '/', or nothing for an empty one. */
  lemma PagePathSpec(pagePath: Option<string>, b: string)
    ensures var c := CleanPage(pagePath);
      Resolve(Some(if c != [] then c + "/" else ""), b) == b + (if c == [] then "" else c + "/")
  {
    var c := CleanPage(pagePath);
    if c != [] {
      assert DropLeadingSlashes(c + "/") == c + "/";
    }
  }

  /** `page` appends '?' and the query string exactly when some query entry has a
      value. */
  lemma PageQuerySpec(query: Option<seq<Entry>>)
    ensures var params := if query.None? then [] else KeptParams(query.value);
      params == [] <==> query.None? || forall e :: e in query.value ==> e.1.None?
  {
    if query.Some? && exists e :: e in query.value && e.1.Some? {
      var e :| e in query.value && e.1.Some?;
      KeptParamsSpec(query.value, e.0, e.1.value);
    }
    if query.Some? && KeptParams(query.value) != [] {
      var p := KeptParams(query.value)[0];
      KeptParamsSpec(query.value, p.0, p.1);
    }
  }

  /** The page URL: the base URL, the cleaned page path with one trailing '/'
      (nothing for an empty one), then '?' and the query string exactly when some
      query entry has a value. */
  lemma PageUrlSpec(pagePath: Option<string>, query: Option<seq<Entry>>, b: string)
    ensures var c := CleanPage(pagePath);
      var params := if query.None? then [] else KeptParams(query.value);
      var url := b + (if c == [] then "" else c + "/");
      && (params == [] ==> PageUrl(pagePath, query, b) == url)
      && (params != [] ==> PageUrl(pagePath, query, b) == url + "?" + QueryString(params))
  {
    PagePathSpec(pagePath, b);
  }
}
