/**
 * The Okta REST client: URL building, the response-header callback, the
 * classification of a finished exchange, and Link-header parsing for
 * pagination.  The HTTP transport itself is a parameter.
 */
module Api {
  import opened Php

  /** What `request()` hands back: the collected response headers and the decoded body. */
  datatype Response = Response(header: map<string, seq<string>>, body: Json)

  /**
   * One finished transfer as the transport reports it: curl's error number,
   * the raw transfer text (headers included), the header lines in the order
   * the header callback received them, and json_decode() of the body part.
   */
  datatype Exchange = Exchange(errno: int, raw: string, headerLines: seq<string>, decoded: Json)

  class OktaClient {
    const baseUrl: string
    const apiKey: string

    constructor (url: string, key: string)
      ensures baseUrl == TrimRight(url, {'/'}) && apiKey == key
    {
      baseUrl := TrimRight(url, {'/'});
      apiKey := key;
    }

    /**
     * An absolute URI that already mentions the base URL is used as is;
     * anything else is appended to the base URL after one '/'.
     */
    function BuildUrl(uri: string): (r: string)
      ensures Contains(r, baseUrl)
      ensures Contains(uri, baseUrl) ==> r == uri
      ensures !Contains(uri, baseUrl) ==> r == baseUrl + "/" + TrimLeft(uri, {'/'})
    {
      if Contains(uri, baseUrl) then uri else baseUrl + "/" + TrimLeft(uri, {'/'})
    }

    /** Requests the URI through `transport` and classifies the outcome; None is PHP's `false`. */
    method Request(uri: string, transport: string -> Exchange) returns (r: Option<Response>)
      ensures r == Classify(transport(BuildUrl(uri)), HeadersOf(transport(BuildUrl(uri)).headerLines))
    {
      var ex := transport(BuildUrl(uri));
      var collector := new HeaderCollector();
      var i := 0;
      while i < |ex.headerLines|
        invariant 0 <= i <= |ex.headerLines|
        invariant collector.headers == HeadersOf(ex.headerLines[..i])
      {
        var _ := collector.OnHeaderLine(ex.headerLines[i]);
        assert ex.headerLines[..i + 1][..i] == ex.headerLines[..i];
        i := i + 1;
      }
      assert ex.headerLines[..i] == ex.headerLines;
      r := Classify(ex, collector.headers);
    }
  }

  /** A using-the-client URL never loses the base URL, so building it again changes nothing. */
  lemma BuildUrlIdempotent(c: OktaClient, uri: string)
    ensures c.BuildUrl(c.BuildUrl(uri)) == c.BuildUrl(uri)
  {
  }

  lemma {:induction false} ContainsAfterSlash(u: string, needle: string)
    requires Contains(u, needle)
    ensures Contains("/" + u, needle)
  {
    assert ("/" + u)[1..] == u;
  }

  /** Leading slashes of a relative URI do not matter. */
  lemma BuildUrlIgnoresLeadingSlash(c: OktaClient, uri: string)
    requires !Contains("/" + uri, c.baseUrl)
    ensures c.BuildUrl("/" + uri) == c.BuildUrl(uri)
  {
    if Contains(uri, c.baseUrl) {
      ContainsAfterSlash(uri, c.baseUrl);
    }
    assert ("/" + uri)[1..] == uri;
  }

  // ---------------------------------------------------------------------
  // Classification of a finished exchange (request(), lines 118-136)

  predicate HasErrorCode(decoded: Json) {
    Field(decoded, "errorCode") != Null
  }

  /**
   * A transport error, an empty transfer, an Okta error object and a falsy
   * decoded body all give `false`; otherwise the headers and body are returned.
   */
  function Classify(ex: Exchange, headers: map<string, seq<string>>): (r: Option<Response>)
    ensures ex.errno != 0 ==> r == None
    ensures !TruthyString(ex.raw) ==> r == None
    ensures HasErrorCode(ex.decoded) ==> r == None
    ensures !Truthy(ex.decoded) ==> r == None
    ensures ex.errno == 0 && TruthyString(ex.raw) && !HasErrorCode(ex.decoded) && Truthy(ex.decoded)
            ==> r == Some(Response(headers, ex.decoded))
    ensures r.Some? ==> Truthy(r.value.body) && r.value.body != Null
  {
    if ex.errno != 0 then None
    else if !TruthyString(ex.raw) then None
    else if HasErrorCode(ex.decoded) || !Truthy(ex.decoded) then None
    else Some(Response(headers, ex.decoded))
  }

  // ---------------------------------------------------------------------
  // The header callback (request(), lines 94-101)

  /** Index of the first ':' in a header line, as `explode(':', $line, 2)` splits it. */
  function FirstColon(line: string): (r: Option<nat>)
    ensures r.None? <==> ':' !in line
    ensures r.Some? ==> r.value < |line| && line[r.value] == ':' && ':' !in line[..r.value]
  {
    if line == [] then None
    else if line[0] == ':' then Some(0)
    else match FirstColon(line[1..])
      case None => None
      case Some(k) =>
        assert line[..k + 1] == [line[0]] + line[1..][..k];
        Some(k + 1)
  }

  /** The (name, value) a header line contributes: name trimmed and lower-cased, value trimmed. */
  function HeaderEntry(line: string): Option<(string, string)> {
    match FirstColon(line)
    case None => None
    case Some(k) => Some((ToLower(Trim(line[..k])), Trim(line[k + 1..])))
  }

  /** A (name, value) pair joins the values already seen under that name. */
  function AddEntry(h: map<string, seq<string>>, entry: Option<(string, string)>): map<string, seq<string>> {
    match entry
    case None => h
    case Some((name, value)) => h[name := (if name in h then h[name] else []) + [value]]
  }

  function AddHeaderLine(h: map<string, seq<string>>, line: string): map<string, seq<string>> {
    AddEntry(h, HeaderEntry(line))
  }

  /** The header table after the callback has seen `lines` in order. */
  function HeadersOf(lines: seq<string>): map<string, seq<string>> {
    if lines == [] then map[]
    else AddHeaderLine(HeadersOf(lines[..|lines| - 1]), lines[|lines| - 1])
  }

  /** The values of every line carrying header `name`, in arrival order. */
  function ValuesFor(lines: seq<string>, name: string): seq<string> {
    if lines == [] then []
    else
      var last := lines[|lines| - 1];
      ValuesFor(lines[..|lines| - 1], name)
      + (if HeaderEntry(last).Some? && HeaderEntry(last).value.0 == name then [HeaderEntry(last).value.1] else [])
  }

  /**
   * Repeated header names accumulate: a name is present exactly when some
   * line carries it, and then it holds every such value in arrival order.
   */
  lemma {:induction false} HeadersOfCollectsAllValues(lines: seq<string>, name: string)
    ensures name in HeadersOf(lines) <==> ValuesFor(lines, name) != []
    ensures name in HeadersOf(lines) ==> HeadersOf(lines)[name] == ValuesFor(lines, name)
  {
    if lines != [] {
      var init, last := lines[..|lines| - 1], lines[|lines| - 1];
      HeadersOfCollectsAllValues(init, name);
      var entry := HeaderEntry(last);
      assert HeadersOf(lines) == AddHeaderLine(HeadersOf(init), last);
      if entry.Some? && entry.value.0 == name {
        assert ValuesFor(lines, name) == ValuesFor(init, name) + [entry.value.1];
      } else {
        assert ValuesFor(lines, name) == ValuesFor(init, name);
      }
    }
  }

  /** The object curl's header callback closes over. */
  class HeaderCollector {
    var headers: map<string, seq<string>>

    constructor ()
      ensures headers == map[]
    {
      headers := map[];
    }

    /** Records one header line and reports it consumed in full. */
    method OnHeaderLine(line: string) returns (consumed: nat)
      modifies this
      ensures consumed == |line|
      ensures headers == AddHeaderLine(old(headers), line)
    {
      var current := headers;
      var updated := AddHeaderLine(current, line);
      headers := updated;
      consumed := |line|;
    }
  }

  // ---------------------------------------------------------------------
  // The Link-header pattern `<(.*?)>;\s*rel="(.*?)"`

  /** The characters PCRE's `\s` matches. */
  const Spaces: set<char> := {' ', '\t', '\n', '\r', '\U{0B}', '\U{0C}'}

  /** Greedy `\s*` from position k: the first position that is not white space. */
  function SkipSpaces(s: string, k: nat): (r: nat)
    requires k <= |s|
    ensures k <= r <= |s|
    ensures forall m :: k <= m < r ==> s[m] in Spaces
    ensures r == |s| || s[r] !in Spaces
    decreases |s| - k
  {
    if k < |s| && s[k] in Spaces then SkipSpaces(s, k + 1) else k
  }

  /** Lazy `(.*?)"` from position k: the first quote, if no newline comes before it. */
  function QuoteFrom(s: string, k: nat): (r: Option<nat>)
    requires k <= |s|
    ensures r.Some? ==> k <= r.value < |s| && s[r.value] == '"'
    ensures r.Some? ==> forall m :: k <= m < r.value ==> s[m] != '"' && s[m] != '\n'
    decreases |s| - k
  {
    if k == |s| then None
    else if s[k] == '"' then Some(k)
    else if s[k] == '\n' then None
    else QuoteFrom(s, k + 1)
  }

  ghost predicate RelAt(s: string, k: int) {
    0 <= k && k + 5 <= |s| && s[k..k + 5] == "rel=\""
  }

  /** `;\s*rel="(.*?)"` after a '>' at j: the rel name, when the rest of the pattern matches. */
  function RelAfter(s: string, j: nat): (r: Option<string>)
    requires j + 2 <= |s|
    ensures r.Some? ==> exists k :: RelAt(s, k)
  {
    var k := SkipSpaces(s, j + 2);
    if k + 5 <= |s| && s[k..k + 5] == "rel=\"" then
      assert RelAt(s, k);
      match QuoteFrom(s, k + 5)
      case Some(m) => Some(s[k + 5..m])
      case None => None
    else None
  }

  /** Lazy `(.*?)>` for the '<' at i, trying the candidate '>' positions from j onwards. */
  function MatchFrom(s: string, i: nat, j: nat): (r: Option<(string, string)>)
    requires i < j <= |s|
    ensures r.Some? ==> exists k :: RelAt(s, k)
    decreases |s| - j
  {
    if j == |s| then None
    else if j + 2 <= |s| && s[j] == '>' && s[j + 1] == ';' && RelAfter(s, j).Some? then
      Some((s[i + 1..j], RelAfter(s, j).value))
    else if s[j] == '\n' then None
    else MatchFrom(s, i, j + 1)
  }

  /** The leftmost match of the pattern at or after position i. */
  function MatchLinkFrom(s: string, i: nat): (r: Option<(string, string)>)
    requires i <= |s|
    ensures r.Some? ==> exists k :: RelAt(s, k)
    decreases |s| - i
  {
    if i == |s| then None
    else if s[i] == '<' && MatchFrom(s, i, i + 1).Some? then MatchFrom(s, i, i + 1)
    else MatchLinkFrom(s, i + 1)
  }

  /** preg_match of the Link pattern: the (url, rel) captures of the leftmost match. */
  function MatchLink(s: string): Option<(string, string)> {
    MatchLinkFrom(s, 0)
  }

  /** A Link value without any `rel="` (a bare `<url>`, a malformed entry) does not match. */
  lemma WithoutRelNoMatch(s: string)
    requires forall k :: !RelAt(s, k)
    ensures MatchLink(s) == None
  {
  }

  lemma {:induction false} MatchFromSkips(s: string, i: nat, j: nat, k: nat)
    requires i < j <= k < |s|
    requires forall m :: j <= m < k ==> s[m] != '>' && s[m] != '\n'
    ensures MatchFrom(s, i, j) == MatchFrom(s, i, k)
    decreases k - j
  {
    if j < k {
      MatchFromSkips(s, i, j + 1, k);
    }
  }

  lemma {:induction false} SkipSpacesOver(s: string, k: nat, e: nat)
    requires k <= e < |s|
    requires forall m :: k <= m < e ==> s[m] in Spaces
    requires s[e] !in Spaces
    ensures SkipSpaces(s, k) == e
    decreases e - k
  {
    if k < e {
      SkipSpacesOver(s, k + 1, e);
    }
  }

  lemma {:induction false} QuoteFromOver(s: string, k: nat, e: nat)
    requires k <= e < |s| && s[e] == '"'
    requires forall m :: k <= m < e ==> s[m] != '"' && s[m] != '\n'
    ensures QuoteFrom(s, k) == Some(e)
    decreases e - k
  {
    if k < e {
      QuoteFromOver(s, k + 1, e);
    }
  }

  /** The pattern matched at position 0, described by the positions of its pieces. */
  lemma MatchAtStart(s: string, gt: nat, e: nat, q: nat)
    requires 1 <= gt && gt + 2 <= e && e + 5 <= q < |s|
    requires s[0] == '<' && s[gt] == '>' && s[gt + 1] == ';'
    requires forall m :: 1 <= m < gt ==> s[m] != '>' && s[m] != '\n'
    requires forall m :: gt + 2 <= m < e ==> s[m] in Spaces
    requires s[e..e + 5] == "rel=\"" && s[q] == '"'
    requires forall m :: e + 5 <= m < q ==> s[m] != '"' && s[m] != '\n'
    ensures MatchLink(s) == Some((s[1..gt], s[e + 5..q]))
  {
    assert s[e] == 'r';
    SkipSpacesOver(s, gt + 2, e);
    QuoteFromOver(s, e + 5, q);
    assert RelAfter(s, gt) == Some(s[e + 5..q]);
    MatchFromSkips(s, 0, 1, gt);
  }

  /**
   * A well-formed entry `<url>;<spaces>rel="name"` yields exactly its url
   * and rel name, whatever follows it.
   */
  lemma WellFormedEntryMatches(url: string, ws: string, name: string, rest: string)
    requires '>' !in url && '\n' !in url
    requires forall m :: 0 <= m < |ws| ==> ws[m] in Spaces
    requires '"' !in name && '\n' !in name
    ensures MatchLink("<" + url + ">;" + ws + "rel=\"" + name + "\"" + rest) == Some((url, name))
  {
    var s := "<" + url + ">;" + ws + "rel=\"" + name + "\"" + rest;
    var gt := 1 + |url|;
    var e := gt + 2 + |ws|;
    var q := e + 5 + |name|;
    assert s[1..gt] == url;
    assert s[gt + 2..e] == ws;
    assert s[e..e + 5] == "rel=\"";
    assert s[e + 5..q] == name;
    assert s[q] == '"';
    forall m | 1 <= m < gt
      ensures s[m] != '>' && s[m] != '\n'
    {
      assert s[m] == url[m - 1];
    }
    forall m | gt + 2 <= m < e
      ensures s[m] in Spaces
    {
      assert s[m] == ws[m - gt - 2];
    }
    forall m | e + 5 <= m < q
      ensures s[m] != '"' && s[m] != '\n'
    {
      assert s[m] == name[m - e - 5];
    }
    MatchAtStart(s, gt, e, q);
  }

  // ---------------------------------------------------------------------
  // parseLinkHeader

  function RelOf(value: string): Option<string> {
    match MatchLink(value)
    case None => None
    case Some((_, rel)) => Some(rel)
  }

  /** The rel => url table after the loop has seen `values` in order. */
  function LinksOf(values: seq<string>): map<string, string> {
    if values == [] then map[]
    else
      var links := LinksOf(values[..|values| - 1]);
      match MatchLink(values[|values| - 1])
      case None => links
      case Some((url, rel)) => links[rel := HtmlEntityDecode(url)]
  }

  /** Collects the rel => url pairs of every matching Link value; a later rel overwrites an earlier one. */
  method ParseLinkHeader(linkHeader: seq<string>) returns (links: map<string, string>)
    ensures links == LinksOf(linkHeader)
  {
    links := map[];
    var i := 0;
    while i < |linkHeader|
      invariant 0 <= i <= |linkHeader|
      invariant links == LinksOf(linkHeader[..i])
    {
      assert linkHeader[..i + 1][..i] == linkHeader[..i];
      match MatchLink(linkHeader[i]) {
        case None =>
        case Some((url, rel)) =>
          links := links[rel := HtmlEntityDecode(url)];
      }
      i := i + 1;
    }
    assert linkHeader[..i] == linkHeader;
  }

  /** A rel name is in the table exactly when some Link value matches with that name. */
  lemma {:induction false} LinksOfKeys(values: seq<string>, rel: string)
    ensures rel in LinksOf(values) <==> exists i :: 0 <= i < |values| && RelOf(values[i]) == Some(rel)
  {
    if values != [] {
      var init := values[..|values| - 1];
      LinksOfKeys(init, rel);
      if exists i :: 0 <= i < |init| && RelOf(init[i]) == Some(rel) {
        var i :| 0 <= i < |init| && RelOf(init[i]) == Some(rel);
        assert values[i] == init[i];
      }
      if exists i :: 0 <= i < |values| && RelOf(values[i]) == Some(rel) {
        var i :| 0 <= i < |values| && RelOf(values[i]) == Some(rel);
        if i < |init| {
          assert init[i] == values[i];
        }
      }
    }
  }

  /** The url recorded for a rel is the decoded url of the last Link value carrying that rel. */
  lemma {:induction false} LinksOfLastWins(values: seq<string>, i: nat, url: string, rel: string)
    requires i < |values| && MatchLink(values[i]) == Some((url, rel))
    requires forall j :: i < j < |values| ==> RelOf(values[j]) != Some(rel)
    ensures rel in LinksOf(values) && LinksOf(values)[rel] == HtmlEntityDecode(url)
  {
    if i < |values| - 1 {
      var init := values[..|values| - 1];
      assert init[i] == values[i];
      assert forall j :: i < j < |init| ==> init[j] == values[j];
      LinksOfLastWins(init, i, url, rel);
      assert RelOf(values[|values| - 1]) != Some(rel);
    }
  }
}
