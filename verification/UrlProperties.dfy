/** The two URL machines agree, and parsing undoes printing. */
module UrlProperties {
  import opened Options
  import opened UrlParameters
  import opened UrlPort
  import opened Url

  // ---------- agreement ----------

  lemma FirstShift(s: string, at: nat, stops: set<char>)
    requires at <= |s|
    ensures First(s, at, stops) == at + First(s[at..], 0, stops)
  {
    var t := s[at..];
    var i := First(t, 0, stops);
    assert i < |t| ==> t[i] == s[at + i];
    assert forall j :: at <= j < at + i ==> s[j] == t[j - at];
    FirstUnique(s, at, stops, at + i);
  }

  /** What the query machine makes of a path: everything from the first '?' or '#' on is cut into the query and
      the fragment, and a path with neither is not extracted. */
  predicate CutsPath(path: string, q: QueryResult) {
    var stop := First(path, 0, {'?', '#'});
    if stop == |path| then q.basicPath == "" && q.queryPath == "" && q.parameters == map[]
    else
      var hash := First(path, stop, {'#'});
      && q.basicPath == path[..stop] && q.queryPath == path[stop..hash]
      && path == q.basicPath + q.queryPath + path[hash..] && (hash < |path| ==> path[hash] == '#')
      && q.parameters == ParametersFrom(q.queryPath, 0, map[])
  }

  // Cutting a suffix of the URL in place is cutting the suffix.
  lemma CutInside(url: string, at: nat, path: string) returns (stop: nat, hash: nat)
    requires at <= |url| && path == url[at..]
    ensures stop == First(path, 0, {'?', '#'}) && First(url, at, {'?', '#'}) == at + stop
    ensures hash == First(path, stop, {'#'}) && First(url, at + stop, {'#'}) == at + hash
  {
    hide First;
    stop := First(path, 0, {'?', '#'});
    hash := First(path, stop, {'#'});
    FirstShift(url, at, {'?', '#'});
    assert path[stop..] == url[at + stop..];
    FirstShift(url, at + stop, {'#'});
    FirstShift(path, stop, {'#'});
  }

  lemma ExtractCuts(url: string, at: nat, r: QueryResult)
    requires at <= |url| && r == Reached(r.scheme, r.host, r.port)
    ensures CutsPath(url[at..], Extract(url, at, r))
  {
    hide First, ParametersFrom;
    var path := url[at..];
    var stop, hash := CutInside(url, at, path);
    assert url[at..at + stop] == path[..stop] && url[at + stop..at + hash] == path[stop..hash];
    assert path == path[..stop] + path[stop..hash] + path[hash..];
  }

  predicate SameUrl(b: BasicResult, q: QueryResult) {
    q.scheme == b.scheme && q.tls == b.tls && q.host == b.host && q.port == b.port && CutsPath(b.path, q)
  }

  predicate Agree(basic: Outcome<BasicResult>, query: Outcome<QueryResult>) {
    match basic
    case PastEnd => query == PastEnd
    case BadPort(error) => query == BadPort(error)
    case Parsed(b) => query.Parsed? && SameUrl(b, query.result)
  }

  /** The machines agree on every input: both run past the end, both throw the same std::stoi error, or both
      give the same scheme, TLS flag, host and port (or absence of one), and then the query machine's paths and
      fragment put together are the basic machine's path. */
  lemma MachinesAgree(url: string)
    ensures Agree(BasicReference(url), QueryReference(url))
  {
    hide Stoi, ParametersFrom, Split, First, CutsPath, Extract;
    var parts := Split(url);
    EmptyCuts(parts);
    if parts.Complete? && !PortFails(PortOf(parts.port)) {
      PathInside(url);
      var r := Reached(parts.scheme, parts.host, PortNumber(PortOf(parts.port)));
      ExtractKeeps(url, parts.path, r);
      ExtractCuts(url, parts.path, r);
    }
  }

  lemma ExtractKeeps(url: string, at: nat, r: QueryResult)
    requires at <= |url|
    ensures var q := Extract(url, at, r); q.scheme == r.scheme && q.tls == r.tls && q.host == r.host && q.port == r.port
  {
  }

  lemma EmptyCuts(parts: Parts)
    ensures CutsPath("", Reached("", "", None))
    ensures parts.NoHost? ==> CutsPath("", Reached(parts.scheme, "", None))
    ensures parts.NoPath? ==> CutsPath("", Reached(parts.scheme, parts.host, None))
  {
  }

  lemma PathInside(url: string)
    ensures Split(url).Complete? ==> Split(url).path < |url|
  {
  }

  // ---------- printing ----------

  function PortText(port: Option<nat>): string {
    if port == None then "" else ":" + Decimal(port.value)
  }

  /** scheme "://" host [":" port] tail */
  function UrlText(scheme: string, host: string, port: Option<nat>, tail: string): string {
    scheme + "://" + host + PortText(port) + tail
  }

  predicate Printable(scheme: string, host: string, port: Option<nat>, tail: string) {
    && ':' !in scheme && ':' !in host && '/' !in host
    && (port.Some? ==> port.value < 65536) && tail != "" && tail[0] == '/'
  }

  lemma SchemeUnique(url: string, i: nat)
    requires i < |url| && SchemeEndsAt(url, i) && forall j :: 0 <= j < i ==> url[j] != ':'
    ensures SchemeEnd(url, 0) == i
  {
    var f := SchemeEnd(url, 0);
    assert f < |url| ==> url[f] == ':';
  }

  /** The parts of a printed URL are where they were put. */
  lemma SplitPrinted(scheme: string, host: string, port: Option<nat>, tail: string)
    requires Printable(scheme, host, port, tail)
    ensures var text := PortText(port);
      Split(UrlText(scheme, host, port, tail)) == Complete(scheme, host,
        if port == None then None else Some(Decimal(port.value)), |scheme| + 3 + |host| + |text|)
  {
    if port == None {
      SplitPrintedWithoutPort(scheme, host, tail);
    } else {
      SplitPrintedWithPort(scheme, host, port.value, tail);
    }
  }

  lemma SplitPrintedWithoutPort(scheme: string, host: string, tail: string)
    requires Printable(scheme, host, None, tail)
    ensures Split(UrlText(scheme, host, None, tail)) == Complete(scheme, host, None, |scheme| + 3 + |host|)
  {
    hide First, SchemeEnd, Split;
    HostPrinted(scheme, host, tail);
    assert UrlText(scheme, host, None, tail) == scheme + "://" + host + tail;
    SplitWithoutPort(scheme + "://" + host + tail, |scheme|, |scheme| + 3 + |host|);
  }

  lemma SplitPrintedWithPort(scheme: string, host: string, port: nat, tail: string)
    requires Printable(scheme, host, Some(port), tail)
    ensures Split(UrlText(scheme, host, Some(port), tail)) ==
      Complete(scheme, host, Some(Decimal(port)), |scheme| + 3 + |host| + 1 + |Decimal(port)|)
  {
    hide First, SchemeEnd, Decimal, Split, Stoi, Digits, UrlText, PortText;
    var url := UrlText(scheme, host, Some(port), tail);
    var before, digits := scheme + "://" + host, Decimal(port);
    var rest := ":" + digits + tail;
    TextWithPort(scheme, host, port, tail);
    assert url == before + rest;
    HostPrinted(scheme, host, rest);
    PortPrinted(before, digits, tail, port);
    SplitWithPort(url, |scheme|, |before|, |before| + 1 + |digits|);
  }

  lemma TextWithPort(scheme: string, host: string, port: nat, tail: string)
    ensures UrlText(scheme, host, Some(port), tail) == scheme + "://" + host + (":" + Decimal(port) + tail)
  {
    hide Decimal;
  }

  lemma HostPrinted(scheme: string, host: string, rest: string)
    requires ':' !in scheme && ':' !in host && '/' !in host && rest != "" && rest[0] in {':', '/'}
    ensures var url := scheme + "://" + host + rest; var i := |scheme|; var j := i + 3 + |host|;
      && SchemeEnd(url, 0) == i && First(url, i + 3, {':', '/'}) == j < |url|
      && url[..i] == scheme && url[i + 3..j] == host && url[j] == rest[0]
  {
    hide First, SchemeEnd;
    assert scheme + "://" + host + rest == scheme + "://" + (host + rest);
    SchemePrinted(scheme, host + rest);
    FirstAfter(scheme + "://", host, rest, {':', '/'});
    Middle(scheme + "://", host, rest);
    Middle(scheme, "://", host + rest);
  }

  lemma PortPrinted(before: string, digits: string, tail: string, port: nat)
    requires digits == Decimal(port) && tail != "" && tail[0] == '/'
    ensures var url := before + (":" + digits + tail); var j := |before|; var k := j + 1 + |digits|;
      k < |url| && url[j] == ':' && url[j + 1..k] == digits && First(url, j + 1, {'/'}) == k
  {
    hide First, Decimal;
    var url := before + (":" + digits + tail);
    assert url == (before + ":") + digits + tail;
    DigitsDecimal(port, "");
    FirstAfter(before + ":", digits, tail, {'/'});
    Middle(before + ":", digits, tail);
  }

  lemma SplitWithoutPort(url: string, i: nat, j: nat)
    requires SchemeEnd(url, 0) == i && i + 3 <= j < |url| && First(url, i + 3, {':', '/'}) == j && url[j] == '/'
    ensures Split(url) == Complete(url[..i], url[i + 3..j], None, j)
  {
  }

  lemma SplitWithPort(url: string, i: nat, j: nat, k: nat)
    requires SchemeEnd(url, 0) == i && i + 3 <= j < |url| && First(url, i + 3, {':', '/'}) == j && url[j] == ':'
    requires j < k < |url| && First(url, j + 1, {'/'}) == k
    ensures Split(url) == Complete(url[..i], url[i + 3..j], Some(url[j + 1..k]), k)
  {
  }

  lemma SchemePrinted(scheme: string, rest: string)
    requires ':' !in scheme
    ensures SchemeEnd(scheme + "://" + rest, 0) == |scheme|
  {
    hide SchemeEnd;
    var url := scheme + "://" + rest;
    assert forall k :: 0 <= k < |scheme| ==> url[k] == scheme[k];
    SchemeUnique(url, |scheme|);
  }

  lemma Middle(before: string, middle: string, after: string)
    ensures (before + middle + after)[|before|..|before| + |middle|] == middle
    ensures (before + middle + after)[..|before|] == before
    ensures after != "" ==> (before + middle + after)[|before| + |middle|] == after[0]
  {
  }

  lemma FirstAfter(before: string, middle: string, after: string, stops: set<char>)
    requires (forall c :: c in middle ==> c !in stops) && (after != "" ==> after[0] in stops)
    ensures First(before + middle + after, |before|, stops) == |before| + |middle|
  {
    hide First;
    var s := before + middle + after;
    var i := |before| + |middle|;
    assert forall j :: |before| <= j < i ==> s[j] == middle[j - |before|];
    assert i < |s| ==> s[i] == after[0];
    FirstUnique(s, |before|, stops, i);
  }

  /** parserBasicUrl undoes printing, port included. */
  lemma BasicRoundTrip(scheme: string, host: string, port: Option<nat>, path: string)
    requires Printable(scheme, host, port, path)
    ensures BasicReference(UrlText(scheme, host, port, path)) ==
      Parsed(BasicResult(host, path, scheme, port, scheme == "https"))
  {
    hide Stoi, Split;
    var url := UrlText(scheme, host, port, path);
    SplitPrinted(scheme, host, port, path);
    assert url[|scheme| + 3 + |host| + |PortText(port)|..] == path;
    if port.Some? {
      PortRoundTrip(port.value);
    }
  }

  /** parserQueryUrl returns exactly the printed parts: path, "?" and query without the fragment. */
  lemma QueryRoundTrip(scheme: string, host: string, port: Option<nat>, path: string, query: string,
                       fragment: Option<string>)
    requires Printable(scheme, host, port, path)
    requires '?' !in path && '#' !in path && '#' !in query
    ensures QueryReference(UrlText(scheme, host, port, Tail(path, query, fragment))) ==
      Parsed(QueryResult(host, path, scheme, "?" + query, port, scheme == "https",
                         ParametersFrom("?" + query, 0, map[])))
  {
    hide Stoi, Split, ParametersFrom, First, UrlText;
    var tail := Tail(path, query, fragment);
    BasicRoundTrip(scheme, host, port, tail);
    MachinesAgree(UrlText(scheme, host, port, tail));
    CutsPrinted(path, "?" + query, if fragment == None then "" else "#" + fragment.value);
  }

  /** path "?" query ["#" fragment] */
  function Tail(path: string, query: string, fragment: Option<string>): string {
    path + ("?" + query) + (if fragment == None then "" else "#" + fragment.value)
  }

  lemma CutsPrinted(path: string, query: string, rest: string)
    requires '?' !in path && '#' !in path && '#' !in query && query != "" && query[0] == '?'
    requires rest != "" ==> rest[0] == '#'
    ensures var tail := path + query + rest;
      && First(tail, 0, {'?', '#'}) == |path| && First(tail, |path|, {'#'}) == |path| + |query|
      && tail[..|path|] == path && tail[|path|..|path| + |query|] == query
  {
    hide First;
    StopPrinted(path, query + rest);
    assert path + query + rest == path + (query + rest);
    FirstAfter(path, query, rest, {'#'});
    Middle(path, query, rest);
  }

  lemma StopPrinted(path: string, after: string)
    requires '?' !in path && '#' !in path && after != "" && after[0] == '?'
    ensures First(path + after, 0, {'?', '#'}) == |path|
  {
    hide First;
    assert "" + path + after == path + after;
    FirstAfter("", path, after, {'?', '#'});
  }

  /** A URL printed with a parameter list parses to the list's last-write-wins map, whatever its fragment. */
  lemma QueryRoundTripWithParameters(scheme: string, host: string, port: Option<nat>, path: string, pairs: seq<Pair>,
                                     fragment: Option<string>)
    requires Printable(scheme, host, port, path) && '?' !in path && '#' !in path
    requires pairs != [] && (forall p :: p in pairs ==> PairOk(p)) && '#' !in Join(pairs)
    ensures QueryReference(UrlText(scheme, host, port, Tail(path, Join(pairs), fragment))) ==
      Parsed(QueryResult(host, path, scheme, "?" + Join(pairs), port, scheme == "https", LastWins(pairs, map[])))
  {
    hide Stoi, Split, ParametersFrom, QueryReference;
    QueryRoundTrip(scheme, host, port, path, Join(pairs), fragment);
    ParametersRoundTrip(pairs);
  }

  // ---------- clientTool ----------

  datatype ClientBasicUrl = ClientBasicUrl(host: string, path: string, port: Option<nat>, tls: bool)

  datatype ClientQueryUrl = ClientQueryUrl(host: string, queryPath: string, port: Option<nat>, tls: bool,
                                           basicPath: string, fullPath: string, parameters: map<string, string>)

  /** syncParserBasicUri copies the fields over. */
  method SyncParserBasicUri(url: string) returns (outcome: Outcome<ClientBasicUrl>)
    ensures match (BasicReference(url), outcome)
      case (Parsed(r), Parsed(c)) => c == ClientBasicUrl(r.host, r.path, r.port, r.tls)
      case (BadPort(e), BadPort(f)) => e == f
      case (PastEnd, PastEnd) => true
      case _ => false
  {
    var parsed := ParserBasicUrl(url);
    match parsed
    case Parsed(r) => outcome := Parsed(ClientBasicUrl(r.host, r.path, r.port, r.tls));
    case BadPort(e) => outcome := BadPort(e);
    case PastEnd => outcome := PastEnd;
  }

  /** The parsed fields, and full_path put together from the two paths. */
  function ClientQueryReference(url: string): Outcome<ClientQueryUrl> {
    match QueryReference(url)
    case Parsed(r) => Parsed(ClientQueryUrl(r.host, r.queryPath, r.port, r.tls, r.basicPath, r.basicPath + r.queryPath,
                                            r.parameters))
    case BadPort(e) => BadPort(e)
    case PastEnd => PastEnd
  }

  method SyncParserQueryUrl(url: string) returns (outcome: Outcome<ClientQueryUrl>)
    ensures outcome == ClientQueryReference(url)
    ensures outcome.Parsed? <==> BasicReference(url).Parsed?
    ensures outcome.Parsed? && outcome.result.basicPath != "" ==>
      var path := BasicReference(url).result.path; outcome.result.fullPath == path[..First(path, 0, {'#'})]
  {
    hide BasicReference, QueryReference, First;
    FullPathIsBasicPath(url);
    var parsed := ParserQueryUrl(url);
    match parsed
    case Parsed(r) =>
      outcome := Parsed(ClientQueryUrl(r.host, r.queryPath, r.port, r.tls, r.basicPath, r.basicPath + r.queryPath,
                                       r.parameters));
    case BadPort(e) => outcome := BadPort(e);
    case PastEnd => outcome := PastEnd;
  }

  /** On every URL whose query machine reaches a path, full_path is the basic machine's path without its
      fragment. */
  lemma FullPathIsBasicPath(url: string)
    ensures ClientQueryReference(url).Parsed? <==> BasicReference(url).Parsed?
    ensures ClientQueryReference(url).Parsed? && ClientQueryReference(url).result.basicPath != "" ==>
      var path := BasicReference(url).result.path;
      ClientQueryReference(url).result.fullPath == path[..First(path, 0, {'#'})]
  {
    hide Stoi, Split, ParametersFrom, BasicReference, QueryReference;
    MachinesAgree(url);
    if QueryReference(url).Parsed? {
      FullPath(BasicReference(url).result.path, QueryReference(url).result);
    }
  }

  /** syncParserQueryUrl on a printed URL: every part comes back, and full_path is path "?" query. */
  lemma ClientRoundTrip(scheme: string, host: string, port: Option<nat>, path: string, query: string,
                        fragment: Option<string>)
    requires Printable(scheme, host, port, path)
    requires '?' !in path && '#' !in path && '#' !in query
    ensures ClientQueryReference(UrlText(scheme, host, port, Tail(path, query, fragment))) ==
      Parsed(ClientQueryUrl(host, "?" + query, port, scheme == "https", path, path + "?" + query,
                            ParametersFrom("?" + query, 0, map[])))
  {
    hide QueryReference, UrlText, Tail, ParametersFrom;
    QueryRoundTrip(scheme, host, port, path, query, fragment);
    assert path + ("?" + query) == path + "?" + query;
  }

  lemma FullPath(path: string, q: QueryResult)
    requires CutsPath(path, q)
    ensures q.basicPath != "" ==> q.basicPath + q.queryPath == path[..First(path, 0, {'#'})]
  {
    var stop := First(path, 0, {'?', '#'});
    if stop < |path| {
      FirstUnique(path, 0, {'#'}, First(path, stop, {'#'}));
    }
  }
}
