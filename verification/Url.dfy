/** parserBasicUrl and parserQueryUrl of lib/parser_lib/urlparser_lib.cc, and the two sync functions of
    include/client/clientapp/clientTool.hpp.  Fields a machine does not reach stay at their initial value; the
    port, which has none, is an option. */
module Url {
  import opened Options
  import opened UrlParameters
  import opened UrlPort

  datatype BasicResult = BasicResult(host: string, path: string, scheme: string, port: Option<nat>, tls: bool)

  datatype QueryResult = QueryResult(host: string, basicPath: string, scheme: string, queryPath: string,
                                     port: Option<nat>, tls: bool, parameters: map<string, string>)

  /** A result, the exception of std::stoi, or a cursor moved past the end, from where the loops never stop. */
  datatype Outcome<T> = Parsed(result: T) | BadPort(error: Number) | PastEnd

  // ---------- a reference: where the parts of a URL are ----------

  /** The first ':' with '/' right after it, or the length. */
  function SchemeEnd(url: string, from: nat): (i: nat)
    requires from <= |url|
    ensures from <= i <= |url| && (i < |url| ==> SchemeEndsAt(url, i))
    ensures forall j :: from <= j < i ==> !SchemeEndsAt(url, j)
    decreases |url| - from
  {
    if from == |url| || SchemeEndsAt(url, from) then from else SchemeEnd(url, from + 1)
  }

  // data() is NUL-terminated, so the character after the last one is not '/'.
  predicate SchemeEndsAt(url: string, i: nat)
    requires i < |url|
  {
    url[i] == ':' && i + 1 < |url| && url[i + 1] == '/'
  }

  /** Scheme, host and port text, as far as the URL has them, and where the path begins. */
  datatype Parts =
    | NoScheme
    | NoRoom                                  // fewer than three characters from the scheme's ':' on
    | NoHost(scheme: string)
    | NoPath(scheme: string, host: string)    // a ':' after the host but no '/' after that
    | Complete(scheme: string, host: string, port: Option<string>, path: nat)

  function Split(url: string): Parts {
    var i := SchemeEnd(url, 0);
    if i == |url| then NoScheme
    else if i + 3 > |url| then NoRoom
    else
      var j := First(url, i + 3, {':', '/'});
      if j == |url| then NoHost(url[..i])
      else if url[j] == '/' then Complete(url[..i], url[i + 3..j], None, j)
      else
        var k := First(url, j + 1, {'/'});
        if k == |url| then NoPath(url[..i], url[i + 3..j])
        else Complete(url[..i], url[i + 3..j], Some(url[j + 1..k]), k)
  }

  function PortOf(text: Option<string>): Option<Number> {
    if text == None then None else Some(Stoi(text.value))
  }

  function PortNumber(number: Option<Number>): Option<nat> {
    if number == None || !number.value.Value? then None else Some(ToPort(number.value.n))
  }

  predicate PortFails(number: Option<Number>) {
    number.Some? && !number.value.Value?
  }

  function BasicReference(url: string): Outcome<BasicResult> {
    match Split(url)
    case NoScheme => Parsed(BasicResult("", "", "", None, false))
    case NoRoom => PastEnd
    case NoHost(scheme) => Parsed(BasicResult("", "", scheme, None, scheme == "https"))
    case NoPath(scheme, host) => Parsed(BasicResult(host, "", scheme, None, scheme == "https"))
    case Complete(scheme, host, text, path) =>
      var number := PortOf(text);
      if PortFails(number) then BadPort(number.value)
      else Parsed(BasicResult(host, url[path..], scheme, PortNumber(number), scheme == "https"))
  }

  function QueryReference(url: string): Outcome<QueryResult> {
    match Split(url)
    case NoScheme => Parsed(Reached("", "", None))
    case NoRoom => PastEnd
    case NoHost(scheme) => Parsed(Reached(scheme, "", None))
    case NoPath(scheme, host) => Parsed(Reached(scheme, host, None))
    case Complete(scheme, host, text, path) =>
      var number := PortOf(text);
      if PortFails(number) then BadPort(number.value)
      else Parsed(Extract(url, path, Reached(scheme, host, PortNumber(number))))
  }

  /** A result whose path fields have not been reached. */
  function Reached(scheme: string, host: string, port: Option<nat>): QueryResult {
    QueryResult(host, "", scheme, "", port, scheme == "https", map[])
  }

  /** The path that starts at `path`, cut at its first '?' or '#' if it has one. */
  function Extract(url: string, path: nat, r: QueryResult): QueryResult
    requires path <= |url|
  {
    var q := First(url, path, {'?', '#'});
    if q == |url| then r
    else
      var query := url[q..First(url, q, {'#'})];
      r.(basicPath := url[path..q], queryPath := query, parameters := ParametersFrom(query, 0, map[]))
  }

  // ---------- the machines against the reference ----------

  // Where the states both machines share stand in terms of the reference.
  ghost predicate AtSign(url: string, start: nat, pos: nat) {
    start == 0 && pos <= |url| && SchemeEnd(url, 0) == SchemeEnd(url, pos)
  }

  ghost predicate AtHost(url: string, start: nat, pos: nat) {
    && 3 <= start <= pos <= |url| && SchemeEnd(url, 0) == start - 3
    && First(url, start, {':', '/'}) == First(url, pos, {':', '/'})
  }

  ghost predicate AtPort(url: string, scheme: string, host: string, start: nat, pos: nat) {
    && start <= pos <= |url|
    && (var i := SchemeEnd(url, 0);
        && i < |url| && i + 3 < start && First(url, i + 3, {':', '/'}) == start - 1 && url[start - 1] == ':'
        && scheme == url[..i] && host == url[i + 3..start - 1])
    && First(url, start, {'/'}) == First(url, pos, {'/'})
  }

  ghost predicate AtPath(url: string, scheme: string, host: string, port: Option<nat>, pos: nat) {
    var parts := Split(url);
    && parts.Complete? && parts.scheme == scheme && parts.host == host && parts.path == pos < |url| && url[pos] == '/'
    && !PortFails(PortOf(parts.port)) && PortNumber(PortOf(parts.port)) == port
  }

  lemma SignStep(url: string, start: nat, pos: nat)
    requires AtSign(url, start, pos)
    ensures pos == |url| ==> Split(url) == NoScheme
    ensures pos < |url| && !SchemeEndsAt(url, pos) ==> AtSign(url, start, pos + 1)
    ensures pos < |url| && SchemeEndsAt(url, pos) ==>
      if pos + 3 > |url| then Split(url) == NoRoom else AtHost(url, pos + 3, pos + 3)
  {
  }

  lemma HostStep(url: string, start: nat, pos: nat)
    requires AtHost(url, start, pos)
    ensures pos == |url| ==> Split(url) == NoHost(url[..start - 3])
    ensures pos < |url| && url[pos] !in {':', '/'} ==> AtHost(url, start, pos + 1)
    ensures pos < |url| && url[pos] == ':' ==> AtPort(url, url[..start - 3], url[start..pos], pos + 1, pos + 1)
    ensures pos < |url| && url[pos] == '/' ==> AtPath(url, url[..start - 3], url[start..pos], None, pos)
  {
  }

  lemma PortStep(url: string, scheme: string, host: string, start: nat, pos: nat)
    requires AtPort(url, scheme, host, start, pos)
    ensures pos == |url| ==> Split(url) == NoPath(scheme, host)
    ensures pos < |url| && url[pos] != '/' ==> AtPort(url, scheme, host, start, pos + 1)
    ensures pos < |url| && url[pos] == '/' ==> Split(url) == Complete(scheme, host, Some(url[start..pos]), pos)
  {
  }

  lemma PathStep(url: string, scheme: string, host: string, port: Option<nat>, pos: nat)
    requires AtPath(url, scheme, host, port, pos)
    ensures BasicReference(url) == Parsed(BasicResult(host, url[pos..], scheme, port, scheme == "https"))
  {
  }

  // ---------- the machines ----------

  datatype BasicState = Sign | Host | Port | Path | End

  method ParserBasicUrl(url: string) returns (outcome: Outcome<BasicResult>)
    ensures outcome == BasicReference(url)
  {
    hide Stoi, AtSign, AtHost, AtPort, AtPath, Split;
    var result := BasicResult("", "", "", None, false);
    var state := BasicState.Sign;
    var pos, start := 0, 0;
    assert AtSign(url, 0, 0) by { Begin(url); }
    while pos != |url|
      invariant start <= pos <= |url|
      invariant state == Sign ==>
        AtSign(url, start, pos) && start == 0 && result == BasicResult("", "", "", None, false)
      invariant state == Host ==> 3 <= start && AtHost(url, start, pos)
      invariant state == Host ==> result == BasicResult("", "", url[..start - 3], None, url[..start - 3] == "https")
      invariant state == Port ==> AtPort(url, result.scheme, result.host, start, pos)
      invariant state == Port ==> result == BasicResult(result.host, "", result.scheme, None, result.scheme == "https")
      invariant state == Path ==> start == pos < |url| && AtPath(url, result.scheme, result.host, result.port, pos)
      invariant state == Path ==>
        result == BasicResult(result.host, "", result.scheme, result.port, result.scheme == "https")
      invariant state == End ==> pos < |url| && Parsed(result) == BasicReference(url)
      decreases |url| - pos, match state case Sign => 4 case Host => 3 case Port => 2 case Path => 1 case End => 0
    {
      var c := url[pos];
      match state {
      case Sign =>
        SignStep(url, start, pos);
        if c == ':' && pos + 1 < |url| && url[pos + 1] == '/' {
          result := result.(scheme := url[start..pos], tls := url[start..pos] == "https");
          assert url[start..pos] == url[..pos];
          pos := pos + 3;
          if pos > |url| {
            return PastEnd;
          }
          start := pos;
          state := Host;
          continue;
        }
      case Host =>
        HostStep(url, start, pos);
        if c == ':' || c == '/' {
          result := result.(host := url[start..pos]);
          if c == ':' {
            state := Port;
            start := pos + 1;
          } else {
            state := Path;
            start := pos;
            continue;
          }
        }
      case Port =>
        PortStep(url, result.scheme, result.host, start, pos);
        if c == '/' {
          var number := Stoi(url[start..pos]);
          if !number.Value? {
            return BadPort(number);
          }
          EnterPath(url, result.scheme, result.host, url[start..pos], pos);
          result := result.(port := Some(ToPort(number.n)));
          state := Path;
          start := pos;
          continue;
        }
      case Path =>
        PathStep(url, result.scheme, result.host, result.port, pos);
        var path := url[start..];
        result := result.(path := if path == "" then "/" else path);
        state := End;
        continue;
      case End =>
        return Parsed(result);
      }
      pos := pos + 1;
    }
    match state {
    case Sign => SignStep(url, start, pos);
    case Host => HostStep(url, start, pos);
    case Port => PortStep(url, result.scheme, result.host, start, pos);
    }
    outcome := Parsed(result);
  }

  lemma Begin(url: string)
    ensures AtSign(url, 0, 0)
  {
  }

  lemma EnterPath(url: string, scheme: string, host: string, text: string, pos: nat)
    requires pos < |url| && url[pos] == '/'
    requires Split(url) == Complete(scheme, host, Some(text), pos) && Stoi(text).Value?
    ensures AtPath(url, scheme, host, Some(ToPort(Stoi(text).n)), pos)
  {
  }

  datatype QueryState = QuerySign | QueryHost | QueryPort | InQuery | QueryEnd

  // Scanning for '?' or '#' in a path that starts at `start`.
  ghost predicate AtQuery(url: string, r: QueryResult, start: nat, pos: nat) {
    && start <= pos <= |url| && AtPath(url, r.scheme, r.host, r.port, start)
    && First(url, start, {'?', '#'}) == First(url, pos, {'?', '#'})
    && r == Reached(r.scheme, r.host, r.port)
  }

  lemma QueryStep(url: string, r: QueryResult, start: nat, pos: nat)
    requires AtQuery(url, r, start, pos)
    ensures pos == |url| ==> QueryReference(url) == Parsed(r)
    ensures pos < |url| && url[pos] !in {'?', '#'} ==> AtQuery(url, r, start, pos + 1)
    ensures pos < |url| && url[pos] in {'?', '#'} ==>
      var query := url[pos..First(url, pos, {'#'})];
      QueryReference(url) ==
      Parsed(r.(basicPath := url[start..pos], queryPath := query, parameters := ParametersFrom(query, 0, map[])))
  {
  }

  lemma EnterQuery(url: string, r: QueryResult, start: nat)
    requires AtPath(url, r.scheme, r.host, r.port, start)
    requires r == Reached(r.scheme, r.host, r.port)
    ensures AtQuery(url, r, start, start) && AtQuery(url, r, start, start + 1)
  {
  }

  method ParserQueryUrl(url: string) returns (outcome: Outcome<QueryResult>)
    ensures outcome == QueryReference(url)
  {
    hide Stoi, AtSign, AtHost, AtPort, AtPath, AtQuery, Split, ParametersFrom;
    var result := QueryResult("", "", "", "", None, false, map[]);
    var state := QuerySign;
    var ops, start := 0, 0;
    Begin(url);
    while ops != |url|
      invariant start <= ops <= |url|
      invariant state == QuerySign ==> AtSign(url, start, ops) && start == 0
      invariant state == QuerySign ==> result == Reached("", "", None)
      invariant state == QueryHost ==> 3 <= start && AtHost(url, start, ops)
      invariant state == QueryHost ==> result == Reached(url[..start - 3], "", None)
      invariant state == QueryPort ==> AtPort(url, result.scheme, result.host, start, ops)
      invariant state == QueryPort ==> result == Reached(result.scheme, result.host, None)
      invariant state == InQuery ==> AtQuery(url, result, start, ops)
      invariant state == QueryEnd ==> ops < |url|
      invariant state == QueryEnd ==>
        QueryReference(url) == Parsed(result.(parameters := ParametersFrom(result.queryPath, 0, map[])))
      decreases |url| - ops,
                match state
                case QuerySign => 4 case QueryHost => 3 case QueryPort => 2 case InQuery => 1 case QueryEnd => 0
    {
      var c := url[ops];
      match state {
      case QuerySign =>
        SignStep(url, start, ops);
        if c == ':' && ops + 1 < |url| && url[ops + 1] == '/' {
          result := result.(scheme := url[start..ops], tls := url[start..ops] == "https");
          assert url[start..ops] == url[..ops];
          state := QueryHost;
          ops := ops + 3;
          if ops > |url| {
            return PastEnd;
          }
          start := ops;
          continue;
        }
      case QueryHost =>
        HostStep(url, start, ops);
        if c == ':' || c == '/' {
          result := result.(host := url[start..ops]);
          if c == ':' {
            state := QueryPort;
            start := ops + 1;
          } else {
            EnterQuery(url, result, ops);
            state := InQuery;
            start := ops;
          }
        }
      case QueryPort =>
        PortStep(url, result.scheme, result.host, start, ops);
        if c == '/' {
          var number := Stoi(url[start..ops]);
          if !number.Value? {
            return BadPort(number);
          }
          EnterPath(url, result.scheme, result.host, url[start..ops], ops);
          result := result.(port := Some(ToPort(number.n)));
          EnterQuery(url, result, ops);
          state := InQuery;
          start := ops;
          continue;
        }
      case InQuery =>
        QueryStep(url, result, start, ops);
        if c == '?' || c == '#' {
          var queryEnd := ops;
          while queryEnd != |url| && url[queryEnd] != '#'
            invariant ops <= queryEnd <= |url| && First(url, ops, {'#'}) == First(url, queryEnd, {'#'})
          {
            queryEnd := queryEnd + 1;
          }
          result := result.(basicPath := url[start..ops], queryPath := url[ops..queryEnd]);
          state := QueryEnd;
          continue;
        }
      case QueryEnd =>
        var parameters := ParserQueryParameter(result.queryPath);
        result := result.(parameters := parameters);
        return Parsed(result);
      }
      ops := ops + 1;
    }
    match state {
    case QuerySign => SignStep(url, start, ops);
    case QueryHost => HostStep(url, start, ops);
    case QueryPort => PortStep(url, result.scheme, result.host, start, ops);
    case InQuery => QueryStep(url, result, start, ops);
    }
    outcome := Parsed(result);
  }
}
