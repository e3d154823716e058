/** Searching in strings, and M_parserQueryParamter of include/client/Parser/Urlparser.hpp. */
module UrlParameters {

  /** The first index from `from` on whose character is one of `stops`, or the length. */
  function First(s: string, from: nat, stops: set<char>): (i: nat)
    requires from <= |s|
    ensures from <= i <= |s| && (i < |s| ==> s[i] in stops)
    ensures forall j :: from <= j < i ==> s[j] !in stops
    decreases |s| - from
  {
    if from == |s| || s[from] in stops then from else First(s, from + 1, stops)
  }

  lemma FirstUnique(s: string, from: nat, stops: set<char>, i: nat)
    requires from <= i <= |s| && (i < |s| ==> s[i] in stops)
    requires forall j :: from <= j < i ==> s[j] !in stops
    ensures First(s, from, stops) == i
  {
  }

  /** What the map holds for a key without a value. */
  function EmptyParameter(): string {
    "[EMPYTY-PARAMTER]"
  }

  /** One turn of the loop at cursor `ops`: the map and the cursor after it.  A key without '=' before the
      next '&' is cut at the next '=' anywhere, or runs to the end of the text. */
  function Turn(text: string, ops: nat, found: map<string, string>): (map<string, string>, nat)
    requires ops < |text|
  {
    var at := if text[ops] == '?' then ops + 1 else ops;
    var eq := First(text, at, {'='});
    var amp := First(text, at, {'&'});
    (found[text[at..eq] := if eq < amp then text[eq + 1..amp] else EmptyParameter()], amp + 1)
  }

  function ParametersFrom(text: string, ops: nat, found: map<string, string>): map<string, string>
    decreases |text| - ops
  {
    if ops >= |text| then found
    else var (more, next) := Turn(text, ops, found); ParametersFrom(text, next, more)
  }

  method ParserQueryParameter(text: string) returns (parameters: map<string, string>)
    ensures parameters == ParametersFrom(text, 0, map[])
  {
    hide First, EmptyParameter, ParametersFrom;
    parameters := map[];
    PastTheEnd(text, |text|, parameters);
    if text == "" {
      return;
    }
    var ops := 0;
    while ops < |text|
      invariant ParametersFrom(text, 0, map[]) == ParametersFrom(text, ops, parameters)
      decreases |text| - ops
    {
      OneTurn(text, ops, parameters);
      var at := ops;
      if text[at] == '?' {
        at := at + 1;
      }
      var eq := First(text, at, {'='});
      var amp := First(text, at, {'&'});
      var key := text[at..eq];
      if eq != |text| && eq < amp {
        var value := text[eq + 1..amp];
        parameters := parameters[key := value];
      } else {
        parameters := parameters[key := EmptyParameter()];
      }
      ops := amp + 1;
    }
    PastTheEnd(text, ops, parameters);
  }

  lemma OneTurn(text: string, ops: nat, found: map<string, string>)
    requires ops < |text|
    ensures ParametersFrom(text, ops, found) == ParametersFrom(text, Turn(text, ops, found).1, Turn(text, ops, found).0)
    ensures Turn(text, ops, found).1 > ops
  {
  }

  lemma PastTheEnd(text: string, ops: nat, found: map<string, string>)
    requires ops >= |text|
    ensures ParametersFrom(text, ops, found) == found
  {
  }

  // ---------- printing ----------

  datatype Pair = Pair(key: string, value: string)

  predicate PairOk(p: Pair) {
    '=' !in p.key && '&' !in p.key && (p.key != "" ==> p.key[0] != '?') && '&' !in p.value
  }

  function Text(p: Pair): string {
    p.key + "=" + p.value
  }

  /** k=v&k=v&... */
  function Join(pairs: seq<Pair>): string
    requires pairs != []
  {
    if |pairs| == 1 then Text(pairs[0]) else Text(pairs[0]) + "&" + Join(pairs[1..])
  }

  function LastWins(pairs: seq<Pair>, found: map<string, string>): map<string, string> {
    if pairs == [] then found else LastWins(pairs[1..], found[pairs[0].key := pairs[0].value])
  }

  lemma PairLayout(text: string, ops: nat, p: Pair)
    requires PairOk(p) && ops + |Text(p)| <= |text| && text[ops..ops + |Text(p)|] == Text(p)
    ensures var eq := ops + |p.key|; var end := ops + |Text(p)|;
      && text[ops..eq] == p.key && text[eq] == '=' && text[eq + 1..end] == p.value
      && text[ops] != '?' && '=' !in text[ops..eq] && '&' !in text[ops..end]
  {
    var eq := ops + |p.key|;
    var end := ops + |Text(p)|;
    var whole := text[ops..end];
    assert text[ops..eq] == whole[..|p.key|] == p.key;
    assert text[eq] == whole[|p.key|] == '=';
    assert text[eq + 1..end] == whole[|p.key| + 1..] == p.value;
    assert text[ops] == whole[0];
  }

  // The step the loop takes on one well-formed pair that ends at `end`.
  lemma OnePair(text: string, ops: nat, p: Pair, end: nat, found: map<string, string>)
    requires PairOk(p) && ops + |Text(p)| == end <= |text| && text[ops..end] == Text(p)
    requires end < |text| ==> text[end] == '&'
    ensures ParametersFrom(text, ops, found) == ParametersFrom(text, end + 1, found[p.key := p.value])
  {
    hide First, EmptyParameter, ParametersFrom, PairOk, Text;
    PairLayout(text, ops, p);
    PairFirsts(text, ops, p, end);
    OneTurn(text, ops, found);
  }

  lemma PairFirsts(text: string, ops: nat, p: Pair, end: nat)
    requires PairOk(p) && ops + |Text(p)| == end <= |text| && text[ops..end] == Text(p)
    requires end < |text| ==> text[end] == '&'
    ensures First(text, ops, {'='}) == ops + |p.key| < end && First(text, ops, {'&'}) == end
  {
    hide First;
    var eq := ops + |p.key|;
    PairLayout(text, ops, p);
    assert forall j :: ops <= j < eq ==> text[j] == text[ops..eq][j - ops];
    assert forall j :: ops <= j < end ==> text[j] == text[ops..end][j - ops];
    FirstUnique(text, ops, {'='}, eq);
    FirstUnique(text, ops, {'&'}, end);
  }

  lemma {:induction false} ParseJoin(text: string, ops: nat, pairs: seq<Pair>, found: map<string, string>)
    requires pairs != [] && forall p :: p in pairs ==> PairOk(p)
    requires ops <= |text| && text[ops..] == Join(pairs)
    ensures ParametersFrom(text, ops, found) == LastWins(pairs, found)
    decreases |pairs|
  {
    hide ParametersFrom, PairOk;
    var end := ops + |Text(pairs[0])|;
    assert pairs[0] in pairs;
    FirstPair(text, ops, pairs);
    OnePair(text, ops, pairs[0], end, found);
    var more := found[pairs[0].key := pairs[0].value];
    if |pairs| == 1 {
      PastTheEnd(text, end + 1, more);
    } else {
      ParseJoin(text, end + 1, pairs[1..], more);
    }
  }

  lemma FirstPair(text: string, ops: nat, pairs: seq<Pair>)
    requires pairs != [] && ops <= |text| && text[ops..] == Join(pairs)
    ensures var end := ops + |Text(pairs[0])|;
      && end <= |text| && text[ops..end] == Text(pairs[0])
      && (|pairs| == 1 ==> end == |text|)
      && (|pairs| > 1 ==> end < |text| && text[end] == '&' && text[end + 1..] == Join(pairs[1..]))
  {
    var n := |Text(pairs[0])|;
    assert text[ops..ops + n] == text[ops..][..n];
    if |pairs| > 1 {
      assert text[ops + n] == text[ops..][n];
      assert text[ops + n + 1..] == text[ops..][n + 1..];
    }
  }

  /** Parsing the printed "?k=v&..." of any non-empty list gives its last-write-wins map. */
  lemma ParametersRoundTrip(pairs: seq<Pair>)
    requires pairs != [] && forall p :: p in pairs ==> PairOk(p)
    ensures ParametersFrom("?" + Join(pairs), 0, map[]) == LastWins(pairs, map[])
  {
    var text := "?" + Join(pairs);
    assert text[1..] == Join(pairs);
    JoinStart(pairs);
    SkipQuestionMark(text, map[]);
    ParseJoin(text, 1, pairs, map[]);
  }

  lemma SkipQuestionMark(text: string, found: map<string, string>)
    requires |text| > 1 && text[0] == '?' && text[1] != '?'
    ensures ParametersFrom(text, 0, found) == ParametersFrom(text, 1, found)
  {
    hide First, EmptyParameter;
  }

  lemma JoinStart(pairs: seq<Pair>)
    requires pairs != [] && PairOk(pairs[0])
    ensures |Join(pairs)| > 0 && Join(pairs)[0] != '?'
  {
    assert Join(pairs)[0] == Text(pairs[0])[0];
  }
}
