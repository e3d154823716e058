/** The URL machines on every string: each string is printed by some shape, and parsing it gives what that shape
    means. */
module UrlShapes {
  import opened Options
  import opened UrlParameters
  import opened UrlPort
  import opened Url
  import opened UrlProperties

  /** The five shapes of a string, by its first ':' with '/' right after it; the character after those two is
      skipped whatever it is. */
  datatype Shape =
    | Unsigned(text: string)
    | Stub(scheme: string)
    | HostOnly(scheme: string, skipped: char, host: string)
    | Unended(scheme: string, skipped: char, host: string, rest: string)
    | Whole(scheme: string, skipped: char, host: string, port: Option<string>, tail: string)

  function Print(shape: Shape): string {
    match shape
    case Unsigned(text) => text
    case Stub(scheme) => scheme + ":/"
    case HostOnly(scheme, skipped, host) => Start(scheme, skipped) + host
    case Unended(scheme, skipped, host, rest) => Start(scheme, skipped) + host + (":" + rest)
    case Whole(scheme, skipped, host, port, tail) =>
      if port == None then Start(scheme, skipped) + host + tail
      else Start(scheme, skipped) + host + (":" + port.value + tail)
  }

  function Start(scheme: string, skipped: char): string {
    scheme + [':', '/', skipped]
  }

  predicate SignAt(s: string, i: nat) {
    i + 1 < |s| && s[i] == ':' && s[i + 1] == '/'
  }

  /** Neither inside the scheme nor across its end does the sign come earlier. */
  predicate SchemeOk(scheme: string) {
    forall i: nat :: i < |scheme| ==> !SignAt(scheme + ":/", i)
  }

  ghost predicate ShapeOk(shape: Shape) {
    match shape
    case Unsigned(text) => forall i: nat :: !SignAt(text, i)
    case Stub(scheme) => SchemeOk(scheme)
    case HostOnly(scheme, _, host) => SchemeOk(scheme) && ':' !in host && '/' !in host
    case Unended(scheme, _, host, rest) => SchemeOk(scheme) && ':' !in host && '/' !in host && '/' !in rest
    case Whole(scheme, _, host, port, tail) =>
      && SchemeOk(scheme) && ':' !in host && '/' !in host && tail != "" && tail[0] == '/'
      && (port.Some? ==> '/' !in port.value)
  }

  /** What parsing a shape gives: a port is an int cut to sixteen bits, and without a number stoi throws. */
  function Meaning(shape: Shape): Outcome<BasicResult> {
    match shape
    case Unsigned(_) => Parsed(BasicResult("", "", "", None, false))
    case Stub(_) => PastEnd
    case HostOnly(scheme, _, _) => Parsed(BasicResult("", "", scheme, None, scheme == "https"))
    case Unended(scheme, _, host, _) => Parsed(BasicResult(host, "", scheme, None, scheme == "https"))
    case Whole(scheme, _, host, port, tail) =>
      if port == None then Parsed(BasicResult(host, tail, scheme, None, scheme == "https"))
      else match Stoi(port.value)
        case Value(n) => Parsed(BasicResult(host, tail, scheme, Some(n % 65536), scheme == "https"))
        case error => BadPort(error)
  }

  // ---------- the parts of a printed shape ----------

  lemma SchemeFound(url: string, scheme: string)
    requires SchemeOk(scheme) && scheme + ":/" <= url
    ensures SchemeEnd(url, 0) == |scheme|
  {
    hide SchemeEnd;
    assert forall i :: 0 <= i < |scheme| + 2 ==> url[i] == (scheme + ":/")[i];
    forall i: nat | i < |scheme|
      ensures !SchemeEndsAt(url, i)
    {
      assert !SignAt(scheme + ":/", i);
    }
    assert SchemeEndsAt(url, |scheme|);
    SchemeFirst(url, |scheme|);
  }

  lemma SchemeFirst(url: string, i: nat)
    requires i < |url| && SchemeEndsAt(url, i) && forall j: nat :: j < i ==> !SchemeEndsAt(url, j)
    ensures SchemeEnd(url, 0) == i
  {
    var f := SchemeEnd(url, 0);
  }

  lemma EndIsSign(url: string)
    ensures SchemeEnd(url, 0) < |url| ==> SignAt(url, SchemeEnd(url, 0))
    ensures forall j: nat :: j < SchemeEnd(url, 0) ==> !SignAt(url, j)
  {
    forall j: nat | j < SchemeEnd(url, 0)
      ensures !SignAt(url, j)
    {
      assert !SchemeEndsAt(url, j);
    }
  }

  lemma HostFound(scheme: string, skipped: char, host: string, rest: string)
    requires SchemeOk(scheme) && ':' !in host && '/' !in host && (rest != "" ==> rest[0] in {':', '/'})
    ensures var url := Start(scheme, skipped) + host + rest; var i := |scheme|; var j := i + 3 + |host|;
      && SchemeEnd(url, 0) == i && First(url, i + 3, {':', '/'}) == j && j <= |url|
      && url[..i] == scheme && url[i + 3..j] == host && url[j..] == rest
  {
    hide First, SchemeEnd;
    var url := Start(scheme, skipped) + host + rest;
    assert scheme + ":/" <= url;
    SchemeFound(url, scheme);
    FirstAfter(Start(scheme, skipped), host, rest, {':', '/'});
    Middle(Start(scheme, skipped), host, rest);
    assert url[..|scheme|] == scheme;
  }

  lemma StubSplits(scheme: string)
    requires SchemeOk(scheme)
    ensures Split(scheme + ":/") == NoRoom
  {
    SchemeFound(scheme + ":/", scheme);
  }

  lemma UnsignedSplits(text: string)
    requires forall i: nat :: !SignAt(text, i)
    ensures Split(text) == NoScheme
  {
    hide SignAt;
    EndIsSign(text);
  }

  lemma HostOnlySplits(scheme: string, skipped: char, host: string)
    requires ShapeOk(HostOnly(scheme, skipped, host))
    ensures Split(Start(scheme, skipped) + host) == NoHost(scheme)
  {
    hide First, SchemeEnd;
    HostFound(scheme, skipped, host, "");
    assert Start(scheme, skipped) + host + "" == Start(scheme, skipped) + host;
  }

  lemma UnendedSplits(scheme: string, skipped: char, host: string, rest: string)
    requires ShapeOk(Unended(scheme, skipped, host, rest))
    ensures Split(Start(scheme, skipped) + host + (":" + rest)) == Parts.NoPath(scheme, host)
  {
    hide First, SchemeEnd;
    var before := Start(scheme, skipped) + host;
    HostFound(scheme, skipped, host, ":" + rest);
    PortFound(before, rest, "");
    assert ":" + rest + "" == ":" + rest;
  }

  lemma PortFound(before: string, text: string, tail: string)
    requires '/' !in text && (tail != "" ==> tail[0] == '/')
    ensures var url := before + (":" + text + tail); var j := |before|; var k := j + 1 + |text|;
      k <= |url| && url[j] == ':' && url[j + 1..k] == text && First(url, j + 1, {'/'}) == k && url[k..] == tail
  {
    hide First;
    var url := before + (":" + text + tail);
    assert url == (before + ":") + text + tail;
    FirstAfter(before + ":", text, tail, {'/'});
    Middle(before + ":", text, tail);
  }

  lemma PortlessSplits(scheme: string, skipped: char, host: string, tail: string)
    requires SchemeOk(scheme) && ':' !in host && '/' !in host && tail != "" && tail[0] == '/'
    ensures var start := Start(scheme, skipped) + host; Split(start + tail) == Complete(scheme, host, None, |start|)
  {
    hide First, SchemeEnd, Split, Start;
    var before := Start(scheme, skipped) + host;
    StartLength(scheme, skipped);
    HostFound(scheme, skipped, host, tail);
    assert (before + tail)[|before|] == tail[0];
    SplitWithoutPort(before + tail, |scheme|, |before|);
  }

  lemma PortSplits(scheme: string, skipped: char, host: string, port: string, tail: string)
    requires SchemeOk(scheme) && ':' !in host && '/' !in host && '/' !in port && tail != "" && tail[0] == '/'
    ensures var start := Start(scheme, skipped) + host;
      Split(start + (":" + port + tail)) == Complete(scheme, host, Some(port), |start| + 1 + |port|)
  {
    hide First, SchemeEnd, Split, Start, SchemeOk;
    var before := Start(scheme, skipped) + host;
    var after := ":" + port + tail;
    StartLength(scheme, skipped);
    HostFound(scheme, skipped, host, after);
    PortFound(before, port, tail);
    SplitWithPort(before + after, |scheme|, |before|, |before| + 1 + |port|);
  }

  lemma WholeSplits(scheme: string, skipped: char, host: string, port: Option<string>, tail: string)
    requires ShapeOk(Whole(scheme, skipped, host, port, tail))
    ensures var url := Print(Whole(scheme, skipped, host, port, tail)); var parts := Split(url);
      && parts.Complete? && parts.scheme == scheme && parts.host == host && parts.port == port
      && parts.path <= |url| && url[parts.path..] == tail
  {
    hide Split, Start, SchemeOk;
    if port == None {
      PortlessSplits(scheme, skipped, host, tail);
    } else {
      PortSplits(scheme, skipped, host, port.value, tail);
    }
  }

  lemma StartLength(scheme: string, skipped: char)
    ensures |Start(scheme, skipped)| == |scheme| + 3
  {
  }

  /** Parsing a printed shape gives what the shape means. */
  lemma ParsesShape(shape: Shape)
    requires ShapeOk(shape)
    ensures BasicReference(Print(shape)) == Meaning(shape)
  {
    hide Split, Stoi, Start, SchemeOk;
    match shape
    case Unsigned(text) => UnsignedSplits(text);
    case Stub(scheme) => StubSplits(scheme);
    case HostOnly(scheme, skipped, host) => HostOnlySplits(scheme, skipped, host);
    case Unended(scheme, skipped, host, rest) => UnendedSplits(scheme, skipped, host, rest);
    case Whole(scheme, skipped, host, port, tail) => WholeSplits(scheme, skipped, host, port, tail);
  }

  // ---------- every string has a shape ----------

  lemma CutAtSign(url: string, i: nat)
    requires SignAt(url, i) && forall j: nat :: j < i ==> !SignAt(url, j)
    ensures SchemeOk(url[..i]) && url[..i + 2] == url[..i] + ":/"
  {
    var start := url[..i] + ":/";
    assert start == url[..i + 2];
    forall j: nat | j < i
      ensures !SignAt(start, j)
    {
      assert !SignAt(url, j);
      assert start[j] == url[j] && start[j + 1] == url[j + 1];
    }
  }

  lemma CutAfterStart(url: string, i: nat)
    requires i + 3 <= |url| && url[..i + 2] == url[..i] + ":/"
    ensures url == Start(url[..i], url[i + 2]) + url[i + 3..]
  {
    assert url[..i + 3] == url[..i + 2] + [url[i + 2]];
    assert url[..i] + ":/" + [url[i + 2]] == Start(url[..i], url[i + 2]);
    assert url == url[..i + 3] + url[i + 3..];
  }

  /** Cutting at the first stop, which begins what is left. */
  lemma CutAtStop(text: string, stops: set<char>) returns (before: string, after: string)
    ensures text == before + after && (after != "" ==> after[0] in stops)
    ensures forall c :: c in before ==> c !in stops
  {
    var i := First(text, 0, stops);
    before, after := text[..i], text[i..];
  }

  /** Every string has a shape. */
  lemma HasShape(url: string) returns (shape: Shape)
    ensures ShapeOk(shape) && Print(shape) == url
  {
    hide SchemeEnd, SchemeOk, SignAt, Start;
    var i := SchemeEnd(url, 0);
    EndIsSign(url);
    if i == |url| {
      NoSign(url);
      return Unsigned(url);
    }
    SignInside(url, i);
    CutAtSign(url, i);
    if i + 2 == |url| {
      assert url[..i + 2] == url;
      return Stub(url[..i]);
    }
    CutAfterStart(url, i);
    shape := ShapeOfRest(url[..i], url[i + 2], url[i + 3..]);
  }

  lemma SignInside(url: string, i: nat)
    requires SignAt(url, i)
    ensures i + 2 <= |url|
  {
  }

  lemma NoSign(url: string)
    requires forall j: nat :: j < |url| ==> !SignAt(url, j)
    ensures ShapeOk(Unsigned(url))
  {
  }

  lemma ShapeOfRest(scheme: string, skipped: char, text: string) returns (shape: Shape)
    requires SchemeOk(scheme)
    ensures ShapeOk(shape) && Print(shape) == Start(scheme, skipped) + text
  {
    hide SchemeOk, Start;
    var start := Start(scheme, skipped);
    var host, after := CutAtStop(text, {':', '/'});
    assert start + text == start + host + after;
    if after == "" {
      assert start + host + after == start + host;
      return HostOnly(scheme, skipped, host);
    } else if after[0] == '/' {
      return Whole(scheme, skipped, host, None, after);
    }
    var port, tail := CutAtStop(after[1..], {'/'});
    assert after == ":" + port + tail;
    if tail == "" {
      assert ":" + port + tail == ":" + port;
      return Unended(scheme, skipped, host, port);
    }
    return Whole(scheme, skipped, host, Some(port), tail);
  }

  // ---------- when the parsers throw ----------

  /** The URL is the print of a whole shape with this port text. */
  ghost predicate PortTextOf(url: string, text: string) {
    exists scheme, skipped, host, tail ::
      var shape := Whole(scheme, skipped, host, Some(text), tail); ShapeOk(shape) && Print(shape) == url
  }

  /** Both parsers throw invalid_argument exactly when the URL has a port text without a number, and out_of_range
      exactly when it has one whose number no int can hold. */
  lemma ThrowsExactly(url: string)
    ensures BasicReference(url) == BadPort(InvalidArgument) <==>
      exists text :: PortTextOf(url, text) && !HasNumber(text)
    ensures BasicReference(url) == BadPort(OutOfRange) <==>
      exists text :: PortTextOf(url, text) && TooLarge(text)
    ensures forall error :: BasicReference(url) == BadPort(error) <==> QueryReference(url) == BadPort(error)
  {
    hide Stoi, Print, ShapeOk, BasicReference, QueryReference, HasNumber, TooLarge;
    MachinesAgree(url);
    var shape := HasShape(url);
    ParsesShape(shape);
    if shape.Whole? && shape.port.Some? {
      PortThrows(shape.port.value);
      assert PortTextOf(url, shape.port.value);
    }
    forall text | PortTextOf(url, text)
      ensures match Stoi(text)
        case Value(_) => BasicReference(url).Parsed?
        case error => BasicReference(url) == BadPort(error)
    {
      var scheme, skipped, host, tail :|
        var whole := Whole(scheme, skipped, host, Some(text), tail); ShapeOk(whole) && Print(whole) == url;
      ParsesShape(Whole(scheme, skipped, host, Some(text), tail));
    }
    forall text
      ensures (Stoi(text) == InvalidArgument <==> !HasNumber(text)) && (Stoi(text) == OutOfRange <==> TooLarge(text))
    {
      PortThrows(text);
    }
  }

  ghost predicate TooLarge(text: string) {
    exists spaces, sign, digits, rest ::
      Reads(text, spaces, sign, digits, rest) && PlaceValue(digits) > Largest(sign)
  }

  // The largest absolute value an int can hold with this sign.
  function Largest(sign: string): nat {
    if sign == "-" then 2147483648 else 2147483647
  }

  lemma PortThrows(text: string)
    ensures Stoi(text) == InvalidArgument <==> !HasNumber(text)
    ensures Stoi(text) == OutOfRange <==> TooLarge(text)
  {
    hide Stoi, PlaceValue;
    StoiThrowsExactly(text);
    if Stoi(text) == OutOfRange {
      var spaces, sign, digits, rest :| Reads(text, spaces, sign, digits, rest);
      StoiOfNumber(text, spaces, sign, digits, rest);
    } else if spaces, sign, digits, rest :|
        Reads(text, spaces, sign, digits, rest) && PlaceValue(digits) > Largest(sign) {
      StoiOfNumber(text, spaces, sign, digits, rest);
    }
  }
}
