/** std::stoi, as the URL parsers use it on the port text. */
module UrlPort {
  /** stoi gives a value, or throws invalid_argument or out_of_range. */
  datatype Number = Value(n: int) | InvalidArgument | OutOfRange

  predicate IsSpace(c: char) {
    c == ' ' || c == '\t' || c == '\n' || c == '\r' || c == '\U{0B}' || c == '\U{0C}'
  }

  predicate IsDigit(c: char) {
    '0' <= c <= '9'
  }

  function SkipSpaces(s: string): string {
    if s != "" && IsSpace(s[0]) then SkipSpaces(s[1..]) else s
  }

  /** The value of the leading digits after `seen`; what follows them is ignored. */
  function Digits(s: string, seen: nat): nat {
    if s != "" && IsDigit(s[0]) then Digits(s[1..], 10 * seen + (s[0] as int - '0' as int)) else seen
  }

  /** Leading white space, an optional sign, at least one digit, and a value that fits an int. */
  function Stoi(text: string): Number {
    var s := SkipSpaces(text);
    var unsigned := if s != "" && (s[0] == '-' || s[0] == '+') then s[1..] else s;
    if unsigned == "" || !IsDigit(unsigned[0]) then InvalidArgument
    else
      var digits: int := Digits(unsigned, 0);
      var n := if s[0] == '-' then -digits else digits;
      if -0x8000_0000 <= n < 0x8000_0000 then Value(n) else OutOfRange
  }

  /** The conversion of that int to uint16_t. */
  function ToPort(n: int): nat {
    n % 65536
  }

  function Decimal(n: nat): string {
    if n < 10 then [Digit(n)] else Decimal(n / 10) + [Digit(n % 10)]
  }

  function Digit(n: nat): (c: char)
    requires n < 10
    ensures IsDigit(c) && c as int - '0' as int == n
  {
    '0' + (n as char)
  }

  lemma {:induction false} DigitsDecimal(n: nat, rest: string)
    ensures Digits(Decimal(n) + rest, 0) == Digits(rest, n)
    ensures Decimal(n) != "" && forall c :: c in Decimal(n) ==> IsDigit(c)
    decreases n
  {
    if n < 10 {
      assert ([Digit(n)] + rest)[1..] == rest;
    } else {
      var last := [Digit(n % 10)];
      assert Decimal(n) + rest == Decimal(n / 10) + (last + rest);
      DigitsDecimal(n / 10, last + rest);
      assert (last + rest)[1..] == rest;
    }
  }

  /** Printing a port in decimal and reading it back is the identity. */
  lemma PortRoundTrip(port: nat)
    requires port < 65536
    ensures Stoi(Decimal(port)) == Value(port) && ToPort(port) == port
  {
    DigitsDecimal(port, "");
    assert Decimal(port) + "" == Decimal(port);
    assert IsDigit(Decimal(port)[0]);
  }

  // ---------- std::stoi on arbitrary text ----------

  /** text is white space, at most one sign, at least one digit, and then whatever does not go on with a digit. */
  predicate Reads(text: string, spaces: string, sign: string, digits: string, rest: string) {
    && text == spaces + sign + digits + rest
    && (forall c :: c in spaces ==> IsSpace(c)) && (sign == "" || sign == "+" || sign == "-")
    && digits != "" && (forall c :: c in digits ==> IsDigit(c)) && (rest != "" ==> !IsDigit(rest[0]))
  }

  ghost predicate HasNumber(text: string) {
    exists spaces, sign, digits, rest :: Reads(text, spaces, sign, digits, rest)
  }

  function Power(n: nat): nat {
    if n == 0 then 1 else 10 * Power(n - 1)
  }

  /** The place value of decimal digits. */
  function PlaceValue(digits: string): nat
    requires forall c :: c in digits ==> IsDigit(c)
  {
    if digits == "" then 0
    else
      assert IsDigit(digits[0]);
      var d: nat := digits[0] as int - '0' as int;
      d * Power(|digits| - 1) + PlaceValue(digits[1..])
  }

  lemma SkipsSpaces(spaces: string, s: string)
    requires (forall c :: c in spaces ==> IsSpace(c)) && (s != "" ==> !IsSpace(s[0]))
    ensures SkipSpaces(spaces + s) == s
  {
    if spaces == "" {
      assert spaces + s == s;
    } else {
      assert (spaces + s)[1..] == spaces[1..] + s;
      SkipsSpaces(spaces[1..], s);
    }
  }

  lemma {:induction false} DigitsOfNumber(digits: string, rest: string, seen: nat)
    requires (forall c :: c in digits ==> IsDigit(c)) && (rest != "" ==> !IsDigit(rest[0]))
    ensures Digits(digits + rest, seen) == seen * Power(|digits|) + PlaceValue(digits)
  {
    if digits == "" {
      assert digits + rest == rest;
    } else {
      assert IsDigit(digits[0]);
      var d: nat := digits[0] as int - '0' as int;
      assert (digits + rest)[1..] == digits[1..] + rest;
      DigitsOfNumber(digits[1..], rest, 10 * seen + d);
      Distribute(seen, d, Power(|digits| - 1));
    }
  }

  lemma Distribute(seen: nat, d: nat, power: nat)
    ensures (10 * seen + d) * power == seen * (10 * power) + d * power
  {
  }

  /** The number that is there is the number stoi gives, when an int can hold it. */
  lemma StoiOfNumber(text: string, spaces: string, sign: string, digits: string, rest: string)
    requires Reads(text, spaces, sign, digits, rest)
    ensures var value: int := PlaceValue(digits); var n := if sign == "-" then -value else value;
      Stoi(text) == if -2147483648 <= n <= 2147483647 then Value(n) else OutOfRange
  {
    hide Digits, SkipSpaces, PlaceValue;
    var s := sign + digits + rest;
    assert text == spaces + s;
    assert digits[0] in digits;
    SkipsSpaces(spaces, s);
    assert (if sign == "" then s else s[1..]) == digits + rest;
    DigitsOfNumber(digits, rest, 0);
  }

  lemma SpacesSkipped(text: string) returns (spaces: string)
    ensures text == spaces + SkipSpaces(text) && forall c :: c in spaces ==> IsSpace(c)
  {
    if text != "" && IsSpace(text[0]) {
      spaces := SpacesSkipped(text[1..]);
      spaces := [text[0]] + spaces;
    } else {
      spaces := "";
    }
  }

  lemma LeadingDigits(s: string) returns (digits: string, rest: string)
    ensures s == digits + rest && (forall c :: c in digits ==> IsDigit(c)) && (rest != "" ==> !IsDigit(rest[0]))
    ensures s != "" && IsDigit(s[0]) ==> digits != ""
  {
    if s != "" && IsDigit(s[0]) {
      digits, rest := LeadingDigits(s[1..]);
      digits := [s[0]] + digits;
    } else {
      digits, rest := "", s;
    }
  }

  /** stoi throws invalid_argument exactly when the text has no number. */
  lemma StoiThrowsExactly(text: string)
    ensures Stoi(text) == InvalidArgument <==> !HasNumber(text)
  {
    if Stoi(text) == InvalidArgument {
      forall spaces, sign, digits, rest | Reads(text, spaces, sign, digits, rest)
        ensures false
      {
        StoiOfNumber(text, spaces, sign, digits, rest);
      }
    } else {
      var spaces := SpacesSkipped(text);
      var s := SkipSpaces(text);
      var sign := if s[0] == '-' || s[0] == '+' then [s[0]] else "";
      var digits, rest := LeadingDigits(s[|sign|..]);
      assert s == sign + s[|sign|..];
      assert text == spaces + sign + digits + rest;
      assert Reads(text, spaces, sign, digits, rest);
    }
  }

  /** The port is what uint16_t keeps of the number. */
  lemma ToPortIsCongruent(n: int)
    ensures 0 <= ToPort(n) < 65536 && exists k: int :: n == ToPort(n) + 65536 * k
  {
    assert n == ToPort(n) + 65536 * (n / 65536);
  }
}
