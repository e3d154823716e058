/** The parameter loop on every text: each text is a list of items between '&', and what the loop makes of it is
    told item by item. */
module UrlItems {
  import opened UrlParameters
  import opened UrlProperties

  /** What stands between two '&': a key, '=' and a value, or a text without '='. */
  datatype Item = With(key: string, value: string) | Without(text: string)

  predicate ItemOk(item: Item) {
    match item
    case With(key, value) => '=' !in key && '&' !in key && '&' !in value
    case Without(text) => '=' !in text && '&' !in text
  }

  function ItemText(item: Item): string {
    match item
    case With(key, value) => key + "=" + value
    case Without(text) => text
  }

  function JoinItems(items: seq<Item>): string
    requires items != []
  {
    if |items| == 1 then ItemText(items[0]) else ItemText(items[0]) + "&" + JoinItems(items[1..])
  }

  /** The key of an item without '=' goes on, past '&', up to the next '=' or to the end of the text. */
  function KeyFrom(items: seq<Item>): string
    requires items != []
  {
    match items[0]
    case With(key, _) => key
    case Without(text) => if |items| == 1 then text else text + "&" + KeyFrom(items[1..])
  }

  /** One '?' in front of a key is dropped. */
  function Strip(key: string): string {
    if key != "" && key[0] == '?' then key[1..] else key
  }

  /** Every item sets its key, later ones winning, except that nothing after the last '&' sets nothing. */
  function Meaning(items: seq<Item>, found: map<string, string>): map<string, string> {
    if items == [] || items == [Without("")] then found
    else
      var value := match items[0] case With(_, value) => value case Without(_) => "[EMPYTY-PARAMTER]";
      Meaning(items[1..], found[Strip(KeyFrom(items)) := value])
  }

  ghost predicate ItemsOk(items: seq<Item>) {
    items != [] && forall i :: 0 <= i < |items| ==> ItemOk(items[i])
  }

  // ---------- where the loop cuts ----------

  lemma {:induction false} KeyLeads(items: seq<Item>) returns (after: string)
    requires ItemsOk(items)
    ensures JoinItems(items) == KeyFrom(items) + after && '=' !in KeyFrom(items)
    ensures after != "" ==> after[0] == '='
    ensures items[0].With? ==> after != "" && items[0].value <= after[1..]
    ensures items[0].With? ==> |KeyFrom(items)| + 1 + |items[0].value| == |ItemText(items[0])|
    ensures items[0].Without? ==> |KeyFrom(items)| >= |items[0].text|
  {
    assert ItemOk(items[0]);
    match items[0]
    case With(key, value) =>
      var rest := if |items| == 1 then "" else "&" + JoinItems(items[1..]);
      after := "=" + value + rest;
      assert JoinItems(items) == key + "=" + value + rest;
      Regroup(key, value, rest);
    case Without(text) =>
      if |items| == 1 {
        after := "";
      } else {
        after := KeyLeads(items[1..]);
        assert JoinItems(items) == text + "&" + KeyFrom(items[1..]) + after;
      }
  }

  lemma Regroup(key: string, value: string, rest: string)
    ensures key + "=" + value + rest == key + ("=" + value + rest) && ("=" + value + rest)[1..] == value + rest
  {
  }

  lemma ItemLeads(items: seq<Item>) returns (after: string)
    requires ItemsOk(items)
    ensures JoinItems(items) == ItemText(items[0]) + after && '&' !in ItemText(items[0])
    ensures |items| == 1 ==> after == ""
    ensures |items| > 1 ==> after == "&" + JoinItems(items[1..])
  {
    assert ItemOk(items[0]);
    after := if |items| == 1 then "" else "&" + JoinItems(items[1..]);
  }

  lemma FirstAfterStart(start: string, after: string, stop: char)
    requires stop !in start && (after != "" ==> after[0] == stop)
    ensures First(start + after, 0, {stop}) == |start|
  {
    hide First;
    assert "" + start + after == start + after;
    FirstAfter("", start, after, {stop});
  }

  // Skipping one '?' does not change where the loop finds '=' and '&'.
  lemma FirstFromNext(s: string, from: nat, stop: char)
    requires from < |s| && s[from] != stop
    ensures First(s, from, {stop}) == First(s, from + 1, {stop})
  {
  }

  lemma CutsFound(text: string, ops: nat, items: seq<Item>) returns (after: string)
    requires ItemsOk(items) && ops < |text| && text[ops..] == JoinItems(items)
    ensures var at := if text[ops] == '?' then ops + 1 else ops;
      && First(text, at, {'='}) == ops + |KeyFrom(items)| && First(text, at, {'&'}) == ops + |ItemText(items[0])|
    ensures text[ops..] == KeyFrom(items) + after && (after != "" ==> after[0] == '=')
    ensures items[0].With? ==> after != "" && items[0].value <= after[1..]
    ensures items[0].With? ==> |KeyFrom(items)| + 1 + |items[0].value| == |ItemText(items[0])|
    ensures items[0].Without? ==> |KeyFrom(items)| >= |ItemText(items[0])|
  {
    hide First, KeyFrom, JoinItems;
    after := KeyLeads(items);
    var rest := ItemLeads(items);
    FirstAfterStart(KeyFrom(items), after, '=');
    FirstAfterStart(ItemText(items[0]), rest, '&');
    FirstShift(text, ops, {'='});
    FirstShift(text, ops, {'&'});
    if text[ops] == '?' {
      FirstFromNext(text, ops, '=');
      FirstFromNext(text, ops, '&');
    }
  }

  /** One turn of the loop sets what the first item says. */
  lemma TurnSetsItem(text: string, ops: nat, items: seq<Item>, found: map<string, string>)
    requires ItemsOk(items) && ops < |text| && text[ops..] == JoinItems(items)
    ensures var value := match items[0] case With(_, value) => value case Without(_) => "[EMPYTY-PARAMTER]";
      Turn(text, ops, found) == (found[Strip(KeyFrom(items)) := value], ops + |ItemText(items[0])| + 1)
  {
    hide First, KeyFrom, JoinItems, ItemText;
    var after := CutsFound(text, ops, items);
    var key := KeyFrom(items);
    var eq := ops + |key|;
    KeyInText(text, ops, key, after);
    if items[0].With? {
      ValueInText(text, ops, key, after, items[0].value);
    }
  }

  lemma KeyInText(text: string, ops: nat, key: string, after: string)
    requires ops < |text| && text[ops..] == key + after && (after != "" ==> after[0] == '=')
    ensures var at := if text[ops] == '?' then ops + 1 else ops;
      at <= ops + |key| <= |text| && text[at..ops + |key|] == Strip(key)
  {
    assert text[ops] == text[ops..][0];
    assert text[ops..ops + |key|] == text[ops..][..|key|] == key;
  }

  lemma ValueInText(text: string, ops: nat, key: string, after: string, value: string)
    requires ops < |text| && text[ops..] == key + after && after != "" && value <= after[1..]
    ensures var from := ops + |key| + 1; from + |value| <= |text| && text[from..from + |value|] == value
  {
    var from := ops + |key| + 1;
    assert text[from..] == text[ops..][|key| + 1..] == after[1..];
    assert text[from..from + |value|] == text[from..][..|value|];
  }

  lemma {:induction false} ParsesItems(text: string, ops: nat, items: seq<Item>, found: map<string, string>)
    requires ItemsOk(items) && ops <= |text| && text[ops..] == JoinItems(items)
    ensures ParametersFrom(text, ops, found) == Meaning(items, found)
    decreases |items|
  {
    hide Turn, KeyFrom, JoinItems;
    var rest := ItemLeads(items);
    if ops == |text| {
      EmptyItem(items);
      PastTheEnd(text, ops, found);
    } else {
      NotEmptyItem(items);
      OneTurn(text, ops, found);
      TurnSetsItem(text, ops, items, found);
      var value := match items[0] case With(_, value) => value case Without(_) => "[EMPYTY-PARAMTER]";
      var more := found[Strip(KeyFrom(items)) := value];
      var next := ops + |ItemText(items[0])| + 1;
      if |items| == 1 {
        PastTheEnd(text, next, more);
      } else {
        assert text[next..] == text[ops..][|ItemText(items[0])| + 1..];
        ParsesItems(text, next, items[1..], more);
      }
    }
  }

  lemma EmptyItem(items: seq<Item>)
    requires items != [] && JoinItems(items) == ""
    ensures items == [Without("")]
  {
  }

  lemma NotEmptyItem(items: seq<Item>)
    requires items != [] && JoinItems(items) != ""
    ensures items != [Without("")]
  {
  }

  /** Every text is a list of items. */
  lemma {:induction false} HasItems(text: string) returns (items: seq<Item>)
    ensures ItemsOk(items) && JoinItems(items) == text
    decreases |text|
  {
    hide First;
    var amp := First(text, 0, {'&'});
    var first := ItemOf(text[..amp]);
    if amp == |text| {
      assert text[..amp] == text;
      items := [first];
    } else {
      var rest := HasItems(text[amp + 1..]);
      items := [first] + rest;
      assert items[1..] == rest;
      assert text == text[..amp] + "&" + text[amp + 1..];
    }
  }

  lemma ItemOf(text: string) returns (item: Item)
    requires '&' !in text
    ensures ItemOk(item) && ItemText(item) == text
  {
    hide First;
    var eq := First(text, 0, {'='});
    if eq == |text| {
      item := Without(text);
    } else {
      item := With(text[..eq], text[eq + 1..]);
      assert text == text[..eq] + "=" + text[eq + 1..];
    }
  }

  /** The parameter loop on every text: some list of items makes up the text, and every list that does gives the
      map the loop returns. */
  lemma ParsesEveryText(text: string)
    ensures exists items :: ItemsOk(items) && JoinItems(items) == text
    ensures forall items :: ItemsOk(items) && JoinItems(items) == text
              ==> ParametersFrom(text, 0, map[]) == Meaning(items, map[])
  {
    hide ParametersFrom, JoinItems;
    var some := HasItems(text);
    forall items | ItemsOk(items) && JoinItems(items) == text
      ensures ParametersFrom(text, 0, map[]) == Meaning(items, map[])
    {
      assert text[0..] == text;
      ParsesItems(text, 0, items, map[]);
    }
  }
}
