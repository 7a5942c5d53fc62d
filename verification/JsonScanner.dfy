/** Finding the end of a JSON object inside a larger text by counting braces. */
module JsonScanner {
  import opened Text

  // ---------------------------------------------------------------------
  // The scanner

  datatype Outcome = Closed(at: nat) | Unclosed | Negative

  /** The scanner from position `i` on, in one of its states. */
  function Scan(text: string, i: nat, depth: int, inString: bool, escaped: bool): Outcome
    requires i <= |text|
    decreases |text| - i
  {
    if i == |text| then Unclosed
    else if inString then
      if escaped then Scan(text, i + 1, depth, true, false)
      else if text[i] == '\\' then Scan(text, i + 1, depth, true, true)
      else Scan(text, i + 1, depth, text[i] != '"', false)
    else if text[i] == '"' then Scan(text, i + 1, depth, true, escaped)
    else if text[i] == '{' then Scan(text, i + 1, depth + 1, false, escaped)
    else if text[i] == '}' then
      if depth == 1 then Closed(i) else if depth < 1 then Negative else Scan(text, i + 1, depth - 1, false, escaped)
    else Scan(text, i + 1, depth, false, escaped)
  }

  function IndexOf(outcome: Outcome): int {
    if outcome.Closed? then outcome.at else -1
  }

  method FindBalancedJsonObjectEnd(text: string, start: nat) returns (end: int)
    requires start <= |text|
    ensures end == IndexOf(Scan(text, start, 0, false, false))
  {
    var depth := 0;
    var inString, escaped := false, false;
    for i := start to |text|
      invariant Scan(text, start, 0, false, false) == Scan(text, i, depth, inString, escaped)
    {
      var c := text[i];
      if inString {
        if escaped {
          escaped := false;
        } else if c == '\\' {
          escaped := true;
        } else if c == '"' {
          inString := false;
        }
        continue;
      }
      if c == '"' {
        inString := true;
        continue;
      }
      if c == '{' {
        depth := depth + 1;
      } else if c == '}' {
        depth := depth - 1;
        if depth == 0 {
          return i;
        }
        if depth < 0 {
          return -1;
        }
      }
    }
    return -1;
  }

  // ---------------------------------------------------------------------
  // JSON texts, RFC 8259

  /** A character of a string: itself, an escaped one, or four hex digits. */
  datatype Item = Unescaped(c: char) | Escaped(c: char) | Unicode(hex: string)

  datatype Value =
    | Scalar(text: string)
    | Str(items: seq<Item>)
    | Array(space: string, elements: Elements)
    | Object(space: string, members: Members)

  /** The elements of an array, each with the whitespace around it. */
  datatype Elements = NoElement | Element(before: string, value: Value, after: string, rest: Elements)

  datatype Members =
    | NoMember
    | Member(before: string, key: seq<Item>, after: string, before2: string, value: Value, after2: string, rest: Members)

  predicate IsHex(c: char) {
    IsDigit(c) || 'a' <= c <= 'f' || 'A' <= c <= 'F'
  }

  predicate ValidItem(item: Item) {
    match item
    case Unescaped(c) => c >= ' ' && c != '"' && c != '\\'
    case Escaped(c) => c in "\"\\/bfnrt"
    case Unicode(hex) => |hex| == 4 && forall k :: 0 <= k < 4 ==> IsHex(hex[k])
  }

  predicate ValidItems(items: seq<Item>) {
    forall k :: 0 <= k < |items| ==> ValidItem(items[k])
  }

  predicate IsSpacing(s: string) {
    forall k :: 0 <= k < |s| ==> s[k] in " \t\n\r"
  }

  /** `true`, `false`, `null`, or characters that numbers are made of. */
  predicate ValidScalar(s: string) {
    s == "true" || s == "false" || s == "null" || (s != "" && forall k :: 0 <= k < |s| ==> IsDigit(s[k]) || s[k] in "+-.eE")
  }

  predicate Valid(v: Value) {
    match v
    case Scalar(text) => ValidScalar(text)
    case Str(items) => ValidItems(items)
    case Array(space, elements) => IsSpacing(space) && ValidElements(elements)
    case Object(space, members) => IsSpacing(space) && ValidMembers(members)
  }

  predicate ValidElements(e: Elements) {
    match e
    case NoElement => true
    case Element(before, value, after, rest) =>
      IsSpacing(before) && Valid(value) && IsSpacing(after) && ValidElements(rest)
  }

  predicate ValidMembers(m: Members) {
    match m
    case NoMember => true
    case Member(before, key, after, before2, value, after2, rest) =>
      IsSpacing(before) && ValidItems(key) && IsSpacing(after) && IsSpacing(before2) && Valid(value) &&
      IsSpacing(after2) && ValidMembers(rest)
  }

  function ItemText(item: Item): string {
    match item
    case Unescaped(c) => [c]
    case Escaped(c) => ['\\', c]
    case Unicode(hex) => "\\u" + hex
  }

  function ItemsText(items: seq<Item>): string {
    if items == [] then "" else ItemText(items[0]) + ItemsText(items[1..])
  }

  function StringText(items: seq<Item>): string {
    "\"" + (ItemsText(items) + "\"")
  }

  function TextOf(v: Value): string {
    match v
    case Scalar(text) => text
    case Str(items) => StringText(items)
    case Array(space, elements) => "[" + (space + (ElementsText(elements) + "]"))
    case Object(space, members) => "{" + (space + (MembersText(members) + "}"))
  }

  function ElementsText(e: Elements): string {
    match e
    case NoElement => ""
    case Element(before, value, after, rest) =>
      (before + (TextOf(value) + after)) + ((if rest.NoElement? then "" else ",") + ElementsText(rest))
  }

  function MembersText(m: Members): string {
    match m
    case NoMember => ""
    case Member(before, key, after, before2, value, after2, rest) =>
      ((before + (StringText(key) + after)) + (":" + (before2 + (TextOf(value) + after2)))) +
      ((if rest.NoMember? then "" else ",") + MembersText(rest))
  }

  // ---------------------------------------------------------------------
  // The scanner passes over values

  /** `f` stands at `i`. */
  predicate At(text: string, f: string, i: nat) {
    i + |f| <= |text| && text[i..i + |f|] == f
  }

  lemma {:induction false} AtParts(text: string, a: string, b: string, i: nat)
    requires At(text, a + b, i)
    ensures At(text, a, i) && At(text, b, i + |a|)
  {
    var ab := text[i..i + |a + b|];
    assert ab[..|a|] == a && ab[|a|..] == b;
    assert ab[..|a|] == text[i..i + |a|];
    assert ab[|a|..] == text[i + |a|..i + |a| + |b|];
  }

  lemma {:induction false} AtChar(text: string, f: string, i: nat, k: nat)
    requires At(text, f, i) && k < |f|
    ensures text[i + k] == f[k]
  {
    assert text[i..i + |f|][k] == f[k];
  }

  /** Outside a string, inside an object, the scanner goes from `i` to `j` with no
      change. */
  ghost predicate Passes(text: string, i: nat, j: nat) {
    i <= j <= |text| &&
    forall depth {:trigger Scan(text, i, depth, false, false)} :: depth >= 1 ==>
      Scan(text, i, depth, false, false) == Scan(text, j, depth, false, false)
  }

  lemma {:induction false} PassTwo(text: string, i: nat, j: nat, k: nat)
    requires Passes(text, i, j) && Passes(text, j, k)
    ensures Passes(text, i, k)
  {
    forall depth | depth >= 1 ensures Scan(text, i, depth, false, false) == Scan(text, k, depth, false, false) {
      assert Scan(text, i, depth, false, false) == Scan(text, j, depth, false, false);
    }
  }

  predicate Neutral(f: string) {
    forall k :: 0 <= k < |f| ==> f[k] != '"' && f[k] != '{' && f[k] != '}'
  }

  lemma {:induction false} PassNeutral(text: string, f: string, i: nat)
    requires At(text, f, i) && Neutral(f)
    ensures Passes(text, i, i + |f|)
    decreases |f|
  {
    if f != "" {
      AtChar(text, f, i, 0);
      assert f == [f[0]] + f[1..];
      AtParts(text, [f[0]], f[1..], i);
      PassNeutral(text, f[1..], i + 1);
      assert Passes(text, i, i + 1);
      PassTwo(text, i, i + 1, i + |f|);
    }
  }

  /** Inside a string, an item leaves the scanner there. */
  lemma {:induction false} PassItem(text: string, item: Item, i: nat, depth: int)
    requires At(text, ItemText(item), i) && ValidItem(item)
    ensures Scan(text, i, depth, true, false) == Scan(text, i + |ItemText(item)|, depth, true, false)
  {
    var f := ItemText(item);
    AtChar(text, f, i, 0);
    match item
    case Unescaped(_) =>
    case Escaped(_) =>
      AtChar(text, f, i, 1);
      assert Scan(text, i, depth, true, false) == Scan(text, i + 1, depth, true, true);
    case Unicode(hex) =>
      AtParts(text, "\\u", hex, i);
      assert Scan(text, i, depth, true, false) == Scan(text, i + 1, depth, true, true);
      assert Scan(text, i + 1, depth, true, true) == Scan(text, i + 2, depth, true, false);
      PassHex(text, hex, i + 2, depth);
  }

  lemma {:induction false} PassHex(text: string, hex: string, i: nat, depth: int)
    requires At(text, hex, i) && forall k :: 0 <= k < |hex| ==> IsHex(hex[k])
    ensures Scan(text, i, depth, true, false) == Scan(text, i + |hex|, depth, true, false)
    decreases |hex|
  {
    if hex != "" {
      AtChar(text, hex, i, 0);
      assert hex == [hex[0]] + hex[1..] && IsHex(hex[0]);
      AtParts(text, [hex[0]], hex[1..], i);
      PassHex(text, hex[1..], i + 1, depth);
    }
  }

  lemma {:induction false} PassItems(text: string, items: seq<Item>, i: nat, depth: int)
    requires At(text, ItemsText(items), i) && ValidItems(items)
    ensures Scan(text, i, depth, true, false) == Scan(text, i + |ItemsText(items)|, depth, true, false)
  {
    if items != [] {
      var rest := ItemsText(items[1..]);
      AtParts(text, ItemText(items[0]), rest, i);
      PassItem(text, items[0], i, depth);
      PassItems(text, items[1..], i + |ItemText(items[0])|, depth);
    }
  }

  lemma {:induction false} PassStringAt(text: string, items: seq<Item>, i: nat, depth: int)
    requires At(text, StringText(items), i) && ValidItems(items)
    ensures Scan(text, i, depth, false, false) == Scan(text, i + |StringText(items)|, depth, false, false)
  {
    var inner := ItemsText(items);
    AtParts(text, "\"", inner + "\"", i);
    AtParts(text, inner, "\"", i + 1);
    AtChar(text, "\"", i, 0);
    AtChar(text, "\"", i + 1 + |inner|, 0);
    PassItems(text, items, i + 1, depth);
  }

  lemma {:induction false} PassString(text: string, items: seq<Item>, i: nat)
    requires At(text, StringText(items), i) && ValidItems(items)
    ensures Passes(text, i, i + |StringText(items)|)
  {
    forall depth | depth >= 1
      ensures Scan(text, i, depth, false, false) == Scan(text, i + |StringText(items)|, depth, false, false)
    {
      PassStringAt(text, items, i, depth);
    }
  }

  lemma {:induction false} SpacingIsNeutral(s: string)
    requires IsSpacing(s)
    ensures Neutral(s)
  {
  }

  lemma {:induction false} ScalarIsNeutral(s: string)
    requires ValidScalar(s)
    ensures Neutral(s)
  {
  }

  lemma {:induction false} PassSpacing(text: string, s: string, i: nat)
    requires At(text, s, i) && IsSpacing(s)
    ensures Passes(text, i, i + |s|)
  {
    SpacingIsNeutral(s);
    PassNeutral(text, s, i);
  }

  /** Two parts that are passed over, one after the other. */
  lemma {:induction false} PassBoth(text: string, a: string, b: string, i: nat)
    requires Passes(text, i, i + |a|) && Passes(text, i + |a|, i + |a| + |b|)
    ensures Passes(text, i, i + |a + b|)
  {
    PassTwo(text, i, i + |a|, i + |a| + |b|);
  }

  /** The same for a part with whitespace around it. */
  lemma {:induction false} PassSpaced(text: string, before: string, part: string, after: string, i: nat)
    requires At(text, before + (part + after), i) && IsSpacing(before) && IsSpacing(after)
    requires Passes(text, i + |before|, i + |before| + |part|)
    ensures Passes(text, i, i + |before + (part + after)|)
  {
    AtParts(text, before, part + after, i);
    AtParts(text, part, after, i + |before|);
    PassSpacing(text, before, i);
    PassSpacing(text, after, i + |before| + |part|);
    PassBoth(text, part, after, i + |before|);
    PassBoth(text, before, part + after, i);
  }

  /** Where the part of `before + (part + after)` stands. */
  lemma {:induction false} AtSpaced(text: string, before: string, part: string, after: string, i: nat)
    requires At(text, before + (part + after), i)
    ensures At(text, part, i + |before|)
  {
    AtParts(text, before, part + after, i);
    AtParts(text, part, after, i + |before|);
  }

  /** A value inside an object is passed over, whatever braces, quotes and escapes
      it has in its strings. */
  lemma {:induction false} PassValue(text: string, v: Value, i: nat)
    requires At(text, TextOf(v), i) && Valid(v)
    ensures Passes(text, i, i + |TextOf(v)|)
    decreases v, 0
  {
    match v
    case Scalar(s) =>
      ScalarIsNeutral(s);
      PassNeutral(text, s, i);
    case Str(items) =>
      PassString(text, items, i);
    case Array(space, elements) =>
      PassArray(text, space, elements, i);
    case Object(space, members) =>
      PassObject(text, space, members, i);
  }

  lemma {:induction false} PassArray(text: string, space: string, elements: Elements, i: nat)
    requires At(text, "[" + (space + (ElementsText(elements) + "]")), i)
    requires IsSpacing(space) && ValidElements(elements)
    ensures Passes(text, i, i + |"[" + (space + (ElementsText(elements) + "]"))|)
    decreases elements, 1
  {
    var inner := ElementsText(elements);
    AtParts(text, "[", space + (inner + "]"), i);
    AtParts(text, space, inner + "]", i + 1);
    AtParts(text, inner, "]", i + 1 + |space|);
    PassElements(text, elements, i + 1 + |space|);
    PassBracketed(text, space, inner, i);
  }

  lemma {:induction false} PassBracketed(text: string, space: string, inner: string, i: nat)
    requires At(text, "[", i) && At(text, space, i + 1) && IsSpacing(space)
    requires Passes(text, i + 1 + |space|, i + 1 + |space| + |inner|) && At(text, "]", i + 1 + |space| + |inner|)
    ensures Passes(text, i, i + |"[" + (space + (inner + "]"))|)
  {
    PassNeutral(text, "[", i);
    PassNeutral(text, "]", i + 1 + |space| + |inner|);
    PassSpacing(text, space, i + 1);
    PassBoth(text, inner, "]", i + 1 + |space|);
    PassBoth(text, space, inner + "]", i + 1);
    PassBoth(text, "[", space + (inner + "]"), i);
  }

  lemma {:induction false} PassElements(text: string, e: Elements, i: nat)
    requires At(text, ElementsText(e), i) && ValidElements(e)
    ensures Passes(text, i, i + |ElementsText(e)|)
    decreases e, 0
  {
    match e
    case NoElement =>
    case Element(before, value, after, rest) =>
      var own := before + (TextOf(value) + after);
      var mark, tail := if rest.NoElement? then "" else ",", ElementsText(rest);
      AtParts(text, own, mark + tail, i);
      AtParts(text, mark, tail, i + |own|);
      PassSpacedValue(text, before, value, after, i);
      PassElements(text, rest, i + |own| + |mark|);
      PassMarked(text, own, mark, tail, i);
  }

  /** A part, a comma if there is more, and the rest. */
  lemma {:induction false} PassMarked(text: string, own: string, mark: string, tail: string, i: nat)
    requires Passes(text, i, i + |own|) && At(text, mark, i + |own|) && mark in {"", ","}
    requires Passes(text, i + |own| + |mark|, i + |own| + |mark| + |tail|)
    ensures Passes(text, i, i + |own + (mark + tail)|)
  {
    PassNeutral(text, mark, i + |own|);
    PassBoth(text, mark, tail, i + |own|);
    PassBoth(text, own, mark + tail, i);
  }

  lemma {:induction false} PassMembers(text: string, m: Members, i: nat)
    requires At(text, MembersText(m), i) && ValidMembers(m)
    ensures Passes(text, i, i + |MembersText(m)|)
    decreases m, 0
  {
    match m
    case NoMember =>
    case Member(before, key, after, before2, value, after2, rest) =>
      var own := (before + (StringText(key) + after)) + (":" + (before2 + (TextOf(value) + after2)));
      var mark, tail := if rest.NoMember? then "" else ",", MembersText(rest);
      AtParts(text, own, mark + tail, i);
      AtParts(text, mark, tail, i + |own|);
      PassMember(text, before, key, after, before2, value, after2, i);
      PassMembers(text, rest, i + |own| + |mark|);
      PassMarked(text, own, mark, tail, i);
  }

  lemma {:induction false} PassMember(text: string, before: string, key: seq<Item>, after: string,
                                      before2: string, value: Value, after2: string, i: nat)
    requires At(text, (before + (StringText(key) + after)) + (":" + (before2 + (TextOf(value) + after2))), i)
    requires IsSpacing(before) && ValidItems(key) && IsSpacing(after)
    requires IsSpacing(before2) && Valid(value) && IsSpacing(after2)
    ensures Passes(text, i, i + |(before + (StringText(key) + after)) + (":" + (before2 + (TextOf(value) + after2)))|)
    decreases value, 2
  {
    var name, content := before + (StringText(key) + after), before2 + (TextOf(value) + after2);
    AtParts(text, name, ":" + content, i);
    AtParts(text, ":", content, i + |name|);
    PassSpacedValue(text, before2, value, after2, i + |name| + 1);
    PassKey(text, before, key, after, i);
    PassPair(text, name, content, i);
  }

  lemma {:induction false} PassSpacedValue(text: string, before: string, value: Value, after: string, i: nat)
    requires At(text, before + (TextOf(value) + after), i)
    requires IsSpacing(before) && Valid(value) && IsSpacing(after)
    ensures Passes(text, i, i + |before + (TextOf(value) + after)|)
    decreases value, 1
  {
    AtSpaced(text, before, TextOf(value), after, i);
    PassValue(text, value, i + |before|);
    PassSpaced(text, before, TextOf(value), after, i);
  }

  lemma {:induction false} PassKey(text: string, before: string, key: seq<Item>, after: string, i: nat)
    requires At(text, before + (StringText(key) + after), i)
    requires IsSpacing(before) && ValidItems(key) && IsSpacing(after)
    ensures Passes(text, i, i + |before + (StringText(key) + after)|)
  {
    AtSpaced(text, before, StringText(key), after, i);
    PassString(text, key, i + |before|);
    PassSpaced(text, before, StringText(key), after, i);
  }

  lemma {:induction false} PassPair(text: string, name: string, content: string, i: nat)
    requires Passes(text, i, i + |name|) && At(text, ":", i + |name|)
    requires Passes(text, i + |name| + 1, i + |name| + 1 + |content|)
    ensures Passes(text, i, i + |name + (":" + content)|)
  {
    PassNeutral(text, ":", i + |name|);
    PassBoth(text, ":", content, i + |name|);
    PassBoth(text, name, ":" + content, i);
  }

  lemma {:induction false} OpenStep(text: string, i: nat, depth: int)
    requires i < |text| && text[i] == '{'
    ensures Scan(text, i, depth, false, false) == Scan(text, i + 1, depth + 1, false, false)
  {
  }

  lemma {:induction false} CloseStep(text: string, i: nat, depth: int)
    requires i < |text| && text[i] == '}' && depth >= 1
    ensures Scan(text, i, depth + 1, false, false) == Scan(text, i + 1, depth, false, false)
  {
  }

  lemma {:induction false} BracesAt(text: string, space: string, inner: string, i: nat)
    requires At(text, "{" + (space + (inner + "}")), i)
    ensures At(text, space, i + 1) && At(text, inner, i + 1 + |space|)
    ensures i + 1 + |space| + |inner| < |text| && text[i] == '{' && text[i + 1 + |space| + |inner|] == '}'
  {
    AtParts(text, "{", space + (inner + "}"), i);
    AtParts(text, space, inner + "}", i + 1);
    AtParts(text, inner, "}", i + 1 + |space|);
    AtChar(text, "{", i, 0);
    AtChar(text, "}", i + 1 + |space| + |inner|, 0);
  }

  lemma {:induction false} PassInside(text: string, space: string, members: Members, i: nat)
    requires At(text, "{" + (space + (MembersText(members) + "}")), i)
    requires IsSpacing(space) && ValidMembers(members)
    ensures Passes(text, i + 1, i + 1 + |space| + |MembersText(members)|)
    decreases members, 1
  {
    BracesAt(text, space, MembersText(members), i);
    PassMembers(text, members, i + 1 + |space|);
    PassSpaceBefore(text, space, MembersText(members), i + 1);
  }

  lemma {:induction false} PassSpaceBefore(text: string, space: string, inner: string, i: nat)
    requires At(text, space, i) && IsSpacing(space) && Passes(text, i + |space|, i + |space| + |inner|)
    ensures Passes(text, i, i + |space| + |inner|)
  {
    PassSpacing(text, space, i);
    PassTwo(text, i, i + |space|, i + |space| + |inner|);
  }

  /** From an opening brace the scanner arrives at the closing one, one level up. */
  lemma {:induction false} BetweenBraces(text: string, space: string, inner: string, i: nat, depth: nat)
    requires At(text, "{" + (space + (inner + "}")), i) && Passes(text, i + 1, i + 1 + |space| + |inner|)
    ensures var close := i + 1 + |space| + |inner|;
            && close < |text| && text[close] == '}'
            && Scan(text, i, depth, false, false) == Scan(text, close, depth + 1, false, false)
  {
    BracesAt(text, space, inner, i);
    OpenStep(text, i, depth);
  }

  lemma {:induction false} PassBraced(text: string, space: string, inner: string, i: nat)
    requires At(text, "{" + (space + (inner + "}")), i) && Passes(text, i + 1, i + 1 + |space| + |inner|)
    ensures Passes(text, i, i + |"{" + (space + (inner + "}"))|)
  {
    var close := i + 1 + |space| + |inner|;
    forall depth | depth >= 1 ensures Scan(text, i, depth, false, false) == Scan(text, close + 1, depth, false, false) {
      BetweenBraces(text, space, inner, i, depth);
      CloseStep(text, close, depth);
    }
  }

  lemma {:induction false} PassObject(text: string, space: string, members: Members, i: nat)
    requires At(text, "{" + (space + (MembersText(members) + "}")), i)
    requires IsSpacing(space) && ValidMembers(members)
    ensures Passes(text, i, i + |"{" + (space + (MembersText(members) + "}"))|)
    decreases members, 2
  {
    PassInside(text, space, members, i);
    PassBraced(text, space, MembersText(members), i);
  }

  // ---------------------------------------------------------------------
  // The results

  /** Started at the brace of a JSON object, whatever precedes and follows it, the
      scanner returns the index of that object's own closing brace. */
  lemma {:induction false} ObjectEndIsFound(before: string, space: string, members: Members, after: string)
    requires Valid(Object(space, members))
    ensures var own := TextOf(Object(space, members));
            Scan(before + own + after, |before|, 0, false, false) == Closed(|before| + |own| - 1)
  {
    var own := TextOf(Object(space, members));
    var text := before + own + after;
    assert text[|before|..|before| + |own|] == own;
    PassInside(text, space, members, |before|);
    BetweenBraces(text, space, MembersText(members), |before|, 0);
  }

  /** From a brace, the scanner never sees more braces close than open. */
  lemma {:induction false} NeverNegative(text: string, i: nat, depth: int, inString: bool, escaped: bool)
    requires i <= |text| && (depth >= 1 || (depth == 0 && !inString && i < |text| && text[i] == '{'))
    ensures Scan(text, i, depth, inString, escaped) != Negative
    decreases |text| - i
  {
    if i < |text| {
      if inString {
        if escaped {
          NeverNegative(text, i + 1, depth, true, false);
        } else if text[i] == '\\' {
          NeverNegative(text, i + 1, depth, true, true);
        } else {
          NeverNegative(text, i + 1, depth, text[i] != '"', false);
        }
      } else if text[i] == '"' {
        NeverNegative(text, i + 1, depth, true, escaped);
      } else if text[i] == '{' {
        NeverNegative(text, i + 1, depth + 1, false, escaped);
      } else if text[i] != '}' {
        NeverNegative(text, i + 1, depth, false, escaped);
      } else if depth > 1 {
        NeverNegative(text, i + 1, depth - 1, false, escaped);
      }
    }
  }

  /** What the scanner closes at `e`, it does not close in a text cut before. */
  lemma {:induction false} CutIsUnclosed(text: string, n: nat, i: nat, depth: int, inString: bool, escaped: bool)
    requires i <= n <= |text|
    requires var outcome := Scan(text, i, depth, inString, escaped); outcome.Closed? && n <= outcome.at
    ensures Scan(text[..n], i, depth, inString, escaped) == Unclosed
    decreases n - i
  {
    if i < n {
      assert text[..n][i] == text[i];
      if inString {
        if escaped {
          CutIsUnclosed(text, n, i + 1, depth, true, false);
        } else if text[i] == '\\' {
          CutIsUnclosed(text, n, i + 1, depth, true, true);
        } else {
          CutIsUnclosed(text, n, i + 1, depth, text[i] != '"', false);
        }
      } else if text[i] == '"' {
        CutIsUnclosed(text, n, i + 1, depth, true, escaped);
      } else if text[i] == '{' {
        CutIsUnclosed(text, n, i + 1, depth + 1, false, escaped);
      } else if text[i] == '}' {
        CutIsUnclosed(text, n, i + 1, depth - 1, false, escaped);
      } else {
        CutIsUnclosed(text, n, i + 1, depth, false, escaped);
      }
    }
  }

  /** An object cut short anywhere has no end. */
  lemma {:induction false} TruncatedObjectHasNoEnd(space: string, members: Members, n: nat)
    requires Valid(Object(space, members)) && n < |TextOf(Object(space, members))|
    ensures IndexOf(Scan(TextOf(Object(space, members))[..n], 0, 0, false, false)) == -1
  {
    var own := TextOf(Object(space, members));
    ObjectEndIsFound("", space, members, "");
    assert "" + own + "" == own;
    CutIsUnclosed(own, n, 0, 0, false, false);
  }
}
