/** JSON values, their canonical form, and their text. */
module Json {
  import opened Base
  import opened Text
  import opened StableSort

  /** A number is kept as the text that a serializer gives it. */
  datatype Json = Null | Bool(b: bool) | Num(text: string) | Str(s: string) | Arr(items: Items) | Obj(fields: Fields)

  datatype Items = NoItem | Item(head: Json, rest: Items)

  /** The fields of an object, in the order of its keys. */
  datatype Fields = NoField | Field(key: string, value: Json, rest: Fields)

  function Lookup(f: Fields, key: string): Option<Json> {
    match f
    case NoField => None
    case Field(k, v, rest) => if k == key then Some(v) else Lookup(rest, key)
  }

  function Remove(f: Fields, key: string): Fields {
    match f
    case NoField => NoField
    case Field(k, v, rest) => if k == key then Remove(rest, key) else Field(k, v, Remove(rest, key))
  }

  predicate NumText(s: string) {
    s != "" && forall k :: 0 <= k < |s| ==> IsDigit(s[k]) || s[k] in "+-.eE"
  }

  /** No object has a key twice, and numbers look like numbers. */
  predicate Valid(j: Json) {
    match j
    case Num(text) => NumText(text)
    case Arr(items) => ValidItems(items)
    case Obj(fields) => ValidFields(fields)
    case _ => true
  }

  predicate ValidItems(items: Items) {
    match items
    case NoItem => true
    case Item(head, rest) => Valid(head) && ValidItems(rest)
  }

  predicate ValidFields(f: Fields) {
    match f
    case NoField => true
    case Field(k, v, rest) => Valid(v) && Lookup(rest, k).None? && ValidFields(rest)
  }

  // ---------------------------------------------------------------------
  // Equality up to key order

  predicate Same(a: Json, b: Json) {
    match a
    case Arr(items) => b.Arr? && SameItems(items, b.items)
    case Obj(fields) => b.Obj? && SameFields(fields, b.fields)
    case _ => a == b
  }

  predicate SameItems(a: Items, b: Items) {
    match a
    case NoItem => b.NoItem?
    case Item(head, rest) => b.Item? && Same(head, b.head) && SameItems(rest, b.rest)
  }

  /** The fields of `b` are those of `a`, in any order. */
  predicate SameFields(a: Fields, b: Fields) {
    match a
    case NoField => b.NoField?
    case Field(k, v, rest) => Lookup(b, k).Some? && Same(v, Lookup(b, k).value) && SameFields(rest, Remove(b, k))
  }

  // ---------------------------------------------------------------------
  // Sorting

  function InsertField(le: Order, key: string, value: Json, f: Fields): Fields {
    match f
    case NoField => Field(key, value, NoField)
    case Field(k, v, rest) =>
      if le(k, key) then Field(k, v, InsertField(le, key, value, rest)) else Field(key, value, f)
  }

  function SortForStableJson(le: Order, j: Json): Json {
    match j
    case Arr(items) => Arr(SortItems(le, items))
    case Obj(fields) => Obj(SortFields(le, fields))
    case _ => j
  }

  function SortItems(le: Order, items: Items): Items {
    match items
    case NoItem => NoItem
    case Item(head, rest) => Item(SortForStableJson(le, head), SortItems(le, rest))
  }

  function SortFields(le: Order, f: Fields): Fields {
    match f
    case NoField => NoField
    case Field(k, v, rest) => InsertField(le, k, SortForStableJson(le, v), SortFields(le, rest))
  }

  lemma {:induction false} InsertLookup(le: Order, key: string, value: Json, f: Fields, k: string)
    requires Lookup(f, key).None?
    ensures Lookup(InsertField(le, key, value, f), k) == if k == key then Some(value) else Lookup(f, k)
  {
    if f.Field? && le(f.key, key) {
      InsertLookup(le, key, value, f.rest, k);
    }
  }

  function SortedValue(le: Order, v: Option<Json>): Option<Json> {
    match v case None => None case Some(j) => Some(SortForStableJson(le, j))
  }

  lemma {:induction false} SortLookup(le: Order, f: Fields, k: string)
    requires ValidFields(f)
    ensures Lookup(SortFields(le, f), k) == SortedValue(le, Lookup(f, k))
  {
    if f.Field? {
      SortLookup(le, f.rest, k);
      SortLookup(le, f.rest, f.key);
      InsertLookup(le, f.key, SortForStableJson(le, f.value), SortFields(le, f.rest), k);
    }
  }

  lemma {:induction false} InsertsCommute(le: Order, k: string, v: Json, k': string, v': Json, f: Fields)
    requires TotalOrder(le) && k != k'
    ensures InsertField(le, k, v, InsertField(le, k', v', f)) == InsertField(le, k', v', InsertField(le, k, v, f))
  {
    if f.Field? && le(f.key, k) && le(f.key, k') {
      InsertsCommute(le, k, v, k', v', f.rest);
    }
  }

  lemma {:induction false} RemoveLookup(f: Fields, key: string, k: string)
    ensures Lookup(Remove(f, key), k) == if k == key then None else Lookup(f, k)
  {
    if f.Field? {
      RemoveLookup(f.rest, key, k);
    }
  }

  lemma {:induction false} RemoveAbsent(f: Fields, key: string)
    requires Lookup(f, key).None?
    ensures Remove(f, key) == f
  {
    if f.Field? {
      RemoveAbsent(f.rest, key);
    }
  }

  lemma {:induction false} RemoveKeepsValid(f: Fields, key: string)
    requires ValidFields(f)
    ensures ValidFields(Remove(f, key))
  {
    if f.Field? {
      RemoveKeepsValid(f.rest, key);
      RemoveLookup(f.rest, key, f.key);
    }
  }

  /** Sorting may take any field first. */
  lemma {:induction false} SortFromField(le: Order, f: Fields, key: string)
    requires TotalOrder(le) && ValidFields(f) && Lookup(f, key).Some?
    ensures SortFields(le, f) ==
            InsertField(le, key, SortForStableJson(le, Lookup(f, key).value), SortFields(le, Remove(f, key)))
  {
    if f.key == key {
      RemoveAbsent(f.rest, key);
    } else {
      SortFromField(le, f.rest, key);
      InsertsCommute(le, f.key, SortForStableJson(le, f.value), key,
                     SortForStableJson(le, Lookup(f, key).value), SortFields(le, Remove(f.rest, key)));
    }
  }

  lemma {:induction false} RemoveInserted(le: Order, key: string, value: Json, f: Fields)
    requires Lookup(f, key).None?
    ensures Remove(InsertField(le, key, value, f), key) == f
  {
    RemoveAbsent(f, key);
    if f.Field? && le(f.key, key) {
      RemoveInserted(le, key, value, f.rest);
    }
  }

  lemma {:induction false} ValidLookup(f: Fields, key: string)
    requires ValidFields(f) && Lookup(f, key).Some?
    ensures Valid(Lookup(f, key).value)
  {
    if f.key != key {
      ValidLookup(f.rest, key);
    }
  }

  /** Sorted forms are equal exactly when the values are, up to key order at every
      depth. */
  lemma {:induction false} SortedEqualExactly(le: Order, a: Json, b: Json)
    requires TotalOrder(le) && Valid(a) && Valid(b)
    ensures Same(a, b) <==> SortForStableJson(le, a) == SortForStableJson(le, b)
    decreases a, 1
  {
    if a.Arr? && b.Arr? {
      SortedItemsEqualExactly(le, a.items, b.items);
    } else if a.Obj? && b.Obj? {
      SortedFieldsEqualExactly(le, a.fields, b.fields);
    }
  }

  lemma {:induction false} SortedItemsEqualExactly(le: Order, a: Items, b: Items)
    requires TotalOrder(le) && ValidItems(a) && ValidItems(b)
    ensures SameItems(a, b) <==> SortItems(le, a) == SortItems(le, b)
    decreases a, 0
  {
    if a.Item? && b.Item? {
      SortedEqualExactly(le, a.head, b.head);
      SortedItemsEqualExactly(le, a.rest, b.rest);
    }
  }

  lemma {:induction false} SortIsEmpty(le: Order, f: Fields)
    ensures SortFields(le, f) == NoField <==> f == NoField
  {
  }

  lemma {:induction false} SortedFieldsEqualExactly(le: Order, a: Fields, b: Fields)
    requires TotalOrder(le) && ValidFields(a) && ValidFields(b)
    ensures SameFields(a, b) <==> SortFields(le, a) == SortFields(le, b)
    decreases a, 0
  {
    SortIsEmpty(le, a);
    SortIsEmpty(le, b);
    if a.Field? {
      var k := a.key;
      SortLookup(le, a, k);
      SortLookup(le, b, k);
      if Lookup(b, k).Some? {
        var w := Lookup(b, k).value;
        var rest := Remove(b, k);
        ValidLookup(b, k);
        SortedEqualExactly(le, a.value, w);
        RemoveKeepsValid(b, k);
        SortedFieldsEqualExactly(le, a.rest, rest);
        SortFromField(le, b, k);
        RemoveLookup(b, k, k);
        SortLookup(le, a.rest, k);
        SortLookup(le, rest, k);
        FirstInserted(le, k, SortForStableJson(le, a.value), SortFields(le, a.rest),
                      SortForStableJson(le, w), SortFields(le, rest));
      }
    }
  }

  lemma {:induction false} FirstInserted(le: Order, k: string, v: Json, f: Fields, w: Json, g: Fields)
    requires Lookup(f, k).None? && Lookup(g, k).None?
    ensures InsertField(le, k, v, f) == InsertField(le, k, w, g) <==> v == w && f == g
  {
    InsertLookup(le, k, v, f, k);
    InsertLookup(le, k, w, g, k);
    RemoveInserted(le, k, v, f);
    RemoveInserted(le, k, w, g);
  }

  lemma {:induction false} SortKeepsValid(le: Order, j: Json)
    requires Valid(j)
    ensures Valid(SortForStableJson(le, j))
    decreases j, 1
  {
    match j
    case Arr(items) => SortItemsKeepsValid(le, items);
    case Obj(fields) => SortFieldsKeepsValid(le, fields);
    case _ =>
  }

  lemma {:induction false} SortItemsKeepsValid(le: Order, items: Items)
    requires ValidItems(items)
    ensures ValidItems(SortItems(le, items))
    decreases items, 0
  {
    if items.Item? {
      SortKeepsValid(le, items.head);
      SortItemsKeepsValid(le, items.rest);
    }
  }

  lemma {:induction false} SortFieldsKeepsValid(le: Order, f: Fields)
    requires ValidFields(f)
    ensures ValidFields(SortFields(le, f))
    decreases f, 0
  {
    if f.Field? {
      SortKeepsValid(le, f.value);
      SortFieldsKeepsValid(le, f.rest);
      SortLookup(le, f.rest, f.key);
      InsertKeepsValid(le, f.key, SortForStableJson(le, f.value), SortFields(le, f.rest));
    }
  }

  lemma {:induction false} InsertKeepsValid(le: Order, key: string, value: Json, f: Fields)
    requires ValidFields(f) && Valid(value) && Lookup(f, key).None?
    ensures ValidFields(InsertField(le, key, value, f))
  {
    if f.Field? && le(f.key, key) {
      InsertKeepsValid(le, key, value, f.rest);
      InsertLookup(le, key, value, f.rest, f.key);
    }
  }

  // ---------------------------------------------------------------------
  // Text

  const HEX := "0123456789abcdef"

  /** A character of a string, escaped where it has to be. */
  function CharText(c: char): string {
    if c == '"' then "\\\""
    else if c == '\\' then "\\\\"
    else if c == '\n' then "\\n"
    else if c == '\r' then "\\r"
    else if c == '\t' then "\\t"
    else if c == '\U{0008}' then "\\b"
    else if c == '\U{000C}' then "\\f"
    else if c < ' ' then "\\u00" + [HEX[c as int / 16], HEX[c as int % 16]]
    else [c]
  }

  /** The characters of a string and its closing quote. */
  function CharsText(s: string): string {
    if s == "" then "\"" else CharText(s[0]) + CharsText(s[1..])
  }

  function TextOf(j: Json): string
    decreases j, 0
  {
    match j
    case Null => "null"
    case Bool(b) => if b then "true" else "false"
    case Num(text) => text
    case Str(s) => "\"" + CharsText(s)
    case Arr(items) => "[" + ItemsText(items)
    case Obj(fields) => "{" + FieldsText(fields)
  }

  function ItemsText(items: Items): string {
    match items
    case NoItem => "]"
    case Item(head, rest) => TextOf(head) + MoreItemsText(rest)
  }

  /** The items after one, and the closing bracket. */
  function MoreItemsText(items: Items): string {
    match items
    case NoItem => "]"
    case Item(head, rest) => "," + (TextOf(head) + MoreItemsText(rest))
  }

  function FieldText(key: string, value: Json): string
    decreases value, 1
  {
    "\"" + (CharsText(key) + (":" + TextOf(value)))
  }

  function FieldsText(f: Fields): string {
    match f
    case NoField => "}"
    case Field(k, v, rest) => FieldText(k, v) + MoreFieldsText(rest)
  }

  function MoreFieldsText(f: Fields): string {
    match f
    case NoField => "}"
    case Field(k, v, rest) => "," + (FieldText(k, v) + MoreFieldsText(rest))
  }

  /** What can follow a value inside a text. */
  predicate Ends(r: string) {
    r == "" || r[0] in ",]}"
  }

  lemma {:induction false} Tail(a: string, b: string, r: string, s: string)
    requires a + r == b + s && |a| == |b|
    ensures a == b && r == s
  {
    assert a == (a + r)[..|a|] && b == (b + s)[..|b|];
    assert r == (a + r)[|a|..] && s == (b + s)[|b|..];
  }

  lemma {:induction false} HexIsInjective(i: nat, j: nat)
    requires i < 16 && j < 16 && HEX[i] == HEX[j]
    ensures i == j
  {
  }

  lemma {:induction false} CharTextShape(c: char)
    ensures CharText(c) != "" && (|CharText(c)| == 1 <==> CharText(c)[0] != '\\')
    ensures |CharText(c)| > 1 ==> (|CharText(c)| == 2 || |CharText(c)| == 6) && (|CharText(c)| == 6 <==> CharText(c)[1] == 'u')
    ensures CharText(c)[0] != '"'
  {
  }

  lemma {:induction false} CharTextIsInjective(c: char, d: char)
    requires CharText(c) == CharText(d)
    ensures c == d
  {
    var t := CharText(c);
    if |t| == 6 {
      assert c < ' ' && d < ' ';
      assert t[4] == HEX[c as int / 16] == HEX[d as int / 16] && t[5] == HEX[c as int % 16] == HEX[d as int % 16];
      HexIsInjective(c as int / 16, d as int / 16);
      HexIsInjective(c as int % 16, d as int % 16);
    }
  }

  lemma {:induction false} CharTextIsPrefixFree(c: char, d: char, r: string, s: string)
    requires CharText(c) + r == CharText(d) + s
    ensures c == d && r == s
  {
    var x, y := CharText(c), CharText(d);
    var t := x + r;
    CharTextShape(c);
    CharTextShape(d);
    assert t[0] == x[0] && t[0] == y[0];
    if |x| > 1 && |y| > 1 {
      assert t[1] == x[1] && t[1] == y[1];
    }
    Tail(x, y, r, s);
    CharTextIsInjective(c, d);
  }

  lemma {:induction false} Regroup(a: string, b: string, c: string)
    ensures (a + b) + c == a + (b + c)
  {
  }

  /** After the same first part, the same follows. */
  lemma {:induction false} DropFirst(first: string, x: string, y: string, r: string, s: string)
    requires (first + x) + r == (first + y) + s
    ensures x + r == y + s
  {
    Regroup(first, x, r);
    Regroup(first, y, s);
    Tail(first, first, x + r, y + s);
  }

  lemma {:induction false} CharsStart(a: string, r: string)
    ensures CharsText(a) + r != "" && (a == "" <==> (CharsText(a) + r)[0] == '"')
  {
    if a != "" {
      CharTextShape(a[0]);
    }
  }

  lemma {:induction false} CharsTextIsPrefixFree(a: string, b: string, r: string, s: string)
    requires CharsText(a) + r == CharsText(b) + s
    ensures a == b && r == s
  {
    CharsStart(a, r);
    CharsStart(b, s);
    if a == "" {
      Tail("\"", "\"", r, s);
    } else {
      Regroup(CharText(a[0]), CharsText(a[1..]), r);
      Regroup(CharText(b[0]), CharsText(b[1..]), s);
      CharTextIsPrefixFree(a[0], b[0], CharsText(a[1..]) + r, CharsText(b[1..]) + s);
      CharsTextIsPrefixFree(a[1..], b[1..], r, s);
      assert a == [a[0]] + a[1..] && b == [b[0]] + b[1..];
    }
  }

  /** How far the characters of numbers go. */
  function NumLength(t: string): nat {
    if t != "" && (IsDigit(t[0]) || t[0] in "+-.eE") then 1 + NumLength(t[1..]) else 0
  }

  lemma {:induction false} NumLengthOf(a: string, r: string)
    requires Ends(r) && forall k :: 0 <= k < |a| ==> IsDigit(a[k]) || a[k] in "+-.eE"
    ensures NumLength(a + r) == |a|
  {
    if a == "" {
      assert a + r == r;
    } else {
      assert (a + r)[1..] == a[1..] + r;
      NumLengthOf(a[1..], r);
    }
  }

  lemma {:induction false} NumIsPrefixFree(a: string, b: string, r: string, s: string)
    requires NumText(a) && NumText(b) && Ends(r) && Ends(s) && a + r == b + s
    ensures a == b && r == s
  {
    NumLengthOf(a, r);
    NumLengthOf(b, s);
    Tail(a, b, r, s);
  }

  datatype Shape = ANull | ATrue | AFalse | ANum | AStr | AnArr | AnObj

  function ShapeOf(j: Json): Shape {
    match j
    case Null => ANull
    case Bool(b) => if b then ATrue else AFalse
    case Num(_) => ANum
    case Str(_) => AStr
    case Arr(_) => AnArr
    case Obj(_) => AnObj
  }

  function ShapeOfText(c: char): Shape {
    if c == 'n' then ANull else if c == 't' then ATrue else if c == 'f' then AFalse
    else if c == '"' then AStr else if c == '[' then AnArr else if c == '{' then AnObj else ANum
  }

  /** A text tells by its first character what it is the text of. */
  lemma {:induction false} FirstChar(j: Json)
    requires Valid(j)
    ensures TextOf(j) != "" && ShapeOfText(TextOf(j)[0]) == ShapeOf(j) && TextOf(j)[0] !in ",]}"
  {
    if j.Num? {
      assert IsDigit(j.text[0]) || j.text[0] in "+-.eE";
    }
  }

  lemma {:induction false} SameShape(a: Json, b: Json, r: string, s: string)
    requires Valid(a) && Valid(b) && TextOf(a) + r == TextOf(b) + s
    ensures ShapeOf(a) == ShapeOf(b)
  {
    FirstChar(a);
    FirstChar(b);
    assert (TextOf(a) + r)[0] == TextOf(a)[0] && (TextOf(b) + s)[0] == TextOf(b)[0];
  }

  /** Texts of values, followed by what can follow a value, are equal only for equal
      values. */
  lemma {:induction false} TextIsPrefixFree(a: Json, b: Json, r: string, s: string)
    requires Valid(a) && Valid(b) && Ends(r) && Ends(s) && TextOf(a) + r == TextOf(b) + s
    ensures a == b && r == s
    decreases a, 1
  {
    SameShape(a, b, r, s);
    if a.Num? {
      NumIsPrefixFree(a.text, b.text, r, s);
    } else if a.Str? {
      DropFirst("\"", CharsText(a.s), CharsText(b.s), r, s);
      CharsTextIsPrefixFree(a.s, b.s, r, s);
    } else if a.Arr? {
      DropFirst("[", ItemsText(a.items), ItemsText(b.items), r, s);
      ItemsTextIsPrefixFree(a.items, b.items, r, s);
    } else if a.Obj? {
      DropFirst("{", FieldsText(a.fields), FieldsText(b.fields), r, s);
      FieldsTextIsPrefixFree(a.fields, b.fields, r, s);
    } else {
      Tail(TextOf(a), TextOf(b), r, s);
    }
  }

  lemma {:induction false} MoreItemsEnd(items: Items, r: string)
    ensures Ends(MoreItemsText(items) + r)
  {
  }

  lemma {:induction false} MoreFieldsEnd(f: Fields, r: string)
    ensures Ends(MoreFieldsText(f) + r)
  {
  }

  lemma {:induction false} ItemsTextIsPrefixFree(a: Items, b: Items, r: string, s: string)
    requires ValidItems(a) && ValidItems(b) && ItemsText(a) + r == ItemsText(b) + s
    ensures a == b && r == s
    decreases a, 1
  {
    var t := ItemsText(a) + r;
    ItemsStart(a, r);
    ItemsStart(b, s);
    if a.Item? && b.Item? {
      ItemIsPrefixFree(a, b, r, s);
    } else {
      Tail(ItemsText(a), ItemsText(b), r, s);
    }
  }

  lemma {:induction false} ItemsStart(a: Items, r: string)
    requires ValidItems(a)
    ensures ItemsText(a) + r != "" && (a.NoItem? <==> (ItemsText(a) + r)[0] == ']')
  {
    if a.Item? {
      FirstChar(a.head);
    }
  }

  lemma {:induction false} ItemIsPrefixFree(a: Items, b: Items, r: string, s: string)
    requires a.Item? && b.Item? && ValidItems(a) && ValidItems(b)
    requires TextOf(a.head) + MoreItemsText(a.rest) + r == TextOf(b.head) + MoreItemsText(b.rest) + s
    ensures a == b && r == s
    decreases a, 0
  {
    var x, y := MoreItemsText(a.rest) + r, MoreItemsText(b.rest) + s;
    assert TextOf(a.head) + MoreItemsText(a.rest) + r == TextOf(a.head) + x;
    assert TextOf(b.head) + MoreItemsText(b.rest) + s == TextOf(b.head) + y;
    MoreItemsEnd(a.rest, r);
    MoreItemsEnd(b.rest, s);
    TextIsPrefixFree(a.head, b.head, x, y);
    MoreItemsTextIsPrefixFree(a.rest, b.rest, r, s);
  }

  lemma {:induction false} MoreItemsTextIsPrefixFree(a: Items, b: Items, r: string, s: string)
    requires ValidItems(a) && ValidItems(b) && MoreItemsText(a) + r == MoreItemsText(b) + s
    ensures a == b && r == s
    decreases a, 1
  {
    var t := MoreItemsText(a) + r;
    assert t[0] == MoreItemsText(a)[0] && t[0] == MoreItemsText(b)[0];
    if a.Item? && b.Item? {
      DropFirst(",", TextOf(a.head) + MoreItemsText(a.rest), TextOf(b.head) + MoreItemsText(b.rest), r, s);
      ItemIsPrefixFree(a, b, r, s);
    } else {
      Tail(MoreItemsText(a), MoreItemsText(b), r, s);
    }
  }

  lemma {:induction false} FieldsTextIsPrefixFree(a: Fields, b: Fields, r: string, s: string)
    requires ValidFields(a) && ValidFields(b) && FieldsText(a) + r == FieldsText(b) + s
    ensures a == b && r == s
    decreases a, 1
  {
    var t := FieldsText(a) + r;
    assert t[0] == FieldsText(a)[0] && t[0] == FieldsText(b)[0];
    if a.Field? && b.Field? {
      FieldIsPrefixFree(a, b, r, s);
    } else {
      Tail(FieldsText(a), FieldsText(b), r, s);
    }
  }

  lemma {:induction false} FieldIsPrefixFree(a: Fields, b: Fields, r: string, s: string)
    requires a.Field? && b.Field? && ValidFields(a) && ValidFields(b)
    requires FieldText(a.key, a.value) + MoreFieldsText(a.rest) + r == FieldText(b.key, b.value) + MoreFieldsText(b.rest) + s
    ensures a == b && r == s
    decreases a, 0
  {
    var x, y := MoreFieldsText(a.rest) + r, MoreFieldsText(b.rest) + s;
    FieldTextParts(a.key, a.value, MoreFieldsText(a.rest), r);
    FieldTextParts(b.key, b.value, MoreFieldsText(b.rest), s);
    Tail("\"", "\"", CharsText(a.key) + (":" + (TextOf(a.value) + x)), CharsText(b.key) + (":" + (TextOf(b.value) + y)));
    CharsTextIsPrefixFree(a.key, b.key, ":" + (TextOf(a.value) + x), ":" + (TextOf(b.value) + y));
    Tail(":", ":", TextOf(a.value) + x, TextOf(b.value) + y);
    MoreFieldsEnd(a.rest, r);
    MoreFieldsEnd(b.rest, s);
    TextIsPrefixFree(a.value, b.value, x, y);
    MoreFieldsTextIsPrefixFree(a.rest, b.rest, r, s);
  }

  lemma {:induction false} FieldTextParts(key: string, value: Json, more: string, r: string)
    ensures FieldText(key, value) + more + r == "\"" + (CharsText(key) + (":" + (TextOf(value) + (more + r))))
  {
    var named := CharsText(key) + (":" + TextOf(value));
    Regroup("\"" + named, more, r);
    Regroup("\"", named, more + r);
    Regroup(CharsText(key), ":" + TextOf(value), more + r);
    Regroup(":", TextOf(value), more + r);
  }

  lemma {:induction false} MoreFieldsTextIsPrefixFree(a: Fields, b: Fields, r: string, s: string)
    requires ValidFields(a) && ValidFields(b) && MoreFieldsText(a) + r == MoreFieldsText(b) + s
    ensures a == b && r == s
    decreases a, 1
  {
    var t := MoreFieldsText(a) + r;
    assert t[0] == MoreFieldsText(a)[0] && t[0] == MoreFieldsText(b)[0];
    if a.Field? && b.Field? {
      DropFirst(",", FieldText(a.key, a.value) + MoreFieldsText(a.rest),
                FieldText(b.key, b.value) + MoreFieldsText(b.rest), r, s);
      FieldIsPrefixFree(a, b, r, s);
    } else {
      Tail(MoreFieldsText(a), MoreFieldsText(b), r, s);
    }
  }

  // ---------------------------------------------------------------------
  // The canonical text

  function StableStringify(le: Order, j: Json): string {
    TextOf(SortForStableJson(le, j))
  }

  /** Stable texts are equal exactly when the values are, up to key order. */
  lemma {:induction false} StableTextsEqualExactly(le: Order, a: Json, b: Json)
    requires TotalOrder(le) && Valid(a) && Valid(b)
    ensures StableStringify(le, a) == StableStringify(le, b) <==> Same(a, b)
  {
    SortedEqualExactly(le, a, b);
    SortKeepsValid(le, a);
    SortKeepsValid(le, b);
    if StableStringify(le, a) == StableStringify(le, b) {
      assert StableStringify(le, a) + "" == StableStringify(le, b) + "";
      TextIsPrefixFree(SortForStableJson(le, a), SortForStableJson(le, b), "", "");
    }
  }
}
