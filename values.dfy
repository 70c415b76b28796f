/** The dynamically typed values the store holds: records, identities, join
    keys and field values are all JavaScript `unknown`s.  Values have no
    identity of their own: `===`, `Array.prototype.includes` and `Map` keys
    compare them by content, where JavaScript compares objects, arrays and
    Maps by reference. */
module Values {
  import opened Wrappers

  datatype Value =
    | Undefined
    | Null
    | Bool(b: bool)
    | Num(n: int)                          // integral numbers only
    | Str(s: string)
    | Arr(items: seq<Value>)               // a JavaScript array
    | Obj(fields: map<string, Value>)      // a plain object, keyed by property name
    | MapV(entries: seq<(Value, Value)>)   // an instance of Map, in insertion order
    | Fn(tag: nat)                         // a function value; only its identity is modelled

  /** JavaScript truthiness (`!!v`). */
  predicate Truthy(v: Value) {
    match v
    case Undefined => false
    case Null => false
    case Bool(b) => b
    case Num(n) => n != 0
    case Str(s) => s != ""
    case _ => true
  }

  /** The `scalar` type of the store: a number or a string. */
  predicate IsScalar(v: Value) {
    v.Num? || v.Str?
  }

  /** What the collection library calls family 'container': objects, arrays and maps. */
  predicate IsContainer(v: Value) {
    v.Obj? || v.Arr? || v.MapV?
  }

  function Digit(d: nat): char
    requires d < 10
  {
    "0123456789"[d]
  }

  function NatToString(n: nat): (s: string)
    ensures |s| > 0
  {
    if n < 10 then [Digit(n)] else NatToString(n / 10) + [Digit(n % 10)]
  }

  /** `String(v)`, as a template literal or a computed property name converts it. */
  function ToStr(v: Value): string
    decreases v, 1
  {
    match v
    case Undefined => "undefined"
    case Null => "null"
    case Bool(b) => if b then "true" else "false"
    case Num(n) => if n < 0 then "-" + NatToString(-n) else NatToString(n)
    case Str(s) => s
    case Arr(items) => JoinElements(v, items)
    case Obj(_) => "[object Object]"
    case MapV(_) => "[object Map]"
    case Fn(_) => "function"
  }

  /** `Array.prototype.join(',')`: holes, `undefined` and `null` print as the empty string. */
  function JoinElements(ghost whole: Value, items: seq<Value>): string
    requires forall x | x in items :: x < whole
    decreases whole, 0, |items|
  {
    if items == [] then ""
    else
      assert items[0] in items;
      assert forall x | x in items[1..] :: x in items;
      var head := if items[0].Undefined? || items[0].Null? then "" else ToStr(items[0]);
      if |items| == 1 then head else head + "," + JoinElements(whole, items[1..])
  }

  /** Looks `key` up among a Map's entries (first match, SameValueZero as equality). */
  function MapGet(entries: seq<(Value, Value)>, key: Value): Value {
    if entries == [] then Undefined
    else if entries[0].0 == key then entries[0].1
    else MapGet(entries[1..], key)
  }

  function MapPut(entries: seq<(Value, Value)>, key: Value, v: Value): (r: seq<(Value, Value)>)
    ensures MapGet(r, key) == v
  {
    if entries == [] then [(key, v)]
    else if entries[0].0 == key then [(key, v)] + entries[1..]
    else [entries[0]] + MapPut(entries[1..], key, v)
  }

  /** `c(container).get(key)`: an object is read by the key's property name, an
      array by an in-range numeric index, a Map by the key itself. */
  function ValueAt(container: Value, key: Value): Value {
    match container
    case Obj(fields) => if ToStr(key) in fields then fields[ToStr(key)] else Undefined
    case Arr(items) => if key.Num? && 0 <= key.n < |items| then items[key.n] else Undefined
    case MapV(entries) => MapGet(entries, key)
    case _ => Undefined
  }

  /** `c(container).clone().set(key, v).value`; `None` where the collection cannot hold `key`. */
  function PutAt(container: Value, key: Value, v: Value): (r: Option<Value>)
    ensures r.Some? ==> ValueAt(r.value, key) == v
    ensures r.Some? <==> container.Obj? || container.MapV? || (container.Arr? && key.Num? && 0 <= key.n < |container.items|)
  {
    match container
    case Obj(fields) => Some(Obj(fields[ToStr(key) := v]))
    case Arr(items) => if key.Num? && 0 <= key.n < |items| then Some(Arr(items[key.n := v])) else None
    case MapV(entries) => Some(MapV(MapPut(entries, key, v)))
    case _ => None
  }

  predicate IsDigit(c: char) {
    '0' <= c <= '9'
  }

  /** The number a string of decimal digits spells. */
  function DigitsValue(s: string): nat
    requires forall i | 0 <= i < |s| :: IsDigit(s[i])
  {
    if s == [] then 0
    else
      assert IsDigit(s[|s| - 1]);
      DigitsValue(s[..|s| - 1]) * 10 + (s[|s| - 1] as int - '0' as int)
  }

  /** A canonical array index: a property name that is the decimal form of a
      natural number, without a sign or leading zeros (`"0"`, `"17"`, but
      not `"01"` or `""`). */
  function CanonicalIndex(name: string): (r: Option<nat>)
    ensures r.Some? ==> NatToString(r.value) == name
  {
    if name != [] && (forall i | 0 <= i < |name| :: IsDigit(name[i])) && (name[0] != '0' || |name| == 1) then
      DigitsOfCanonical(name);
      Some(DigitsValue(name))
    else None
  }

  lemma {:induction false} DigitsOfCanonical(s: string)
    requires s != [] && forall i | 0 <= i < |s| :: IsDigit(s[i])
    requires s[0] != '0' || |s| == 1
    ensures NatToString(DigitsValue(s)) == s
  {
    var c := s[|s| - 1];
    assert IsDigit(c);
    var d := c as int - '0' as int;
    assert Digit(d) == c;
    if |s| > 1 {
      var init := s[..|s| - 1];
      assert forall i | 0 <= i < |init| :: init[i] == s[i];
      DigitsOfCanonical(init);
      LeadingDigitPositive(init);
      var v := DigitsValue(init);
      assert DigitsValue(s) == v * 10 + d;
      DivModTen(v, d);
      assert s == init + [c];
    }
  }

  lemma DivModTen(v: nat, d: nat)
    requires d < 10
    ensures (v * 10 + d) / 10 == v && (v * 10 + d) % 10 == d
  {
  }

  lemma {:induction false} LeadingDigitPositive(s: string)
    requires s != [] && forall i | 0 <= i < |s| :: IsDigit(s[i])
    requires s[0] != '0'
    ensures DigitsValue(s) >= 1
  {
    if |s| > 1 {
      var init := s[..|s| - 1];
      assert init[0] == s[0];
      LeadingDigitPositive(init);
    }
  }

  /** Every natural number's decimal form is the canonical index of that number. */
  lemma {:induction false} IndexOfNatToString(n: nat)
    ensures CanonicalIndex(NatToString(n)) == Some(n)
  {
    DigitsOfNat(n);
  }

  lemma {:induction false} DigitsOfNat(n: nat)
    ensures var s := NatToString(n);
      && (forall i | 0 <= i < |s| :: IsDigit(s[i]))
      && (s[0] != '0' || |s| == 1)
      && DigitsValue(s) == n
  {
    var s := NatToString(n);
    if n >= 10 {
      DigitsOfNat(n / 10);
      var init := NatToString(n / 10);
      assert s == init + [Digit(n % 10)];
      assert s[..|s| - 1] == init;
      assert s[0] == init[0];
    }
  }

  /** Reading a named property of an array or a string: `length`, or the
      element at a canonical index. */
  function IndexedProperty<T>(items: seq<T>, name: string, asValue: T -> Value): Value {
    if name == "length" then Num(|items|)
    else match CanonicalIndex(name)
      case Some(i) => if i < |items| then asValue(items[i]) else Undefined
      case None => Undefined
  }

  function StrChar(c: char): Value { Str([c]) }

  function AsItself(v: Value): Value { v }

  /** The property read `record[key]` on an arbitrary value.  Reading a property
      of `undefined` or `null` is a TypeError (`None`).  An object is read by
      the key's property name; an array and a string answer `length` and the
      element (for a string, the one-character string) at a canonical index. */
  function Property(record: Value, key: Value): (r: Option<Value>)
    ensures r.None? <==> record.Undefined? || record.Null?
    ensures record.Obj? ==> r == Some(ValueAt(record, key))
    ensures record.Arr? && ToStr(key) == "length" ==> r == Some(Num(|record.items|))
    ensures record.Str? && ToStr(key) == "length" ==> r == Some(Num(|record.s|))
    ensures record.Arr? && CanonicalIndex(ToStr(key)).None? && ToStr(key) != "length" ==> r == Some(Undefined)
  {
    match record
    case Undefined => None
    case Null => None
    case Obj(_) => Some(ValueAt(record, key))
    case Arr(items) => Some(IndexedProperty(items, ToStr(key), AsItself))
    case Str(s) => Some(IndexedProperty(s, ToStr(key), StrChar))
    case _ => Some(Undefined)
  }

  /** `array[i]` and `array["i"]` read the element at `i`, and nothing past the end. */
  lemma ArrayElementRead(items: seq<Value>, i: nat)
    ensures i < |items| ==> Property(Arr(items), Str(NatToString(i))) == Some(items[i])
    ensures i < |items| ==> Property(Arr(items), Num(i)) == Some(items[i])
    ensures i >= |items| ==> Property(Arr(items), Num(i)) == Some(Undefined)
  {
    IndexOfNatToString(i);
  }

  /** `string[i]` is the one-character string at `i`. */
  lemma StringCharRead(s: string, i: nat)
    requires i < |s|
    ensures Property(Str(s), Num(i)) == Some(Str([s[i]]))
  {
    IndexOfNatToString(i);
  }

  /** Putting a key into a clone changes that key alone. */
  lemma PutOtherKey(container: Value, key: Value, other: Value, v: Value)
    requires container.Obj? && ToStr(key) != ToStr(other)
    ensures PutAt(container, key, v).Some?
    ensures ValueAt(PutAt(container, key, v).value, other) == ValueAt(container, other)
  {
  }
}
