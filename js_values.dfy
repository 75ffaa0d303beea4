/** JavaScript values as far as the metadata component observes them: their
    truthiness, their `typeof`, what `.constructor` reads on an object, and the
    keys a `for...in` loop enumerates. */
module JsValues {

  /** What reading `.constructor` on an object yields. */
  datatype Ctor =
    | ObjectCtor               // the built-in `Object`: plain object literals, JSON.parse results
    | ArrayCtor
    | DateCtor
    | RegExpCtor
    | OtherCtor(name: string)  // any other class: `Window` for globalThis, a page's own classes
    | NoConstructor            // an object without one, e.g. made by Object.create(null)

  /** A JavaScript value. Objects are kept abstract: their constructor and the
      enumerable properties a `for...in` loop visits, in visiting order. */
  datatype Value =
    | Undefined
    | Null
    | Bool(b: bool)
    | Num(x: real)
    | NaN
    | Infinity(negative: bool)
    | Str(s: string)
    | Obj(ctor: Ctor, props: seq<Prop>)

  /** An enumerable property: its key, its value, and whether the object holds it
      itself (`hasOwnProperty`) rather than through its prototype chain. */
  datatype Prop = Prop(key: string, value: Value, own: bool)

  /** The empty object literal `{}`. */
  const EMPTY_OBJECT: Value := Obj(ObjectCtor, [])

  /** JavaScript truthiness: `""`, `0`, `-0`, `NaN`, `null`, `undefined` and
      `false` are falsy; everything else, every object included, is truthy.
      (`-0` and `0` are the same `Num(0.0)` here.) */
  predicate Truthy(v: Value)
    ensures !Truthy(v) <==> v in {Undefined, Null, Bool(false), Num(0.0), NaN, Str("")}
  {
    match v
    case Undefined => false
    case Null => false
    case Bool(b) => b
    case Num(x) => x != 0.0
    case NaN => false
    case Infinity(_) => true
    case Str(s) => s != ""
    case Obj(_, _) => true
  }

  /** The `typeof` operator. */
  function TypeOf(v: Value): string {
    match v
    case Undefined => "undefined"
    case Null => "object"
    case Bool(_) => "boolean"
    case Num(_) => "number"
    case NaN => "number"
    case Infinity(_) => "number"
    case Str(_) => "string"
    case Obj(_, _) => "object"
  }

  /** The decimal digit for `d`. */
  function DigitChar(d: nat): char
    requires d < 10
  {
    "0123456789"[d]
  }

  /** The canonical decimal spelling of `n`, as JavaScript writes an array or
      string index as a property key. */
  function Decimal(n: nat): (r: string)
    ensures 1 <= |r|
    ensures n >= 10 ==> 2 <= |r|
  {
    if n < 10 then [DigitChar(n)] else Decimal(n / 10) + [DigitChar(n % 10)]
  }

  /** Distinct indices have distinct property keys. */
  lemma {:induction false} DecimalInjective(a: nat, b: nat)
    requires Decimal(a) == Decimal(b)
    ensures a == b
  {
    if a >= 10 && b >= 10 {
      var da, db := Decimal(a), Decimal(b);
      assert da[|da| - 1] == DigitChar(a % 10) && db[|db| - 1] == DigitChar(b % 10);
      assert a % 10 == b % 10;
      assert Decimal(a / 10) == da[..|da| - 1] == db[..|db| - 1] == Decimal(b / 10);
      DecimalInjective(a / 10, b / 10);
    } else if a < 10 && b < 10 {
      assert DigitChar(a) == Decimal(a)[0] == DigitChar(b);
    }
  }

  /** The keys and values `for (const name in v)` visits, with `v[name]`: an
      object's enumerable properties, own and inherited, in visiting order; a
      string's indices, each an own key whose value is the one-character
      string at that index; nothing at all for any other primitive, `null` and
      `undefined` included. */
  function ForIn(v: Value): (r: seq<Prop>)
    ensures v.Obj? ==> r == v.props
    ensures v.Str? ==> |r| == |v.s| && forall p | p in r :: p.own
    ensures !v.Obj? && !v.Str? ==> r == []
  {
    match v
    case Obj(_, props) => props
    case Str(s) => seq(|s|, i requires 0 <= i < |s| => Prop(Decimal(i), Str([s[i]]), true))
    case _ => []
  }

  /** A `for...in` loop never visits one key twice. */
  predicate DistinctKeys(ps: seq<Prop>) {
    forall i, j :: 0 <= i < j < |ps| ==> ps[i].key != ps[j].key
  }

  /** Enumerating a string visits each index once, as an own key. */
  lemma ForInString(s: string)
    ensures DistinctKeys(ForIn(Str(s)))
    ensures forall p | p in ForIn(Str(s)) :: p.own && Truthy(p.value)
  {
    var ps := ForIn(Str(s));
    forall i, j | 0 <= i < j < |ps| ensures ps[i].key != ps[j].key {
      if ps[i].key == ps[j].key {
        DecimalInjective(i, j);
      }
    }
  }
}
