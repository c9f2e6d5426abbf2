/** The JavaScript values that flow through the console's data sources: rows
    are plain objects whose fields hold numbers, strings, booleans, `null`,
    `undefined` or nested objects. This module gives the operators the source
    applies to them: property access, truthiness, `===`, `String(v)`, `<`,
    `Number(v)` and `??`. */
module JsValues {
  import opened Wrappers
  import opened Text

  datatype Value =
    | Num(n: real)          // a finite number
    | NaN                   // the number NaN
    | Str(s: string)
    | Bool(b: bool)
    | Null
    | Undefined
    | Obj(fields: map<string, Value>)

  /** A plain object (a row of a collection, a patch, a form). */
  type Record = map<string, Value>

  /** What a call can throw. */
  datatype Exception =
    | TypeError               // property read on null or undefined
    | NotFound(message: string)

  /** `r[f]`: a missing property reads as `undefined`. */
  function Get(r: Record, f: string): (v: Value)
    ensures f !in r ==> v == Undefined
  {
    if f in r then r[f] else Undefined
  }

  /** `v == null`: true of `null` and of `undefined` alone. */
  predicate Nullish(v: Value)
  {
    v.Null? || v.Undefined?
  }

  /** Truthiness, as used by `cond ? a : b` and `!!v`. */
  predicate Truthy(v: Value)
  {
    match v
    case Num(x) => x != 0.0
    case NaN => false
    case Str(s) => s != ""
    case Bool(b) => b
    case Null => false
    case Undefined => false
    case Obj(_) => true
  }

  /** `a === b`. NaN equals nothing; an object is compared by identity, and no
      object of the model is the same object as a value it is compared with. */
  predicate StrictEquals(a: Value, b: Value)
  {
    a == b && !a.NaN? && !a.Obj?
  }

  /** `a ?? b`. */
  function Coalesce(a: Value, b: Value): (r: Value)
    ensures Nullish(a) ==> r == b
    ensures !Nullish(a) ==> r == a
  {
    if Nullish(a) then b else a
  }

  /** `v.name`: reading a property of `null` or `undefined` throws; a primitive
      has none of the properties the source reads. */
  function Member(v: Value, name: string): (r: Result<Value, Exception>)
    ensures r.Err? <==> Nullish(v)
  {
    match v
    case Obj(fields) => Ok(Get(fields, name))
    case Null => Err(TypeError)
    case Undefined => Err(TypeError)
    case _ => Ok(Undefined)
  }

  /** `v?.name`: never throws. */
  function OptionalMember(v: Value, name: string): (r: Value)
    ensures Nullish(v) ==> r == Undefined
    ensures Member(v, name).Ok? ==> r == Member(v, name).value
  {
    if Nullish(v) then Undefined else Member(v, name).value
  }

  // ---------------------------------------------------------------------
  // String(v)
  // ---------------------------------------------------------------------

  /** At most `k` decimal digits of a fraction strictly between 0 and 1. */
  function FracDigits(f: real, k: nat): (r: string)
    requires 0.0 < f < 1.0
    ensures 1 <= |r| <= if k == 0 then 1 else k
    ensures AllDigits(r)
    decreases k
  {
    var t := f * 10.0;
    var d := t.Floor;
    var rest := t - d as real;
    [DigitChar(d)] + (if rest == 0.0 || k <= 1 then "" else FracDigits(rest, k - 1))
  }

  /** `String(x)` for a finite number `x`. */
  function NumberText(x: real): string
  {
    if x < 0.0 then "-" + NonNegativeText(-x) else NonNegativeText(x)
  }

  function NonNegativeText(x: real): string
    requires x >= 0.0
  {
    var w := x.Floor;
    var f := x - w as real;
    if f == 0.0 then NatText(w) else NatText(w) + "." + FracDigits(f, 20)
  }

  /** `String(v)`. */
  function Stringify(v: Value): string
  {
    match v
    case Num(x) => NumberText(x)
    case NaN => "NaN"
    case Str(s) => s
    case Bool(b) => if b then "true" else "false"
    case Null => "null"
    case Undefined => "undefined"
    case Obj(_) => "[object Object]"
  }

  // ---------------------------------------------------------------------
  // a < b
  // ---------------------------------------------------------------------

  /** String `<`: lexicographic on character codes. */
  predicate StrLess(a: string, b: string)
    decreases |a|
  {
    if a == [] then b != []
    else if b == [] then false
    else if a[0] != b[0] then a[0] < b[0]
    else StrLess(a[1..], b[1..])
  }

  /** `a < b` between two numbers, two strings or two booleans. */
  predicate Less(a: Value, b: Value)
  {
    match (a, b)
    case (Num(x), Num(y)) => x < y
    case (Str(s), Str(t)) => StrLess(s, t)
    case (Bool(x), Bool(y)) => !x && y
    case _ => false
  }

  /** Two values that `<` orders without coercion. */
  predicate Comparable(a: Value, b: Value)
  {
    (a.Num? && b.Num?) || (a.Str? && b.Str?) || (a.Bool? && b.Bool?)
  }

  lemma {:induction false} StrLessIrreflexive(a: string)
    ensures !StrLess(a, a)
    decreases |a|
  {
    if a != [] {
      StrLessIrreflexive(a[1..]);
    }
  }

  lemma {:induction false} StrLessTransitive(a: string, b: string, c: string)
    requires StrLess(a, b) && StrLess(b, c)
    ensures StrLess(a, c)
    decreases |a|
  {
    if a != [] && a[0] == b[0] && b[0] == c[0] {
      StrLessTransitive(a[1..], b[1..], c[1..]);
    }
  }

  lemma {:induction false} StrLessTotal(a: string, b: string)
    requires a != b
    ensures StrLess(a, b) || StrLess(b, a)
    decreases |a|
  {
    if a != [] && b != [] && a[0] == b[0] {
      assert a == [a[0]] + a[1..] && b == [b[0]] + b[1..];
      StrLessTotal(a[1..], b[1..]);
    }
  }

  lemma {:induction false} StrLessAsymmetric(a: string, b: string)
    requires StrLess(a, b)
    ensures !StrLess(b, a)
  {
    if StrLess(b, a) {
      StrLessTransitive(a, b, a);
      StrLessIrreflexive(a);
    }
  }

  /** Between comparable values, `<` is a strict total order: exactly one of
      `a < b`, `a === b`, `b < a` holds. */
  lemma LessTrichotomy(a: Value, b: Value)
    requires Comparable(a, b)
    ensures Less(a, b) || a == b || Less(b, a)
    ensures !(Less(a, b) && Less(b, a))
    ensures a == b ==> !Less(a, b)
  {
    if a.Str? {
      if a.s != b.s {
        StrLessTotal(a.s, b.s);
      } else {
        StrLessIrreflexive(a.s);
      }
      if StrLess(a.s, b.s) {
        StrLessAsymmetric(a.s, b.s);
      }
    }
  }

  /** `<` is asymmetric. */
  lemma LessAsymmetric(a: Value, b: Value)
    requires Less(a, b)
    ensures !Less(b, a)
  {
    LessTrichotomy(a, b);
  }

  /** `<` is transitive (it relates values of one kind only). */
  lemma LessTransitive(a: Value, b: Value, c: Value)
    requires Less(a, b) && Less(b, c)
    ensures Less(a, c)
  {
    if a.Str? {
      StrLessTransitive(a.s, b.s, c.s);
    }
  }

  // ---------------------------------------------------------------------
  // Number(v) and Math.max
  // ---------------------------------------------------------------------

  /** `Number(v)`, with `None` standing for NaN. Of strings, only the empty
      string and strings of decimal digits are read. */
  function ToNumber(v: Value): Option<real>
  {
    match v
    case Num(x) => Some(x)
    case NaN => None
    case Str(s) => if AllDigits(s) then Some(ParseNat(s) as real) else None
    case Bool(b) => Some(if b then 1.0 else 0.0)
    case Null => Some(0.0)
    case Undefined => None
    case Obj(_) => None
  }

  /** `Number(v)` as a value. */
  function NumberValue(v: Value): (r: Value)
    ensures r.Num? || r.NaN?
    ensures v.Num? ==> r == v
  {
    match ToNumber(v)
    case Some(x) => Num(x)
    case None => NaN
  }
}
