/** The JSON values a request body can carry, as JavaScript sees them after
    `express.json()`: a field that is absent reads as `undefined`. */
module Json {

  import Text

  datatype Option<+T> = None | Some(value: T)

  /** A number is kept as the text JavaScript's `String()` gives it, which is
      all the application ever does with one (truthiness and `join`). */
  datatype Json =
    | Missing
    | Null
    | Bool(b: bool)
    | Number(text: string)
    | Str(s: string)
    | Array(items: seq<Json>)
    | Object

  /** JavaScript truthiness: `undefined`, `null`, `false`, `0`, `-0`, `NaN`
      and `""` are falsy (`String(-0)` is `"0"`); arrays and objects, even
      empty ones, are truthy. */
  predicate Truthy(v: Json) {
    match v
    case Missing => false
    case Null => false
    case Bool(b) => b
    case Number(t) => t != "0" && t != "NaN"
    case Str(s) => s != []
    case Array(_) => true
    case Object => true
  }

  /** How `Array.prototype.join` renders one element: `undefined` and `null`
      become the empty string, everything else its `String()` form. */
  function ElementText(v: Json): (r: string)
    ensures v.Str? ==> r == v.s
    ensures v.Missing? || v.Null? ==> r == []
    decreases v, 1
  {
    if v.Missing? || v.Null? then [] else ToText(v)
  }

  /** `String(v)`. */
  function ToText(v: Json): string
    decreases v, 0
  {
    match v
    case Missing => "undefined"
    case Null => "null"
    case Bool(b) => if b then "true" else "false"
    case Number(t) => t
    case Str(s) => s
    case Array(items) => JoinItems(items, ",")
    case Object => "[object Object]"
  }

  /** The rendered elements of an array, in order. */
  function ItemTexts(items: seq<Json>): (r: seq<string>)
    ensures |r| == |items|
    ensures forall i :: 0 <= i < |items| ==> r[i] == ElementText(items[i])
    ensures forall i :: 0 <= i < |items| && items[i].Str? ==> r[i] == items[i].s
    decreases items, 2
  {
    seq(|items|, i requires 0 <= i < |items| => ElementText(items[i]))
  }

  /** `items.join(sep)`. */
  function JoinItems(items: seq<Json>, sep: string): string
    decreases items, 3
  {
    Text.JoinWith(ItemTexts(items), sep)
  }

  /** Strings as a JSON array, as `JSON.stringify` sends a list of strings. */
  function StrArray(ss: seq<string>): (v: Json)
    ensures v.Array? && |v.items| == |ss|
    ensures forall i :: 0 <= i < |ss| ==> v.items[i] == Str(ss[i])
  {
    Array(seq(|ss|, i requires 0 <= i < |ss| => Str(ss[i])))
  }
}
