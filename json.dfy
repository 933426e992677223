/** JSON values as the router and the command-line client exchange them, with
    JavaScript's truthiness and the order the data store applies in ORDER BY. */
module Json {

  datatype Option<+T> = None | Some(value: T)

  /** A JSON value. Numbers are integers; the source never computes with fractions. */
  datatype Value =
    | Null
    | Bool(b: bool)
    | Num(n: int)
    | Str(s: string)
    | Arr(items: seq<Value>)
    | Obj(fields: map<string, Value>)

  /** A JSON object (a request body, a stored bean): its members by name.
      A member that is absent reads as `undefined`. */
  type Record = map<string, Value>

  /** JavaScript truthiness of a JSON value: `null`, `false`, `0` and `""` are
      falsy; every array and object, even an empty one, is truthy. */
  predicate Truthy(v: Value) {
    match v
    case Null => false
    case Bool(b) => b
    case Num(n) => n != 0
    case Str(s) => s != ""
    case _ => true
  }

  /** `!!r.k`: the member is present and truthy. */
  predicate IsSet(r: Record, k: string) {
    k in r && Truthy(r[k])
  }

  /** The member as the data store sees it: an absent member is NULL. */
  function Field(r: Record, k: string): Value {
    if k in r then r[k] else Null
  }

  // ----- ORDER BY -----

  /** Storage class of a value when rows are sorted: NULL first, then numbers
      (a boolean is stored as 0 or 1), then text, then anything else. */
  function Rank(v: Value): nat {
    match v
    case Null => 0
    case Bool(_) => 1
    case Num(_) => 1
    case Str(_) => 2
    case _ => 3
  }

  function NumberOf(v: Value): int {
    match v
    case Bool(b) => if b then 1 else 0
    case Num(n) => n
    case _ => 0
  }

  /** Byte-wise lexicographic order on text, as the store's binary collation. */
  predicate TextLe(a: string, b: string)
    decreases |a|
  {
    if a == [] then true
    else if b == [] then false
    else if a[0] != b[0] then a[0] < b[0]
    else TextLe(a[1..], b[1..])
  }

  /** `a` may come before `b` in an ascending ORDER BY. */
  predicate ValueLe(a: Value, b: Value) {
    if Rank(a) != Rank(b) then Rank(a) < Rank(b)
    else if Rank(a) == 1 then NumberOf(a) <= NumberOf(b)
    else if a.Str? && b.Str? then TextLe(a.s, b.s)
    else true
  }

  lemma {:induction false} TextLeTotal(a: string, b: string)
    ensures TextLe(a, b) || TextLe(b, a)
    decreases |a|
  {
    if a != [] && b != [] && a[0] == b[0] {
      TextLeTotal(a[1..], b[1..]);
    }
  }

  lemma {:induction false} TextLeTransitive(a: string, b: string, c: string)
    requires TextLe(a, b) && TextLe(b, c)
    ensures TextLe(a, c)
    decreases |a|
  {
    if a != [] && b != [] && c != [] && a[0] == b[0] && b[0] == c[0] {
      TextLeTransitive(a[1..], b[1..], c[1..]);
    }
  }

  lemma ValueLeTotal(a: Value, b: Value)
    ensures ValueLe(a, b) || ValueLe(b, a)
  {
    if a.Str? && b.Str? {
      TextLeTotal(a.s, b.s);
    }
  }

  lemma ValueLeTransitive(a: Value, b: Value, c: Value)
    requires ValueLe(a, b) && ValueLe(b, c)
    ensures ValueLe(a, c)
  {
    if a.Str? && b.Str? && c.Str? {
      TextLeTransitive(a.s, b.s, c.s);
    }
  }
}
