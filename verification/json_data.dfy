/** JSON values as the API handlers see them after `json.loads`: request
    bodies, stored configuration documents and their entries. */
module JsonData {

  /** A decoded JSON value; numbers are integers only. */
  datatype Json =
    | JNull
    | JBool(b: bool)
    | JNum(n: int)
    | JStr(s: string)
    | JList(items: seq<Json>)
    | JObject(fields: map<string, Json>)

  /** A JSON object: a dict from keys to values. */
  type Object = map<string, Json>

  /** Python truthiness of a decoded value. */
  predicate Truthy(j: Json)
  {
    match j
    case JNull => false
    case JBool(b) => b
    case JNum(n) => n != 0
    case JStr(s) => s != []
    case JList(xs) => xs != []
    case JObject(fs) => fs != map[]
  }

  /** `x['name'] == name` for an entry that has a name. */
  predicate NameIs(e: Object, name: string)
  {
    "name" in e && e["name"] == JStr(name)
  }

  /** Index of the first entry named `name`, or `|es|`. */
  function FirstNamed(es: seq<Object>, name: string): (i: nat)
    ensures i <= |es|
    ensures i < |es| ==> NameIs(es[i], name)
    ensures forall j :: 0 <= j < i ==> !NameIs(es[j], name)
  {
    if es == [] then 0
    else if NameIs(es[0], name) then 0
    else 1 + FirstNamed(es[1..], name)
  }

  /** `list.remove(x)` of the element at `i`. */
  function RemoveAt<T>(xs: seq<T>, i: nat): (r: seq<T>)
    requires i < |xs|
    ensures |r| == |xs| - 1
    ensures forall j :: 0 <= j < i ==> r[j] == xs[j]
    ensures forall j :: i <= j < |r| ==> r[j] == xs[j + 1]
  {
    xs[..i] + xs[i + 1..]
  }

  /** `list.remove(x)`: drops the first element equal to `x` (callers
      only remove elements that are present). */
  function RemoveValue<T(==)>(xs: seq<T>, x: T): (r: seq<T>)
    ensures x in xs ==> |r| == |xs| - 1
    ensures x !in xs ==> r == xs
  {
    if xs == [] then []
    else if xs[0] == x then xs[1..]
    else [xs[0]] + RemoveValue(xs[1..], x)
  }

  /** Removing by value removes the element's first occurrence. */
  lemma {:induction false} RemoveValueAt<T>(xs: seq<T>, i: nat)
    requires i < |xs| && forall j :: 0 <= j < i ==> xs[j] != xs[i]
    ensures RemoveValue(xs, xs[i]) == RemoveAt(xs, i)
  {
    if i == 0 {
      assert xs[..0] + xs[1..] == xs[1..];
    } else {
      var t, x := xs[1..], xs[i];
      assert t[i - 1] == x;
      assert xs[0] != x;
      assert RemoveValue(xs, x) == [xs[0]] + RemoveValue(t, x);
      assert forall j :: 0 <= j < i - 1 ==> t[j] != t[i - 1] by {
        forall j | 0 <= j < i - 1 ensures t[j] != t[i - 1] {
          assert t[j] == xs[j + 1];
        }
      }
      RemoveValueAt(t, i - 1);
      assert xs[..i] == [xs[0]] + t[..i - 1];
      assert xs[i + 1..] == t[i..];
    }
  }
}
