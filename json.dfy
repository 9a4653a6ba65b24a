/**
 * The decoded JSON value handed to both generators: what `json_decode($query, false)`
 * produces, with objects as `\stdClass` (ordered key/value members) and arrays as PHP lists.
 */
module Json {

  /** A floating-point number, kept as the opaque token the decoder produced. */
  datatype FloatLit = FloatLit(token: string)

  datatype JValue =
    | Obj(members: seq<(string, JValue)>)
    | Arr(items: seq<JValue>)
    | Int(n: int)
    | Float(f: FloatLit)
    | Bool(b: bool)
    | Null
    | Str(s: string)
  {
    /** Objects and arrays: the values a generator must descend into. */
    predicate IsContainer() { Obj? || Arr? }
  }

  /** Number of container values in `v`, counting `v` itself. */
  function Containers(v: JValue): (n: nat)
    decreases v, 1
  {
    (if v.IsContainer() then 1 else 0) + ContainersBelow(v)
  }

  /** Number of container values strictly below `v`. */
  function ContainersBelow(v: JValue): (n: nat)
    decreases v, 0
  {
    match v
    case Obj(ms) => MembersContainers(ms)
    case Arr(items) => ItemsContainers(items)
    case _ => 0
  }

  function MembersContainers(ms: seq<(string, JValue)>): (n: nat)
    decreases ms
  {
    if ms == [] then 0 else
      assert ms[0].1 < ms[0];
      Containers(ms[0].1) + MembersContainers(ms[1..])
  }

  function ItemsContainers(items: seq<JValue>): (n: nat)
    decreases items
  {
    if items == [] then 0 else Containers(items[0]) + ItemsContainers(items[1..])
  }

  /** Number of values strictly below `v`: every member value and element, at any depth. */
  function ValuesBelow(v: JValue): (n: nat)
    decreases v
  {
    match v
    case Obj(ms) => MembersValues(ms)
    case Arr(items) => ItemsValues(items)
    case _ => 0
  }

  function MembersValues(ms: seq<(string, JValue)>): (n: nat)
    decreases ms
  {
    if ms == [] then 0 else
      assert ms[0].1 < ms[0];
      1 + ValuesBelow(ms[0].1) + MembersValues(ms[1..])
  }

  function ItemsValues(items: seq<JValue>): (n: nat)
    decreases items
  {
    if items == [] then 0 else 1 + ValuesBelow(items[0]) + ItemsValues(items[1..])
  }
}
