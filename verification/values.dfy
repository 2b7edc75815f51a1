/** The JavaScript values the console passes around, reduced to what its
    logic inspects. A plain object is a `Record` from property names to
    strings; a property that is missing, `undefined` or `null` is simply not
    a key of the map. */
module Values {

  datatype Option<+T> = None | Some(value: T)

  type Record = map<string, string>

  /** Reading a property: `Some` when the object has it, `None` for a
      missing, `undefined` or `null` property. */
  function Get(r: Record, key: string): (v: Option<string>)
    ensures v.Some? <==> key in r
    ensures v.Some? ==> v.value == r[key]
  {
    if key in r then Some(r[key]) else None
  }

  /** JavaScript truthiness of an optional string: present and non-empty. */
  predicate Truthy(v: Option<string>) {
    v.Some? && v.value != ""
  }

  /** `a || b` on optional strings: `a` when it is truthy, otherwise `b`
      (even when `b` is itself falsy). */
  function OrElse(a: Option<string>, b: Option<string>): (r: Option<string>)
    ensures Truthy(r) <==> Truthy(a) || Truthy(b)
    ensures Truthy(a) ==> r == a
    ensures !Truthy(a) ==> r == b
  {
    if Truthy(a) then a else b
  }

  /** An object literal `{k1: o.k1, ..., kn: o.kn}` built from `o`: it has
      exactly those of the listed properties that `o` has, with `o`'s values. */
  function Pick(r: Record, keys: set<string>): (p: Record)
    ensures p.Keys == r.Keys * keys
    ensures forall k :: k in keys ==> Get(p, k) == Get(r, k)
  {
    map k | k in r && k in keys :: r[k]
  }

  /** Picking keys from an already picked object changes nothing more. */
  lemma PickTwice(r: Record, keys: set<string>, more: set<string>)
    requires keys <= more
    ensures Pick(Pick(r, more), keys) == Pick(r, keys)
  {
  }

  /** A decoded HTTP response body: a JSON array of objects, a JSON object,
      some other text, or `null`. */
  datatype Body =
    | ArrayBody(items: seq<Record>)
    | ObjectBody(fields: Record)
    | TextBody(text: string)
    | NullBody
}
