/** Python values as the synchronisation code sees them: the decoded JSON of an
    upstream record, Python's truthiness, `dict.get` with and without a default,
    `str()` of a scalar, and an insertion-ordered dictionary. */
module Values {

  datatype Option<T> = None | Some(value: T)

  /** The exceptions that escape a normalisation step. */
  datatype Exception =
    | AttributeError   // `.get`, `.split` or `.rstrip` called on a value of the wrong kind
    | TypeError        // an unhashable value (a JSON object) used as a dictionary key
    | ValueError       // `datetime.fromisoformat` on text it does not accept

  datatype Result<T> = Ok(value: T) | Raised(cause: Exception)

  /** A JSON leaf: null, text or an integer. */
  datatype Scalar = Null | Text(s: string) | Int(i: int)

  /** A field of an upstream record: a leaf, or a nested group of leaves
      (`__system`, `entity`, `action`, `problem`). */
  datatype Value = Leaf(scalar: Scalar) | Group(fields: map<string, Scalar>)

  /** One upstream record (an entity or a submission). */
  type Record = map<string, Value>

  type Byte = b: int | 0 <= b < 256
  type Bytes = seq<Byte>

  /** Python truthiness of a leaf: None, "" and 0 are false. */
  predicate ScalarTruthy(x: Scalar) {
    match x
    case Null => false
    case Text(s) => s != ""
    case Int(i) => i != 0
  }

  /** Python truthiness of a field: an empty object is false as well. */
  predicate Truthy(v: Value) {
    match v
    case Leaf(x) => ScalarTruthy(x)
    case Group(m) => m != map[]
  }

  /** `d.get(key, default)` on a record or a nested group: the default applies
      only when the key is absent, never when it is present with a null value. */
  function GetOr<V>(m: map<string, V>, key: string, default: V): (v: V)
    ensures key in m ==> v == m[key]
    ensures key !in m ==> v == default
  {
    if key in m then m[key] else default
  }

  /** `record.get(key)`: a present key gives its value, an absent one None. */
  function Get(r: Record, key: string): (v: Value)
    ensures key in r ==> v == r[key]
    ensures key !in r ==> v == Leaf(Null)
  {
    GetOr(r, key, Leaf(Null))
  }

  /** `group.get(key)` on a nested group: a present key gives its leaf, an
      absent one None. */
  function Field(g: map<string, Scalar>, key: string): (x: Scalar)
    ensures key in g ==> x == g[key]
    ensures key !in g ==> x == Null
  {
    GetOr(g, key, Null)
  }

  /** `record.get(key, {})` followed by a `.get` on the result: an absent key gives
      the empty group, a leaf (None, text or a number) has no `.get`. */
  function GroupOf(r: Record, key: string): (g: Result<map<string, Scalar>>)
    ensures key !in r ==> g == Ok(map[])
    ensures key in r && r[key].Group? ==> g == Ok(r[key].fields)
    ensures g.Raised? <==> key in r && r[key].Leaf?
  {
    if key !in r then Ok(map[])
    else match r[key]
      case Group(m) => Ok(m)
      case Leaf(_) => Raised(AttributeError)
  }

  /** The decimal digit for 0 <= d < 10. */
  function DigitChar(d: int): (c: char)
    requires 0 <= d < 10
    ensures '0' <= c <= '9' && c as int - '0' as int == d
  {
    ('0' as int + d) as char
  }

  /** Decimal text of a natural number, most significant digit first. */
  function NatText(n: nat): (s: string)
    ensures |s| > 0
    ensures forall i :: 0 <= i < |s| ==> '0' <= s[i] <= '9'
    decreases n
  {
    if n < 10 then [DigitChar(n)] else NatText(n / 10) + [DigitChar(n % 10)]
  }

  /** `str(i)` for a Python integer. */
  function IntText(i: int): string {
    if i < 0 then "-" + NatText(-i) else NatText(i)
  }

  /** `str(x)` (and an f-string hole) for a leaf: None prints as "None". */
  function ScalarText(x: Scalar): string {
    match x
    case Null => "None"
    case Text(s) => s
    case Int(i) => IntText(i)
  }

  /** An f-string hole holding a field. The repr of a JSON object is not
      modelled: it is rendered as the empty text. */
  function ValueText(v: Value): string {
    match v
    case Leaf(x) => ScalarText(x)
    case Group(_) => ""
  }

  /** An insertion-ordered Python dict: `keys` in first-insertion order. */
  datatype Dict<K, V> = Dict(keys: seq<K>, entries: map<K, V>) {

    ghost predicate Valid() {
      && (forall i, j :: 0 <= i < j < |keys| ==> keys[i] != keys[j])
      && entries.Keys == set i | 0 <= i < |keys| :: keys[i]
    }

    /** `d[k] = v`: a new key goes to the end, an existing key keeps its place
        and gets the new value. */
    function Put(k: K, v: V): (d: Dict<K, V>)
      ensures Valid() ==> d.Valid()
      ensures d.entries == entries[k := v]
      ensures k in entries ==> d.keys == keys
      ensures k !in entries ==> d.keys == keys + [k]
    {
      if k in entries then Dict(keys, entries[k := v])
      else
        var ks := keys + [k];
        assert forall i :: 0 <= i < |keys| ==> ks[i] == keys[i];
        assert Valid() ==> (set i | 0 <= i < |ks| :: ks[i]) == (set i | 0 <= i < |keys| :: keys[i]) + {k} by {
          assert ks[|keys|] == k;
        }
        Dict(ks, entries[k := v])
    }

    /** `list(d.values())`, in dictionary order. */
    function Values(): (vs: seq<V>)
      requires Valid()
      ensures |vs| == |keys|
      ensures forall i :: 0 <= i < |keys| ==> vs[i] == entries[keys[i]]
    {
      seq(|keys|, i requires 0 <= i < |keys| => entries[keys[i]])
    }
  }

  function EmptyDict<K, V>(): (d: Dict<K, V>)
    ensures d.Valid() && d.keys == []
  {
    Dict([], map[])
  }
}
