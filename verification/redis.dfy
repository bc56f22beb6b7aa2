/**
 * The shared key-value store as the model store sees it: one flat map from
 * keys to tagged values, and the five commands it issues, each one atomic
 * step. Errors a command raises are `Err` results; a failing command changes
 * nothing.
 */
module Redis {
  import opened Outcome
  import opened Decimal

  const MaxInt64: int := 0x7fff_ffff_ffff_ffff
  const MinInt64: int := -0x8000_0000_0000_0000

  /** Redis counters are signed 64-bit integers. */
  type Int64 = x: int | MinInt64 <= x <= MaxInt64

  /** The fitted anomaly model; its numbers are carried, never computed on, here. */
  datatype Model = AnomalyModel(mean: real, std: real)

  /**
   * A stored value: an integer written by INCR, a serialized model (the codec
   * is the identity, so the blob is the model), a plain string, or a list.
   */
  datatype Value =
    | Int(n: Int64)
    | Blob(model: Model)
    | Text(text: string)
    | List(items: seq<string>)

  /** What a command, or decoding what it returned, can raise. */
  datatype Failure =
    | WrongType     // a string command on a list, or a list command on a string
    | NotAnInteger  // INCR on a value that is not an integer
    | IncrOverflow  // INCR past the largest 64-bit integer
    | Undecodable   // the bytes are not a pickled model, or not UTF-8 text

  type Store = map<string, Value>

  /** What the map holds at a key, with absence made explicit. */
  function Lookup(st: Store, k: string): Option<Value> {
    if k in st then Some(st[k]) else None
  }

  /** GET: the value at a string key, None when unset. */
  function Get(st: Store, k: string): (r: Result<Option<Value>, Failure>)
    ensures r.Err? <==> k in st && st[k].List?
    ensures r.Err? ==> r.error == WrongType
    ensures r.Ok? ==> r.value == Lookup(st, k)
  {
    if k !in st then Ok(None)
    else if st[k].List? then Err(WrongType)
    else Ok(Some(st[k]))
  }

  /** SET: overwrites whatever the key held, of any type. */
  function Set(st: Store, k: string, v: Value): (st': Store)
    ensures Lookup(st', k) == Some(v)
    ensures forall j :: j != k ==> Lookup(st', j) == Lookup(st, j)
  {
    st[k := v]
  }

  /** INCR: an unset key counts from 0; returns the new value. */
  function Incr(st: Store, k: string): (r: Result<(Store, Int64), Failure>)
    ensures r.Ok? <==> k !in st || (st[k].Int? && st[k].n < MaxInt64)
    ensures k in st && st[k] == Int(MaxInt64) ==> r == Err(IncrOverflow)
    ensures k in st && st[k].List? ==> r == Err(WrongType)
    ensures k in st && (st[k].Blob? || st[k].Text?) ==> r == Err(NotAnInteger)
    ensures r.Ok? ==> r.value.1 == (if k in st then st[k].n else 0) + 1
    ensures r.Ok? ==> r.value.0 == st[k := Int(r.value.1)]
  {
    if k !in st then Ok((st[k := Int(1)], 1))
    else match st[k]
      case Int(n) => if n == MaxInt64 then Err(IncrOverflow) else Ok((st[k := Int(n + 1)], n + 1))
      case List(_) => Err(WrongType)
      case _ => Err(NotAnInteger)
  }

  /** RPUSH of one element: an unset key becomes a one-element list. */
  function RPush(st: Store, k: string, x: string): (r: Result<Store, Failure>)
    ensures r.Ok? <==> k !in st || st[k].List?
    ensures r.Err? ==> r.error == WrongType
    ensures r.Ok? ==> r.value == st[k := List((if k in st then st[k].items else []) + [x])]
  {
    if k !in st then assert [] + [x] == [x]; Ok(st[k := List([x])])
    else match st[k]
      case List(xs) => Ok(st[k := List(xs + [x])])
      case _ => Err(WrongType)
  }

  /** LRANGE k 0 -1: the whole list, empty when unset. */
  function LRangeAll(st: Store, k: string): (r: Result<seq<string>, Failure>)
    ensures r.Ok? <==> k !in st || st[k].List?
    ensures r.Err? ==> r.error == WrongType
    ensures r.Ok? ==> r.value == (if k in st then st[k].items else [])
  {
    if k !in st then Ok([])
    else match st[k]
      case List(xs) => Ok(xs)
      case _ => Err(WrongType)
  }

  /** Python truthiness of the bytes GET returns: only the empty string is false. */
  predicate IsEmptyBytes(v: Value) {
    v.Text? && v.text == ""
  }

  /**
   * `bytes.decode("utf-8")` of a string value: a counter reads back as its
   * decimal digits, and a pickled model is not valid UTF-8.
   */
  function DecodeText(v: Value): (r: Result<string, Failure>)
    ensures v.Text? ==> r == Ok(v.text)
    ensures v.Int? ==> r.Ok? && |r.value| >= 1 && (v.n >= 0 ==> Canonical(r.value) && ParseDigits(r.value) == v.n)
    ensures v.Int? && v.n < 0 ==>
      r.Ok? && r.value[0] == '-' && Canonical(r.value[1..]) && ParseDigits(r.value[1..]) == -(v.n as int)
    ensures v.Blob? ==> r == Err(Undecodable)
    ensures v.List? ==> r == Err(WrongType)
  {
    match v
    case Text(t) => Ok(t)
    case Int(n) => RenderValue(n); Ok(Render(n))
    case Blob(_) => Err(Undecodable)
    case List(_) => Err(WrongType)
  }
}
