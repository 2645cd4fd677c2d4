/** What `d[...]`, `bytes(...)`, `list(...)` and `dict(...)` do to a value that the CBOR parser
    returned, including the exceptions they raise. */
module PyValues {
  import opened Bytes
  import opened Cbor
  import CborLaws
  import opened Fields

  /** `Caught` is a KeyError or a TypeError, which the bundle reader turns into a
      BundleDecodeError; `Uncaught` is any other exception, which passes through it. */
  datatype Py<+T> = Ok(value: T) | Caught | Uncaught {
    predicate IsFailure() { !Ok? }

    function PropagateFailure<U>(): Py<U>
      requires IsFailure()
    {
      if Caught? then Caught else Uncaught
    }

    function Extract(): T
      requires !IsFailure()
    {
      value
    }
  }

  /** `d[name]` */
  function Item(d: Value, name: string): (r: Py<Value>)
    ensures r.Ok? ==> d.Map? && Lookup(d.entries, Ascii(name)) == Some(r.value)
  {
    if d.Map? then
      match Lookup(d.entries, Ascii(name))
      case Some(v) => Ok(v)
      case None => Caught
    else
      Caught
  }

  /** `d.get(name, default)` */
  function Get(es: seq<Entry>, name: string, default: Value): Value {
    match Lookup(es, Ascii(name))
    case Some(v) => v
    case None => default
  }

  function Zeros(n: nat): (r: ByteString)
    ensures |r| == n
  {
    seq(n, _ => 0)
  }

  /** `bytes(v)`: a number gives that many zero bytes, a list its elements. */
  function PyBytes(v: Value): (r: Py<ByteString>) {
    match v
    case Bin(bs) => Ok(bs)
    case UInt(n) => Ok(Zeros(n))
    case Bool(b) => Ok(Zeros(if b then 1 else 0))
    case Array(items) => BytesOf(items)
    case Map(es) => if es == [] then Ok([]) else Caught
    case Text(_) => Caught
    case Null => Caught
  }

  function BytesOf(items: seq<Value>): (r: Py<ByteString>)
    ensures r.Ok? ==> |r.value| == |items|
  {
    if items == [] then Ok([])
    else if items[0].UInt? && items[0].n >= 0x100 then Uncaught
    else if !items[0].UInt? && !items[0].Bool? then Caught
    else
      var rest :- BytesOf(items[1..]);
      Ok([match items[0] case UInt(n) => n case Bool(b) => if b then 1 else 0 case _ => 0] + rest)
  }

  predicate IsContinuation(b: Byte) { 0x80 <= b < 0xc0 }

  /** The length of the first code point of a UTF-8 string. */
  function FirstLength(bs: ByteString): (n: nat)
    requires bs != []
    ensures 1 <= n <= |bs|
  {
    if |bs| > 1 && IsContinuation(bs[1]) then 1 + FirstLength(bs[1..]) else 1
  }

  function CodePoints(bs: ByteString): (r: seq<Value>)
    ensures |r| <= |bs|
  {
    if bs == [] then []
    else
      var n := FirstLength(bs);
      [Text(bs[..n])] + CodePoints(bs[n..])
  }

  /** `list(v)`, and what a `for` loop over `v` sees. */
  function PyList(v: Value): (r: Py<seq<Value>>) {
    match v
    case Array(items) => Ok(items)
    case Text(bs) => Ok(CodePoints(bs))
    case Bin(bs) => Ok(seq(|bs|, i requires 0 <= i < |bs| => UInt(bs[i])))
    case Map(es) => Ok(seq(|es|, i requires 0 <= i < |es| => Text(es[i].key)))
    case _ => Caught
  }

  /** `dict(v)` */
  function PyDict(v: Value): (r: Py<seq<Entry>>) {
    match v
    case Map(es) => Ok(es)
    case Array(items) => if items == [] then Ok([]) else Uncaught
    case Text(bs) => if bs == [] then Ok([]) else Uncaught
    case Bin(bs) => if bs == [] then Ok([]) else Caught
    case _ => Caught
  }

  /** `v == 1`, which also holds of True. */
  predicate EqualsOne(v: Value) { v == UInt(1) || v == Bool(true) }

  /** The number that `<` sees; None where it raises a TypeError. */
  function AsNumber(v: Value): Option<nat> {
    match v
    case UInt(n) => Some(n)
    case Bool(b) => Some(if b then 1 else 0)
    case _ => None
  }

  // ----- conversions keep values encodable

  lemma {:induction false} CodePointsValid(bs: ByteString)
    requires |bs| < TWO64
    ensures forall i :: 0 <= i < |CodePoints(bs)| ==> Valid(CodePoints(bs)[i])
  {
    if bs == [] {
    } else {
      CodePointsValid(bs[FirstLength(bs)..]);
    }
  }

  lemma {:induction false} PyListValid(v: Value)
    requires Valid(v) && PyList(v).Ok?
    ensures Valid(Array(PyList(v).value))
  {
    var items := PyList(v).value;
    match v {
      case Array(_) =>
      case Text(bs) => CodePointsValid(bs);
      case Bin(_) =>
      case Map(es) => CborLaws.ValidEntriesAt(es);
    }
    ValidArrayIff(items);
  }

  lemma {:induction false} PyDictValid(v: Value)
    requires Valid(v) && PyDict(v).Ok?
    ensures Valid(Map(PyDict(v).value))
  {
  }

  lemma {:induction false} PyBytesValid(v: Value)
    requires Valid(v) && PyBytes(v).Ok?
    ensures Valid(Bin(PyBytes(v).value))
  {
  }

  lemma {:induction false} ItemValid(d: Value, name: string)
    requires Valid(d) && Item(d, name).Ok?
    ensures Valid(Item(d, name).value)
  {
    LookupValid(d.entries, Ascii(name));
  }

  lemma {:induction false} GetValid(es: seq<Entry>, name: string, default: Value)
    requires Valid(Map(es)) && Valid(default)
    ensures Valid(Get(es, name, default))
  {
    LookupValid(es, Ascii(name));
  }
}
