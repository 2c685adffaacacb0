/**
 * The value stream read by BinaryDecoder, as functions on the unread bytes: a
 * tag byte selects how the value that follows is laid out. Control tags change
 * the key and string dictionaries and then decode the next value.
 */
module Wire {
  import opened Base
  import opened DataIO
  import opened Values
  import opened Keys
  import opened Strings

  const TypeNull: Byte := 0x00
  const TypeString: Byte := 0x01
  const TypeObject: Byte := 0x02
  const TypeArray: Byte := 0x03
  const TypeInteger: Byte := 0x04
  const TypeLong: Byte := 0x05
  const TypeDouble: Byte := 0x06
  const TypeDate: Byte := 0x07
  const TypeFloat: Byte := 0x08
  const TypeShort: Byte := 0x09
  const TypeByte: Byte := 0x0A
  const TypeClob: Byte := 0x0B
  const TypeIntegerU8: Byte := 0x20
  const TypeIntegerU16: Byte := 0x21
  /** 'F' and 'T'. */
  const TypeBooleanFalse: Byte := 0x46
  const TypeBooleanTrue: Byte := 0x54
  const TypeEof: Byte := 0xFF

  /** The tags read as a fixed number of payload bytes. */
  predicate IsFixed(tag: Byte)
  {
    || tag == TypeInteger || tag == TypeLong || tag == TypeDouble || tag == TypeDate
    || tag == TypeFloat || tag == TypeShort || tag == TypeByte
    || tag == TypeIntegerU8 || tag == TypeIntegerU16
  }

  /** Every tag the switch of read() names, the string-register tag aside. */
  predicate Handled(tag: Byte)
  {
    || IsFixed(tag)
    || tag == TypeNull || tag == TypeString || tag == TypeObject || tag == TypeArray
    || tag == TypeClob || tag == TypeBooleanFalse || tag == TypeBooleanTrue || tag == TypeEof
    || tag == KeyRegister || tag == KeyReset
  }

  /**
   * The string-register tag is a constant of StringEncoder, which is not part
   * of this model: it is a parameter, distinct from every other case label.
   */
  type StringTag = t: Byte | !Handled(t) witness 0xF3

  /** How many payload bytes a fixed-width tag reads. */
  function Width(tag: Byte): (w: nat)
    requires IsFixed(tag)
    ensures 1 <= w <= 8
  {
    if tag == TypeLong || tag == TypeDouble || tag == TypeDate then 8
    else if tag == TypeInteger || tag == TypeFloat then 4
    else if tag == TypeShort || tag == TypeIntegerU16 then 2
    else 1
  }

  /** Whether a fixed-width payload is read as a two's complement number. */
  predicate IsSigned(tag: Byte)
  {
    tag == TypeInteger || tag == TypeLong || tag == TypeDate || tag == TypeShort || tag == TypeByte
  }

  /** The Java object a fixed-width payload becomes. */
  function Number(tag: Byte, n: int): Value
    requires IsFixed(tag) && (!IsSigned(tag) ==> n >= 0)
  {
    if tag == TypeInteger || tag == TypeIntegerU8 || tag == TypeIntegerU16 then I32(n)
    else if tag == TypeLong then I64(n)
    else if tag == TypeDouble then F64(n)
    else if tag == TypeDate then Date(n)
    else if tag == TypeFloat then F32(n)
    else if tag == TypeShort then I16(n)
    else I8(n)
  }

  /** The key table and the string table a decoder holds. */
  datatype Dicts = Dicts(keys: seq<Text>, strings: seq<Text>)

  /** A decoded value, what is left of the input and the dictionaries afterwards; or the error. */
  datatype Step<+T> = Done(v: T, rest: seq<Byte>, dicts: Dicts) | Failed(e: Error)

  /**
   * read(in): the dictionary operations register or reset an entry and then
   * read on; every other tag is a value.
   */
  function Decode(s: seq<Byte>, d: Dicts, stag: StringTag): (r: Step<Value>)
    ensures r.Done? ==> |r.rest| < |s|
    decreases |s|, 0
  {
    if s == [] then Failed(EndOfStream)
    else
      var tag, t := s[0], s[1..];
      if tag == KeyRegister then
        var g := ReadStep(d.keys, t);
        if g.r.Err? then Failed(g.r.error) else Decode(g.rest, d.(keys := g.r.value), stag)
      else if tag == KeyReset then Decode(t, d.(keys := []), stag)
      else if tag == stag then
        var g := StringRead(d.strings, t);
        if g.r.Err? then Failed(g.r.error) else Decode(g.rest, d.(strings := g.r.value), stag)
      else DecodeValue(tag, t, d, stag)
  }

  /** The cases of read(in) that yield a value, or fail on an unknown tag. */
  function DecodeValue(tag: Byte, t: seq<Byte>, d: Dicts, stag: StringTag): (r: Step<Value>)
    ensures r.Done? ==> |r.rest| <= |t|
    decreases |t|, 4
  {
    if tag == TypeNull || tag == TypeEof then Done(Null, t, d)
    else if tag == TypeString then DecodeStringRef(t, d)
    else if tag == TypeObject then
      match DecodeObject(t, d, stag)
      case Done(rec, rest, d') => Done(Obj(rec), rest, d')
      case Failed(e) => Failed(e)
    else if tag == TypeArray then DecodeArray(t, d, stag)
    else if IsFixed(tag) then DecodeFixed(tag, t, d)
    else if tag == TypeBooleanTrue then Done(Bool(true), t, d)
    else if tag == TypeBooleanFalse then Done(Bool(false), t, d)
    else if tag == TypeClob then DecodeClob(t, d)
    else Failed(UnknownType(tag))
  }

  /** Tag 0x01: one unsigned byte naming a registered string. */
  function DecodeStringRef(t: seq<Byte>, d: Dicts): (r: Step<Value>)
    ensures r.Done? ==> r.v.Str? && r.v.text in d.strings && r.dicts == d && |r.rest| < |t|
  {
    var g := TakeUnsigned(t, 1);
    if g.r.Err? then Failed(g.r.error)
    else
      match StringAt(d.strings, g.r.value)
      case Ok(x) => Done(Str(x), g.rest, d)
      case Err(e) => Failed(e)
  }

  /** A fixed-width tag: its payload as a number of the tag's kind. */
  function DecodeFixed(tag: Byte, t: seq<Byte>, d: Dicts): (r: Step<Value>)
    requires IsFixed(tag)
    ensures r.Done? ==> r.dicts == d && Width(tag) <= |t| && r.rest == t[Width(tag)..] && !r.v.Obj? && !r.v.Arr?
    ensures r.Failed? <==> |t| < Width(tag)
  {
    var g := if IsSigned(tag) then TakeSigned(t, Width(tag)) else TakeUnsigned(t, Width(tag));
    if g.r.Err? then Failed(g.r.error) else Done(Number(tag, g.r.value), g.rest, d)
  }

  /** Tag 0x0B, readCLOB: a signed length and that many bytes. */
  function DecodeClob(t: seq<Byte>, d: Dicts): (r: Step<Value>)
    ensures r.Done? ==> r.v.Str? && r.dicts == d && 4 <= |t| && t == t[..4] + r.v.text + r.rest
  {
    var g := TakeSigned(t, 4);
    if g.r.Err? then Failed(g.r.error)
    else if g.r.value < 0 then Failed(NegativeArraySize(g.r.value))
    else
      var b := Take(g.rest, g.r.value);
      if b.r.Err? then Failed(b.r.error) else Done(Str(b.r.value), b.rest, d)
  }

  /** Tag 0x03, readArray: a signed count, then the items. */
  function DecodeArray(t: seq<Byte>, d: Dicts, stag: StringTag): (r: Step<Value>)
    ensures r.Done? ==> r.v.Arr? && |r.rest| < |t|
    decreases |t|, 3
  {
    var g := TakeSigned(t, 4);
    if g.r.Err? then Failed(g.r.error)
    else
      match DecodeItems(g.r.value, g.rest, d, [], stag)
      case Done(xs, rest, d') => Done(Arr(xs), rest, d')
      case Failed(e) => Failed(e)
  }

  /** readObject(in): a u16 count, that many u16 key ids, then one value per id. */
  function DecodeObject(s: seq<Byte>, d: Dicts, stag: StringTag): (r: Step<Rec>)
    ensures r.Done? ==> |r.rest| <= |s| && r.v.ordered
    decreases |s|, 2
  {
    var n := TakeUnsigned(s, 2);
    if n.r.Err? then Failed(n.r.error)
    else
      var ids := TakeIds(n.rest, n.r.value);
      if ids.r.Err? then Failed(ids.r.error)
      else DecodeFields(ids.r.value, ids.rest, d, Empty(true), stag)
  }

  /** The id table of an object: n big-endian u16 values. */
  function TakeIds(s: seq<Byte>, n: nat): (g: Got<seq<int>>)
    ensures g.r.Ok? ==> |g.r.value| == n && 2 * n <= |s| && g.rest == s[2 * n..]
    ensures g.r.Err? ==> g.r.error == EndOfStream && g.rest == []
  {
    if n == 0 then Got(Ok([]), s)
    else
      var first := TakeUnsigned(s, 2);
      if first.r.Err? then Got(Err(first.r.error), first.rest)
      else
        var more := TakeIds(first.rest, n - 1);
        if more.r.Err? then more
        else
          assert s[2..][2 * (n - 1)..] == s[2 * n..];
          Got(Ok([first.r.value] + more.r.value), more.rest)
  }

  /**
   * The second loop of readObject: for each id, the key is looked up before
   * the value is read, then the pair is put into the record.
   */
  function DecodeFields(ids: seq<int>, s: seq<Byte>, d: Dicts, acc: Rec, stag: StringTag): (r: Step<Rec>)
    ensures r.Done? ==> |r.rest| <= |s| && r.v.ordered == acc.ordered
    decreases |s|, 1
  {
    if ids == [] then Done(acc, s, d)
    else
      match KeyAt(d.keys, ids[0])
      case Err(e) => Failed(e)
      case Ok(key) =>
        match Decode(s, d, stag)
        case Failed(e) => Failed(e)
        case Done(v, rest, d') => DecodeFields(ids[1..], rest, d', Put(acc, key, v), stag)
  }

  /** The loop of readArray: n values in order; none when n <= 0. */
  function DecodeItems(n: int, s: seq<Byte>, d: Dicts, acc: seq<Value>, stag: StringTag): (r: Step<seq<Value>>)
    ensures r.Done? ==> |r.rest| <= |s|
    ensures r.Done? ==> |r.v| == |acc| + (if n <= 0 then 0 else n) && r.v[..|acc|] == acc
    decreases |s|, 1
  {
    if n <= 0 then Done(acc, s, d)
    else
      match Decode(s, d, stag)
      case Failed(e) => Failed(e)
      case Done(v, rest, d') =>
        assert (acc + [v])[..|acc|] == acc;
        DecodeItems(n - 1, rest, d', acc + [v], stag)
  }
}
