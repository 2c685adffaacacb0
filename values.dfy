/**
 * The values a stream decodes to and the state of a DivirganceRecord, as
 * values: the record operations put, remove, putAll and clear as functions
 * on that state, the strict equality and the hash code.
 */
module Values {
  import opened Base

  /** A decoded value: Java null or an object of one of the classes the decoder creates. */
  datatype Value =
    | Null
    | Str(text: Text)          // java.lang.String (tags 0x01 and 0x0B)
    | Obj(rec: Rec)            // DivirganceRecord (tag 0x02)
    | Arr(items: seq<Value>)   // java.util.ArrayList (tag 0x03)
    | I32(n: int)              // java.lang.Integer (tags 0x04, 0x20, 0x21)
    | I64(n: int)              // java.lang.Long (tag 0x05)
    | I16(n: int)             // java.lang.Short (tag 0x09)
    | I8(n: int)               // java.lang.Byte (tag 0x0A)
    | F64(bits: nat)           // java.lang.Double, by its IEEE-754 bit pattern (tag 0x06)
    | F32(bits: nat)           // java.lang.Float, by its IEEE-754 bit pattern (tag 0x08)
    | Bool(b: bool)            // java.lang.Boolean (tags 'T' and 'F')
    | Date(millis: int)        // java.util.Date (tag 0x07)

  /**
   * The fields of a DivirganceRecord: whether it keeps insertion order, the
   * ordered key list (empty when it does not), and the HashMap.
   */
  datatype Rec = Rec(ordered: bool, orderedKeys: seq<Text>, fields: map<Text, Value>)

  /** The Java class of a non-null value, which getClass() compares. */
  datatype Kind = StringClass | RecordClass | ListClass | IntegerClass | LongClass
                | ShortClass | ByteClass | DoubleClass | FloatClass | BooleanClass | DateClass

  function KindOf(v: Value): Kind
    requires !v.Null?
  {
    match v
    case Str(_) => StringClass
    case Obj(_) => RecordClass
    case Arr(_) => ListClass
    case I32(_) => IntegerClass
    case I64(_) => LongClass
    case I16(_) => ShortClass
    case I8(_) => ByteClass
    case F64(_) => DoubleClass
    case F32(_) => FloatClass
    case Bool(_) => BooleanClass
    case Date(_) => DateClass
  }

  predicate NoDuplicates(s: seq<Text>)
  {
    forall i, j | 0 <= i < j < |s| :: s[i] != s[j]
  }

  /** map.get(key): the stored value, or null when the key is absent. */
  function Get(r: Rec, key: Text): (v: Value)
    ensures v.Null? <==> key !in r.fields || r.fields[key].Null?
  {
    if key in r.fields then r.fields[key] else Null
  }

  /** keySet(): the ordered key list when the record is ordered, else the map's keys. */
  function KeySet(r: Rec): set<Text>
  {
    if r.ordered then set k | k in r.orderedKeys else r.fields.Keys
  }

  /**
   * What every DivirganceRecord satisfies: the ordered key list has no
   * duplicates and holds only keys of the map, and it is empty when the record
   * is not ordered.
   */
  ghost predicate Sound(r: Rec)
  {
    && NoDuplicates(r.orderedKeys)
    && (forall k | k in r.orderedKeys :: k in r.fields)
    && (!r.ordered ==> r.orderedKeys == [])
  }

  /** Sound, and keySet() is exactly the set of keys of the map. */
  ghost predicate Consistent(r: Rec)
  {
    Sound(r) && KeySet(r) == r.fields.Keys
  }

  /** new DivirganceRecord(ordered), and new DivirganceRecord() with ordered = true. */
  function Empty(ordered: bool): (r: Rec)
    ensures Consistent(r) && r.fields == map[] && KeySet(r) == {}
  {
    Rec(ordered, [], map[])
  }

  /** The argument of the copy constructor: another DivirganceRecord, or any other Map. */
  datatype Source = FromRecord(r: Rec) | FromMap(m: map<Text, Value>)

  /**
   * new DivirganceRecord(map): always ordered; the ordered key list is copied
   * only from an ordered DivirganceRecord and is otherwise left empty.
   */
  function CopyOf(src: Source): (r: Rec)
    requires src.FromRecord? ==> Sound(src.r)
    ensures Sound(r) && r.ordered
    ensures r.fields == (match src case FromRecord(o) => o.fields case FromMap(m) => m)
  {
    match src
    case FromRecord(o) => if o.ordered then Rec(true, o.orderedKeys, o.fields) else Rec(true, [], o.fields)
    case FromMap(m) => Rec(true, [], m)
  }

  /** put(key, value). */
  function Put(r: Rec, key: Text, v: Value): (r': Rec)
    ensures Sound(r) ==> Sound(r')
    ensures Consistent(r) ==> Consistent(r')
    ensures r'.fields == r.fields[key := v] && r'.ordered == r.ordered
  {
    if r.ordered && key !in r.orderedKeys then Rec(r.ordered, r.orderedKeys + [key], r.fields[key := v])
    else Rec(r.ordered, r.orderedKeys, r.fields[key := v])
  }

  /** ArrayList.remove(Object): drops the first occurrence, if any. */
  function RemoveFirst(s: seq<Text>, key: Text): (s': seq<Text>)
    ensures key !in s ==> s' == s
    ensures forall k :: k in s' ==> k in s
  {
    if s == [] then []
    else if s[0] == key then s[1..]
    else [s[0]] + RemoveFirst(s[1..], key)
  }

  /** remove(key). */
  function Remove(r: Rec, key: Text): (r': Rec)
    ensures r'.fields == r.fields - {key} && r'.ordered == r.ordered
  {
    Rec(r.ordered, if r.ordered then RemoveFirst(r.orderedKeys, key) else r.orderedKeys, r.fields - {key})
  }

  /** The loop of putAll: appends, in order, each key the list does not hold yet. */
  function AppendNew(keys: seq<Text>, order: seq<Text>): (s: seq<Text>)
    decreases order
  {
    if order == [] then keys
    else AppendNew(if order[0] in keys then keys else keys + [order[0]], order[1..])
  }

  /**
   * putAll(m), where order is the iteration order of m.keySet() and entries
   * the pairs that the underlying HashMap receives.
   */
  function PutAll(r: Rec, order: seq<Text>, entries: map<Text, Value>): (r': Rec)
    ensures r'.fields == r.fields + entries && r'.ordered == r.ordered
  {
    Rec(r.ordered, if r.ordered then AppendNew(r.orderedKeys, order) else r.orderedKeys, r.fields + entries)
  }

  /** clear(). */
  function Clear(r: Rec): (r': Rec)
    ensures Consistent(r') && r'.fields == map[] && KeySet(r') == {} && r'.ordered == r.ordered
  {
    Rec(r.ordered, [], map[])
  }

  // ---------------------------------------------------------------------------
  // Equality and hashing

  /** Double.equals compares doubleToLongBits, which maps every NaN to one pattern. */
  function CanonicalDouble(bits: nat): nat
  {
    if (bits / 0x10_0000_0000_0000) % 0x800 == 0x7FF && bits % 0x10_0000_0000_0000 != 0
    then 0x7FF8_0000_0000_0000 else bits
  }

  /** Float.equals compares floatToIntBits, which maps every NaN to one pattern. */
  function CanonicalFloat(bits: nat): nat
  {
    if (bits / 0x80_0000) % 0x100 == 0xFF && bits % 0x80_0000 != 0 then 0x7FC0_0000 else bits
  }

  /**
   * l.equals(r) for a non-null l (and null == null for a null l): the record
   * case is DivirganceRecord.equals, the list case ArrayList.equals, and each
   * scalar's equals accepts only an object of its own class.
   */
  predicate Equal(l: Value, r: Value)
    decreases l, 0
  {
    match l
    case Null => r.Null?
    case Obj(a) =>
      && r.Obj?
      && |r.rec.fields| == |a.fields|
      && forall k | k in KeySet(a) :: FieldMatches(a, r.rec, k)
    case Arr(xs) =>
      && r.Arr?
      && |xs| == |r.items|
      && forall i | 0 <= i < |xs| :: if xs[i].Null? then r.items[i].Null? else Equal(xs[i], r.items[i])
    case Str(t) => r.Str? && r.text == t
    case I32(n) => r.I32? && r.n == n
    case I64(n) => r.I64? && r.n == n
    case I16(n) => r.I16? && r.n == n
    case I8(n) => r.I8? && r.n == n
    case F64(bits) => r.F64? && CanonicalDouble(r.bits) == CanonicalDouble(bits)
    case F32(bits) => r.F32? && CanonicalFloat(r.bits) == CanonicalFloat(bits)
    case Bool(b) => r.Bool? && r.b == b
    case Date(ms) => r.Date? && r.millis == ms
  }

  /**
   * The per-key test of DivirganceRecord.equals: both null, or both non-null
   * of the identical class and equal.
   */
  predicate StrictlyEqual(l: Value, r: Value)
    decreases l, 1
  {
    || (l.Null? && r.Null?)
    || (!l.Null? && !r.Null? && KindOf(l) == KindOf(r) && Equal(l, r))
  }

  /**
   * One step of the loop of DivirganceRecord.equals: the other record holds
   * the key, and this record's value for it (null when absent) is strictly
   * equal to the other's.
   */
  predicate FieldMatches(a: Rec, b: Rec, k: Text)
    decreases a, 2
  {
    && k in b.fields
    && (if k in a.fields then StrictlyEqual(a.fields[k], b.fields[k]) else b.fields[k].Null?)
  }

  /** DivirganceRecord.equals between two records. */
  predicate RecordEquals(a: Rec, b: Rec)
  {
    Equal(Obj(a), Obj(b))
  }

  /**
   * Java int arithmetic: the 32-bit two's complement wrap-around of x,
   * reached by adding or subtracting 2^32 until x is in int range.
   */
  function Wrap32(x: int): (w: int)
    ensures -0x8000_0000 <= w < 0x8000_0000
    decreases if x < -0x8000_0000 then -0x8000_0000 - x else if x < 0x8000_0000 then 0 else x
  {
    if x < -0x8000_0000 then Wrap32(x + 0x1_0000_0000)
    else if x < 0x8000_0000 then x
    else Wrap32(x - 0x1_0000_0000)
  }

  /** What key k adds to the hash: its value's hashCode(), or nothing for null. */
  function HashTerm(r: Rec, k: Text, hashOf: Value -> int): int
  {
    if Get(r, k).Null? then 0 else hashOf(Get(r, k))
  }

  /** The unbounded sum of the hash terms of the keys in ks. */
  ghost function HashSum(r: Rec, ks: set<Text>, hashOf: Value -> int): int
    decreases ks
  {
    if ks == {} then 0
    else
      var k :| k in ks;
      HashTerm(r, k, hashOf) + HashSum(r, ks - {k}, hashOf)
  }

  /** hashCode(): 0xC0FFEE plus the value hashes plus size(), in Java int arithmetic. */
  ghost function HashCode(r: Rec, hashOf: Value -> int): int
  {
    Wrap32(0xC0FFEE + HashSum(r, KeySet(r), hashOf) + |r.fields|)
  }
}
