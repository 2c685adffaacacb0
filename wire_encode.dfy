/**
 * A writer for the value stream, as a specification: no value encoder is part
 * of the modelled code, so this is the layout read(in) expects, written out
 * value by value, and the round trip through Decode is proved.
 */
module WireEncode {
  import opened Base
  import opened DataIO
  import opened Values
  import opened RecordLaws
  import opened Keys
  import opened Strings
  import opened Wire
  import opened WireLaws

  /**
   * The values a stream can carry back unchanged with dictionaries d: every
   * number fits its field, every record is ordered with consistent keys that
   * d already holds, and every length fits its count field.
   */
  ghost predicate Encodable(v: Value, d: Dicts)
    decreases v
  {
    match v
    case Null => true
    case Str(x) => |x| < Half(4)
    case Obj(r) =>
      && r.ordered && Consistent(r) && |r.orderedKeys| < Pow256(2)
      && (forall k | k in r.orderedKeys :: k in d.keys)
      && (forall k | k in r.fields :: Encodable(r.fields[k], d))
    case Arr(xs) => |xs| < Half(4) && forall i | 0 <= i < |xs| :: Encodable(xs[i], d)
    case I32(n) => -Half(4) <= n < Half(4)
    case I64(n) => -Half(8) <= n < Half(8)
    case I16(n) => -Half(2) <= n < Half(2)
    case I8(n) => -Half(1) <= n < Half(1)
    case F64(bits) => bits < Pow256(8)
    case F32(bits) => bits < Pow256(4)
    case Bool(_) => true
    case Date(millis) => -Half(8) <= millis < Half(8)
  }

  /** A signed number as its tag and its big-endian two's complement payload. */
  ghost function Signed(tag: Byte, n: int, w: nat): (bs: seq<Byte>)
    requires -Half(w) <= n < Half(w)
    ensures |bs| == 1 + w
  {
    [tag] + BigEndian(FromSigned(n, w), w)
  }

  /** The stream form of v: strings as CLOBs, records through the key ids of d. */
  ghost function Encode(v: Value, d: Dicts): (bs: seq<Byte>)
    requires Encodable(v, d) && |d.keys| <= Capacity
    ensures |bs| >= 1
    decreases v, 1
  {
    match v
    case Null => [TypeNull]
    case Str(x) => Signed(TypeClob, |x|, 4) + x
    case Obj(r) =>
      [TypeObject] + BigEndian(|r.orderedKeys|, 2) + IdTable(r.orderedKeys, d)
      + EncodeFields(r, r.orderedKeys, d)
    case Arr(xs) => Signed(TypeArray, |xs|, 4) + EncodeItems(xs, 0, d)
    case I32(n) => Signed(TypeInteger, n, 4)
    case I64(n) => Signed(TypeLong, n, 8)
    case I16(n) => Signed(TypeShort, n, 2)
    case I8(n) => Signed(TypeByte, n, 1)
    case F64(bits) => [TypeDouble] + BigEndian(bits, 8)
    case F32(bits) => [TypeFloat] + BigEndian(bits, 4)
    case Bool(b) => [if b then TypeBooleanTrue else TypeBooleanFalse]
    case Date(millis) => Signed(TypeDate, millis, 8)
  }

  /** The id of each key in d, as u16 fields. */
  ghost function IdTable(ks: seq<Text>, d: Dicts): (bs: seq<Byte>)
    requires |d.keys| <= Capacity && forall k | k in ks :: k in d.keys
    ensures |bs| == 2 * |ks|
  {
    if ks == [] then []
    else
      LastIdsFacts(d.keys);
      BigEndian(LastIds(d.keys)[ks[0]], 2) + IdTable(ks[1..], d)
  }

  /** The values of the keys ks of r, one after the other. */
  ghost function EncodeFields(r: Rec, ks: seq<Text>, d: Dicts): seq<Byte>
    requires |d.keys| <= Capacity && forall k | k in ks :: k in r.fields
    requires forall k | k in r.fields :: Encodable(r.fields[k], d)
    decreases Obj(r), 0, |ks|
  {
    if ks == [] then []
    else Encode(r.fields[ks[0]], d) + EncodeFields(r, ks[1..], d)
  }

  /** The items i.. of a list, one after the other. */
  ghost function EncodeItems(xs: seq<Value>, i: nat, d: Dicts): seq<Byte>
    requires |d.keys| <= Capacity && i <= |xs| && forall j | 0 <= j < |xs| :: Encodable(xs[j], d)
    decreases Arr(xs), 0, |xs| - i
  {
    if i == |xs| then []
    else
      assert xs[i] in xs;
      Encode(xs[i], d) + EncodeItems(xs, i + 1, d)
  }

  /** The first i keys of an ordered record, with their values. */
  ghost function Prefix(r: Rec, i: nat): Rec
    requires i <= |r.orderedKeys| && forall k | k in r.orderedKeys :: k in r.fields
  {
    Rec(true, r.orderedKeys[..i], map k | k in r.orderedKeys[..i] :: r.fields[k])
  }

  /** Putting the next key of an ordered record extends the prefix by that key. */
  lemma PrefixStep(r: Rec, i: nat)
    requires Sound(r) && i < |r.orderedKeys|
    ensures Put(Prefix(r, i), r.orderedKeys[i], r.fields[r.orderedKeys[i]]) == Prefix(r, i + 1)
  {
    var k := r.orderedKeys[i];
    assert r.orderedKeys[..i + 1] == r.orderedKeys[..i] + [k];
    assert k !in r.orderedKeys[..i];
  }

  /** A consistent ordered record is its full prefix, and its empty prefix is a new record. */
  lemma PrefixEnds(r: Rec)
    requires Consistent(r) && r.ordered
    ensures Prefix(r, 0) == Empty(true) && Prefix(r, |r.orderedKeys|) == r
  {
    assert r.orderedKeys[..|r.orderedKeys|] == r.orderedKeys;
    assert (set k | k in r.orderedKeys) == r.fields.Keys;
  }

  /** Reading back an id table gives the ids, and each id names its key. */
  lemma {:induction false} TakeIdTable(ks: seq<Text>, d: Dicts, rest: seq<Byte>)
    requires |d.keys| <= Capacity && forall k | k in ks :: k in d.keys
    ensures var g := TakeIds(IdTable(ks, d) + rest, |ks|);
      && g.r.Ok? && g.rest == rest && |g.r.value| == |ks|
      && forall i | 0 <= i < |ks| :: KeyAt(d.keys, g.r.value[i]) == Ok(ks[i])
  {
    LastIdsFacts(d.keys);
    if ks != [] {
      var id := LastIds(d.keys)[ks[0]];
      var tail := IdTable(ks[1..], d) + rest;
      assert IdTable(ks, d) + rest == BigEndian(id, 2) + tail;
      TakeUnsignedOf(id, 2, tail);
      TakeIdTable(ks[1..], d, rest);
      var more := TakeIds(tail, |ks| - 1);
      assert TakeIds(IdTable(ks, d) + rest, |ks|).r.value == [id] + more.r.value;
    }
  }

  /** Decoding the encoded values of keys i.. of r, after the prefix, rebuilds r. */
  lemma {:induction false} FieldsRoundTrip(r: Rec, ids: seq<int>, i: nat, d: Dicts, rest: seq<Byte>, stag: StringTag)
    requires Encodable(Obj(r), d) && |d.keys| <= Capacity
    requires i <= |r.orderedKeys| && |ids| == |r.orderedKeys|
    requires forall j | 0 <= j < |ids| :: KeyAt(d.keys, ids[j]) == Ok(r.orderedKeys[j])
    ensures DecodeFields(ids[i..], EncodeFields(r, r.orderedKeys[i..], d) + rest, d, Prefix(r, i), stag)
         == Done(r, rest, d)
    decreases Obj(r), 0, |r.orderedKeys| - i
  {
    if i == |r.orderedKeys| {
      PrefixEnds(r);
      assert ids[i..] == [];
      assert r.orderedKeys[i..] == [];
    } else {
      var k := r.orderedKeys[i];
      var tail := EncodeFields(r, r.orderedKeys[i + 1..], d) + rest;
      FieldsStep(r, i, d, rest);
      assert ids[i..][0] == ids[i] && ids[i..][1..] == ids[i + 1..];
      RoundTrip(r.fields[k], d, tail, stag);
      PrefixStep(r, i);
      FieldsRoundTrip(r, ids, i + 1, d, rest, stag);
    }
  }

  /** The encoded fields from key i on are key i's value followed by the rest. */
  lemma FieldsStep(r: Rec, i: nat, d: Dicts, rest: seq<Byte>)
    requires Encodable(Obj(r), d) && |d.keys| <= Capacity && i < |r.orderedKeys|
    ensures EncodeFields(r, r.orderedKeys[i..], d) + rest
         == Encode(r.fields[r.orderedKeys[i]], d) + (EncodeFields(r, r.orderedKeys[i + 1..], d) + rest)
  {
    assert r.orderedKeys[i..][0] == r.orderedKeys[i] && r.orderedKeys[i..][1..] == r.orderedKeys[i + 1..];
  }

  /** Decoding the encoded items i.. of xs after the first i rebuilds xs. */
  lemma {:induction false} ItemsRoundTrip(xs: seq<Value>, i: nat, d: Dicts, rest: seq<Byte>, stag: StringTag)
    requires Encodable(Arr(xs), d) && |d.keys| <= Capacity && i <= |xs|
    ensures DecodeItems(|xs| - i, EncodeItems(xs, i, d) + rest, d, xs[..i], stag) == Done(xs, rest, d)
    decreases Arr(xs), 0, |xs| - i
  {
    if i == |xs| {
      assert xs[..i] == xs;
    } else {
      var tail := EncodeItems(xs, i + 1, d) + rest;
      assert EncodeItems(xs, i, d) + rest == Encode(xs[i], d) + tail;
      RoundTrip(xs[i], d, tail, stag);
      assert xs[..i] + [xs[i]] == xs[..i + 1];
      ItemsRoundTrip(xs, i + 1, d, rest, stag);
    }
  }

  /**
   * Round trip: read(in) on the stream form of a value gives the value back,
   * consumes exactly its bytes and leaves the dictionaries as they were.
   */
  lemma {:induction false} RoundTrip(v: Value, d: Dicts, rest: seq<Byte>, stag: StringTag)
    requires Encodable(v, d) && |d.keys| <= Capacity
    ensures Decode(Encode(v, d) + rest, d, stag) == Done(v, rest, d)
    decreases v, 2
  {
    match v
    case Obj(r) => ObjectRoundTrip(r, d, rest, stag);
    case Arr(xs) => ArrayRoundTrip(xs, d, rest, stag);
    case _ => ScalarRoundTrip(v, d, rest, stag);
  }

  lemma {:induction false} ObjectRoundTrip(r: Rec, d: Dicts, rest: seq<Byte>, stag: StringTag)
    requires Encodable(Obj(r), d) && |d.keys| <= Capacity
    ensures Decode(Encode(Obj(r), d) + rest, d, stag) == Done(Obj(r), rest, d)
    decreases Obj(r), 1
  {
    var n := |r.orderedKeys|;
    var fields := EncodeFields(r, r.orderedKeys, d) + rest;
    var afterCount := IdTable(r.orderedKeys, d) + fields;
    var body := BigEndian(n, 2) + afterCount;
    assert Encode(Obj(r), d) + rest == [TypeObject] + body;
    ObjectTag(body, d, stag);
    ObjectBody(r, d, rest, stag);
  }

  /** The part after the tag: the count, the id table and the fields. */
  lemma {:induction false} ObjectBody(r: Rec, d: Dicts, rest: seq<Byte>, stag: StringTag)
    requires Encodable(Obj(r), d) && |d.keys| <= Capacity
    ensures var n := |r.orderedKeys|;
      DecodeObject(BigEndian(n, 2) + (IdTable(r.orderedKeys, d) + (EncodeFields(r, r.orderedKeys, d) + rest)), d, stag)
        == Done(r, rest, d)
    decreases Obj(r), 0, |r.orderedKeys| + 1
  {
    var n := |r.orderedKeys|;
    var fields := EncodeFields(r, r.orderedKeys, d) + rest;
    var afterCount := IdTable(r.orderedKeys, d) + fields;
    TakeUnsignedOf(n, 2, afterCount);
    TakeIdTable(r.orderedKeys, d, fields);
    var ids := TakeIds(afterCount, n).r.value;
    PrefixEnds(r);
    assert ids[0..] == ids && r.orderedKeys[0..] == r.orderedKeys;
    FieldsRoundTrip(r, ids, 0, d, rest, stag);
  }

  lemma {:induction false} ArrayRoundTrip(xs: seq<Value>, d: Dicts, rest: seq<Byte>, stag: StringTag)
    requires Encodable(Arr(xs), d) && |d.keys| <= Capacity
    ensures Decode(Encode(Arr(xs), d) + rest, d, stag) == Done(Arr(xs), rest, d)
    decreases Arr(xs), 1
  {
    var items := EncodeItems(xs, 0, d) + rest;
    assert Encode(Arr(xs), d) + rest == [TypeArray] + BigEndian(FromSigned(|xs|, 4), 4) + items;
    ArrayTag(|xs|, items, d, stag);
    ItemsRoundTrip(xs, 0, d, rest, stag);
    assert xs[..0] == [];
  }

  /** A signed fixed-width field reads back as the number written. */
  lemma SignedField(tag: Byte, n: int, d: Dicts, rest: seq<Byte>, stag: StringTag)
    requires IsFixed(tag) && IsSigned(tag) && -Half(Width(tag)) <= n < Half(Width(tag))
    ensures Decode(Signed(tag, n, Width(tag)) + rest, d, stag) == Done(Number(tag, n), rest, d)
  {
    var w := Width(tag);
    var payload := BigEndian(FromSigned(n, w), w) + rest;
    assert Signed(tag, n, w) + rest == [tag] + payload;
    ValueTag(tag, payload, d, stag);
    assert DecodeValue(tag, payload, d, stag) == DecodeFixed(tag, payload, d);
    assert TakeSigned(payload, w) == Got(Ok(n), rest) by {
      TakeSignedOf(n, w, rest);
    }
  }

  /** An unsigned fixed-width field reads back as the number written. */
  lemma UnsignedField(tag: Byte, n: nat, d: Dicts, rest: seq<Byte>, stag: StringTag)
    requires IsFixed(tag) && !IsSigned(tag) && n < Pow256(Width(tag))
    ensures Decode([tag] + BigEndian(n, Width(tag)) + rest, d, stag) == Done(Number(tag, n), rest, d)
  {
    var payload := BigEndian(n, Width(tag)) + rest;
    assert [tag] + BigEndian(n, Width(tag)) + rest == [tag] + payload;
    ValueTag(tag, payload, d, stag);
    assert DecodeValue(tag, payload, d, stag) == DecodeFixed(tag, payload, d);
    TakeUnsignedOf(n, Width(tag), rest);
  }

  /** A string travels as a CLOB: a signed length and the bytes. */
  lemma ClobField(x: Text, d: Dicts, rest: seq<Byte>, stag: StringTag)
    requires |x| < Half(4)
    ensures Decode(Signed(TypeClob, |x|, 4) + x + rest, d, stag) == Done(Str(x), rest, d)
  {
    var payload := BigEndian(FromSigned(|x|, 4), 4) + (x + rest);
    assert Signed(TypeClob, |x|, 4) + x + rest == [TypeClob] + payload;
    ValueTag(TypeClob, payload, d, stag);
    TakeSignedOf(|x|, 4, x + rest);
    assert (x + rest)[..|x|] == x && (x + rest)[|x|..] == rest;
  }

  lemma ScalarRoundTrip(v: Value, d: Dicts, rest: seq<Byte>, stag: StringTag)
    requires Encodable(v, d) && |d.keys| <= Capacity && !v.Obj? && !v.Arr?
    ensures Decode(Encode(v, d) + rest, d, stag) == Done(v, rest, d)
  {
    match v
    case Null => NullTags(TypeNull, rest, d, stag);
    case Str(x) => ClobField(x, d, rest, stag);
    case Bool(b) => BooleanTags(if b then TypeBooleanTrue else TypeBooleanFalse, rest, d, stag);
    case _ => NumberRoundTrip(v, d, rest, stag);
  }

  lemma NumberRoundTrip(v: Value, d: Dicts, rest: seq<Byte>, stag: StringTag)
    requires Encodable(v, d) && |d.keys| <= Capacity && (v.I32? || v.I64? || v.I16? || v.I8? || v.F64? || v.F32? || v.Date?)
    ensures Decode(Encode(v, d) + rest, d, stag) == Done(v, rest, d)
  {
    match v
    case I32(n) => SignedField(TypeInteger, n, d, rest, stag);
    case I64(n) => SignedField(TypeLong, n, d, rest, stag);
    case I16(n) => SignedField(TypeShort, n, d, rest, stag);
    case I8(n) => SignedField(TypeByte, n, d, rest, stag);
    case F64(bits) => UnsignedField(TypeDouble, bits, d, rest, stag);
    case F32(bits) => UnsignedField(TypeFloat, bits, d, rest, stag);
    case Date(millis) => SignedField(TypeDate, millis, d, rest, stag);
  }

  /** A successful run of writes is its first write followed by the others. */
  lemma WriteAllCons(table: seq<Text>, ks: seq<Text>)
    requires ks != [] && WriteAll(table, ks).r.Ok?
    ensures var first := WriteStep(table, ks[0]);
      var more := WriteAll(first.table, ks[1..]);
      && first.r.Ok? && more.r.Ok?
      && WriteAll(table, ks).table == more.table
      && WriteAll(table, ks).bytes == first.bytes + more.bytes
  {
  }

  /** One write's announcement, replayed by the decoder. */
  lemma OneAnnouncement(table: seq<Text>, key: Text, strings: seq<Text>, t: seq<Byte>, stag: StringTag)
    requires |table| <= Capacity && WriteStep(table, key).r.Ok?
    ensures var first := WriteStep(table, key);
      Decode(first.bytes + t, Dicts(table, strings), stag) == Decode(t, Dicts(first.table, strings), stag)
  {
    WriteStepFacts(table, key);
    var first := WriteStep(table, key);
    if key in table {
      assert first.bytes + t == t;
    } else {
      assert first.bytes + t == [KeyRegister] + Utf(key) + t;
      KeyRegisterTag(key, t, Dicts(table, strings), stag);
    }
  }

  /**
   * The announcements write emits for a run of keys, read by a decoder that
   * holds the writer's table from before the run, leave the decoder holding
   * the writer's table from after it.
   */
  lemma {:induction false} KeyAnnouncementsReplay(table: seq<Text>, ks: seq<Text>, strings: seq<Text>, t: seq<Byte>, stag: StringTag)
    requires |table| <= Capacity && WriteAll(table, ks).r.Ok?
    ensures var e := WriteAll(table, ks);
      Decode(e.bytes + t, Dicts(table, strings), stag) == Decode(t, Dicts(e.table, strings), stag)
    decreases |ks|
  {
    if ks == [] {
      assert WriteAll(table, ks).bytes + t == t;
    } else {
      WriteAllCons(table, ks);
      var first := WriteStep(table, ks[0]);
      var more := WriteAll(first.table, ks[1..]);
      assert WriteAll(table, ks).bytes + t == first.bytes + (more.bytes + t);
      OneAnnouncement(table, ks[0], strings, more.bytes + t, stag);
      KeyAnnouncementsReplay(first.table, ks[1..], strings, t, stag);
    }
  }

  /**
   * A writer that first registers the keys of a record and then sends the
   * record: the decoder, starting from the writer's earlier table, yields the
   * record and ends with the writer's new table.
   */
  lemma RecordAfterItsKeys(r: Rec, table: seq<Text>, strings: seq<Text>, rest: seq<Byte>, stag: StringTag)
    requires |table| <= Capacity && WriteAll(table, r.orderedKeys).r.Ok?
    requires Encodable(Obj(r), Dicts(WriteAll(table, r.orderedKeys).table, strings))
    ensures var e := WriteAll(table, r.orderedKeys);
      Decode(e.bytes + Encode(Obj(r), Dicts(e.table, strings)) + rest, Dicts(table, strings), stag)
        == Done(Obj(r), rest, Dicts(e.table, strings))
  {
    var e := WriteAll(table, r.orderedKeys);
    var d := Dicts(e.table, strings);
    var body := Encode(Obj(r), d) + rest;
    assert e.bytes + Encode(Obj(r), d) + rest == e.bytes + body;
    KeyAnnouncementsReplay(table, r.orderedKeys, strings, body, stag);
    RoundTrip(Obj(r), d, rest, stag);
  }
}
