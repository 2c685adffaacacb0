/** What each tag of the value stream does, one lemma per rule of read(in). */
module WireLaws {
  import opened Base
  import opened DataIO
  import opened Values
  import opened RecordLaws
  import opened Keys
  import opened Strings
  import opened Wire

  /** A tag that is not a dictionary operation is read as a value. */
  lemma ValueTag(tag: Byte, t: seq<Byte>, d: Dicts, stag: StringTag)
    requires tag != KeyRegister && tag != KeyReset && (Handled(tag) || tag != stag)
    ensures Decode([tag] + t, d, stag) == DecodeValue(tag, t, d, stag)
  {
    assert !Handled(stag);
    assert ([tag] + t)[0] == tag && ([tag] + t)[1..] == t;
  }

  /** An empty input fails with an end-of-stream error. */
  lemma EmptyInput(d: Dicts, stag: StringTag)
    ensures Decode([], d, stag) == Failed(EndOfStream)
  {
  }

  /** 0x00 and 0xFF both yield null and consume the tag byte only. */
  lemma NullTags(tag: Byte, t: seq<Byte>, d: Dicts, stag: StringTag)
    requires tag == TypeNull || tag == TypeEof
    ensures Decode([tag] + t, d, stag) == Done(Null, t, d)
  {
    ValueTag(tag, t, d, stag);
  }

  /** 'T' and 'F' yield the two booleans and consume the tag byte only. */
  lemma BooleanTags(tag: Byte, t: seq<Byte>, d: Dicts, stag: StringTag)
    requires tag == TypeBooleanTrue || tag == TypeBooleanFalse
    ensures Decode([tag] + t, d, stag) == Done(Bool(tag == TypeBooleanTrue), t, d)
  {
    ValueTag(tag, t, d, stag);
  }

  /**
   * A fixed-width tag consumes exactly its payload, read big-endian, as a
   * two's complement number for the signed kinds.
   */
  lemma FixedWidthTag(tag: Byte, payload: seq<Byte>, t: seq<Byte>, d: Dicts, stag: StringTag)
    requires IsFixed(tag) && |payload| == Width(tag)
    ensures var n := if IsSigned(tag) then ToSigned(Unsigned(payload), Width(tag)) else Unsigned(payload);
      Decode([tag] + payload + t, d, stag) == Done(Number(tag, n), t, d)
  {
    ValueTag(tag, payload + t, d, stag);
    assert [tag] + payload + t == [tag] + (payload + t);
    assert (payload + t)[..Width(tag)] == payload;
    assert (payload + t)[Width(tag)..] == t;
  }

  /** 0x20 and 0x21 are Java Integers in 0..255 and 0..65535, like 0x04 in kind. */
  lemma UnsignedIntegerTags(tag: Byte, payload: seq<Byte>, t: seq<Byte>, d: Dicts, stag: StringTag)
    requires tag == TypeIntegerU8 || tag == TypeIntegerU16
    requires |payload| == (if tag == TypeIntegerU8 then 1 else 2)
    ensures var r := Decode([tag] + payload + t, d, stag);
      && r.Done? && r.v.I32? && r.rest == t
      && 0 <= r.v.n < (if tag == TypeIntegerU8 then 256 else 65536)
  {
    FixedWidthTag(tag, payload, t, d, stag);
    assert Pow256(2) == 65536 by {
      assert Pow256(1) == 256;
    }
  }

  /** 0x01 reads a single unsigned byte as the string id: only ids 0..255 are reachable. */
  lemma StringTagReadsOneByte(id: Byte, t: seq<Byte>, d: Dicts, stag: StringTag)
    ensures Decode([TypeString, id] + t, d, stag)
      == if id < |d.strings| then Done(Str(d.strings[id]), t, d) else Failed(NoSuchString(id))
  {
    ValueTag(TypeString, [id] + t, d, stag);
    assert [TypeString, id] + t == [TypeString] + ([id] + t);
    assert ([id] + t)[..1] == [id];
    assert ([id] + t)[1..] == t;
    assert Unsigned([id]) == id by {
      assert [id][..0] == [];
    }
  }

  /** An array count of zero or less yields an empty list and consumes nothing more. */
  lemma NonPositiveArrayCount(n: int, t: seq<Byte>, d: Dicts, stag: StringTag)
    requires -Half(4) <= n <= 0
    ensures Decode([TypeArray] + BigEndian(FromSigned(n, 4), 4) + t, d, stag) == Done(Arr([]), t, d)
  {
    var payload := BigEndian(FromSigned(n, 4), 4) + t;
    ValueTag(TypeArray, payload, d, stag);
    assert [TypeArray] + BigEndian(FromSigned(n, 4), 4) + t == [TypeArray] + payload;
    TakeSignedOf(n, 4, t);
    assert DecodeItems(n, t, d, [], stag) == Done([], t, d);
  }

  /** A negative CLOB length fails as a negative array size. */
  lemma NegativeClobLength(n: int, t: seq<Byte>, d: Dicts, stag: StringTag)
    requires -Half(4) <= n < 0
    ensures Decode([TypeClob] + BigEndian(FromSigned(n, 4), 4) + t, d, stag) == Failed(NegativeArraySize(n))
  {
    var payload := BigEndian(FromSigned(n, 4), 4) + t;
    ValueTag(TypeClob, payload, d, stag);
    assert [TypeClob] + BigEndian(FromSigned(n, 4), 4) + t == [TypeClob] + payload;
    TakeSignedOf(n, 4, t);
  }

  /** 0xF1 appends exactly one key, read with readUTF, and then decodes the next value. */
  lemma KeyRegisterTag(key: Text, t: seq<Byte>, d: Dicts, stag: StringTag)
    requires |key| < 65536 && |d.keys| < Capacity
    ensures Decode([KeyRegister] + Utf(key) + t, d, stag) == Decode(t, d.(keys := d.keys + [key]), stag)
  {
    var s := [KeyRegister] + Utf(key) + t;
    assert s[1..] == Utf(key) + t;
    TakeUtfOfUtf(key, t);
  }

  /** 0xF1 on a full key dictionary fails before reading anything. */
  lemma KeyRegisterWhenFull(t: seq<Byte>, d: Dicts, stag: StringTag)
    requires |d.keys| >= Capacity
    ensures Decode([KeyRegister] + t, d, stag) == Failed(KeyCapacity)
  {
  }

  /** 0xF2 empties the key dictionary and then decodes the next value. */
  lemma KeyResetTag(t: seq<Byte>, d: Dicts, stag: StringTag)
    ensures Decode([KeyReset] + t, d, stag) == Decode(t, d.(keys := []), stag)
  {
    assert ([KeyReset] + t)[1..] == t;
  }

  /** The string-register tag appends exactly one string and then decodes the next value. */
  lemma StringRegisterTag(x: Text, t: seq<Byte>, d: Dicts, stag: StringTag)
    requires |x| < 65536
    ensures Decode([stag] + Utf(x) + t, d, stag) == Decode(t, d.(strings := d.strings + [x]), stag)
  {
    var s := [stag as Byte] + Utf(x) + t;
    assert s[0] == stag && !Handled(s[0]);
    assert s[1..] == Utf(x) + t;
    TakeUtfOfUtf(x, t);
  }

  /** Every other tag fails; in particular no string-reset tag exists. */
  lemma UnknownTag(tag: Byte, t: seq<Byte>, d: Dicts, stag: StringTag)
    requires !Handled(tag) && tag != stag
    ensures Decode([tag] + t, d, stag) == Failed(UnknownType(tag))
  {
    ValueTag(tag, t, d, stag);
  }

  /** A field whose id is not below the key count fails before its value is read. */
  lemma FieldIdOutOfRange(id: int, ids: seq<int>, s: seq<Byte>, d: Dicts, acc: Rec, stag: StringTag)
    requires id >= |d.keys|
    ensures DecodeFields([id] + ids, s, d, acc, stag) == Failed(NoSuchKey(id))
  {
  }

  /** The value of the one field: a reset, then null. */
  lemma ResetThenNull(d: Dicts, t: seq<Byte>, stag: StringTag)
    ensures Decode([KeyReset, TypeNull] + t, d, stag) == Done(Null, t, d.(keys := []))
  {
    KeyResetTag([TypeNull] + t, d, stag);
    assert [KeyReset] + ([TypeNull] + t) == [KeyReset, TypeNull] + t;
    NullTags(TypeNull, t, d.(keys := []), stag);
  }

  /** The header of a one-field object whose id is 0. */
  lemma OneFieldHeader(value: seq<Byte>, d: Dicts, stag: StringTag)
    ensures DecodeObject([0, 1, 0, 0] + value, d, stag) == DecodeFields([0], value, d, Empty(true), stag)
  {
    assert BigEndian(0, 2) == [0, 0] && BigEndian(1, 2) == [0, 1];
    TakeUnsignedOf(0, 2, value);
    assert TakeIds(value, 0) == Got(Ok([]), value);
    assert [0] + [] == [0];
    assert TakeIds([0, 0] + value, 1) == Got(Ok([0]), value);
    TakeUnsignedOf(1, 2, [0, 0] + value);
    assert [0, 1] + ([0, 0] + value) == [0, 1, 0, 0] + value;
  }

  /** A single field: its key is taken from the table the object started with. */
  lemma OneField(id: int, s: seq<Byte>, d: Dicts, acc: Rec, stag: StringTag)
    requires 0 <= id < |d.keys| && Decode(s, d, stag).Done?
    ensures var r := Decode(s, d, stag);
      DecodeFields([id], s, d, acc, stag) == Done(Put(acc, d.keys[id], r.v), r.rest, r.dicts)
  {
    assert [id][1..] == [];
  }

  /** 0x02 decodes an object and wraps it as a value. */
  lemma ObjectTag(body: seq<Byte>, d: Dicts, stag: StringTag)
    ensures var r := DecodeObject(body, d, stag);
      Decode([TypeObject] + body, d, stag)
        == if r.Done? then Done(Obj(r.v), r.rest, r.dicts) else Failed(r.e)
  {
    ValueTag(TypeObject, body, d, stag);
  }

  /** 0x03 reads a signed count and decodes that many items. */
  lemma ArrayTag(n: int, items: seq<Byte>, d: Dicts, stag: StringTag)
    requires -Half(4) <= n < Half(4)
    ensures var r := DecodeItems(n, items, d, [], stag);
      Decode([TypeArray] + BigEndian(FromSigned(n, 4), 4) + items, d, stag)
        == if r.Done? then Done(Arr(r.v), r.rest, r.dicts) else Failed(r.e)
  {
    var payload := BigEndian(FromSigned(n, 4), 4) + items;
    ValueTag(TypeArray, payload, d, stag);
    assert [TypeArray] + BigEndian(FromSigned(n, 4), 4) + items == [TypeArray] + payload;
    TakeSignedOf(n, 4, items);
  }

  /**
   * The key of a field is looked up before its value is decoded: a reset
   * inside the value of field 0 does not change that field's key, only the
   * table the next fields see.
   */
  lemma KeyLookedUpBeforeValue(key: Text, strings: seq<Text>, t: seq<Byte>, stag: StringTag)
    ensures Decode([TypeObject, 0, 1, 0, 0, KeyReset, TypeNull] + t, Dicts([key], strings), stag)
         == Done(Obj(Rec(true, [key], map[key := Null])), t, Dicts([], strings))
  {
    var d := Dicts([key], strings);
    var value := [KeyReset, TypeNull] + t;
    var body := [0, 1, 0, 0] + value;
    ResetThenNull(d, t, stag);
    OneFieldHeader(value, d, stag);
    OneField(0, value, d, Empty(true), stag);
    assert Put(Empty(true), key, Null) == Rec(true, [key], map[key := Null]);
    assert DecodeObject(body, d, stag) == Done(Rec(true, [key], map[key := Null]), t, Dicts([], strings));
    ObjectTag(body, d, stag);
    assert [TypeObject] + body == [TypeObject, 0, 1, 0, 0, KeyReset, TypeNull] + t;
  }

  /**
   * Every record read from the stream, at any depth, is consistent: its key
   * list is duplicate-free and its keySet() is exactly its map's keys.
   */
  lemma {:induction false} DecodedIsSound(s: seq<Byte>, d: Dicts, stag: StringTag)
    ensures Decode(s, d, stag).Done? ==> DeepConsistent(Decode(s, d, stag).v)
    ensures Decode(s, d, stag).Done? ==> DeepSound(Decode(s, d, stag).v)
    decreases |s|, 0
  {
    if s != [] {
      var tag, t := s[0], s[1..];
      if tag == KeyRegister {
        var g := ReadStep(d.keys, t);
        if g.r.Ok? {
          DecodedIsSound(g.rest, d.(keys := g.r.value), stag);
        }
      } else if tag == KeyReset {
        DecodedIsSound(t, d.(keys := []), stag);
      } else if tag == stag {
        var g := StringRead(d.strings, t);
        if g.r.Ok? {
          DecodedIsSound(g.rest, d.(strings := g.r.value), stag);
        }
      } else {
        ValueIsSound(tag, t, d, stag);
      }
    }
    if Decode(s, d, stag).Done? {
      DeepConsistentIsSound(Decode(s, d, stag).v);
    }
  }

  lemma {:induction false} ValueIsSound(tag: Byte, t: seq<Byte>, d: Dicts, stag: StringTag)
    ensures DecodeValue(tag, t, d, stag).Done? ==> DeepConsistent(DecodeValue(tag, t, d, stag).v)
    decreases |t|, 4
  {
    if tag == TypeObject {
      ObjectIsSound(t, d, stag);
    } else if tag == TypeArray {
      var g := TakeSigned(t, 4);
      if g.r.Ok? {
        ItemsAreSound(g.r.value, g.rest, d, [], stag);
      }
    }
  }

  lemma {:induction false} ObjectIsSound(s: seq<Byte>, d: Dicts, stag: StringTag)
    ensures DecodeObject(s, d, stag).Done? ==> DeepConsistent(Obj(DecodeObject(s, d, stag).v))
    decreases |s|, 2
  {
    var n := TakeUnsigned(s, 2);
    if n.r.Ok? {
      var ids := TakeIds(n.rest, n.r.value);
      if ids.r.Ok? {
        FieldsAreSound(ids.r.value, ids.rest, d, Empty(true), stag);
      }
    }
  }

  lemma {:induction false} FieldsAreSound(ids: seq<int>, s: seq<Byte>, d: Dicts, acc: Rec, stag: StringTag)
    requires DeepConsistent(Obj(acc))
    ensures DecodeFields(ids, s, d, acc, stag).Done? ==> DeepConsistent(Obj(DecodeFields(ids, s, d, acc, stag).v))
    decreases |s|, 1
  {
    if ids != [] && KeyAt(d.keys, ids[0]).Ok? {
      var one := Decode(s, d, stag);
      if one.Done? {
        DecodedIsSound(s, d, stag);
        var next := Put(acc, KeyAt(d.keys, ids[0]).value, one.v);
        assert DeepConsistent(Obj(next));
        FieldsAreSound(ids[1..], one.rest, one.dicts, next, stag);
      }
    }
  }

  lemma {:induction false} ItemsAreSound(n: int, s: seq<Byte>, d: Dicts, acc: seq<Value>, stag: StringTag)
    requires DeepConsistent(Arr(acc))
    ensures DecodeItems(n, s, d, acc, stag).Done? ==> DeepConsistent(Arr(DecodeItems(n, s, d, acc, stag).v))
    decreases |s|, 1
  {
    if n > 0 {
      var one := Decode(s, d, stag);
      if one.Done? {
        DecodedIsSound(s, d, stag);
        assert DeepConsistent(Arr(acc + [one.v]));
        ItemsAreSound(n - 1, one.rest, one.dicts, acc + [one.v], stag);
      }
    }
  }
}
