/**
 * BinaryDecoder: reads one value from a DataInput, keeping the key dictionary
 * and the string dictionary of the stream. Each method is proved to do what
 * the matching function of Wire says about the bytes it had in front of it.
 */
module Decoder {
  import opened Base
  import opened DataIO
  import opened Values
  import opened RecordLaws
  import opened Records
  import opened Keys
  import opened Strings
  import opened Wire
  import opened WireLaws

  /**
   * A method's result, the bytes it left and the dictionaries it left, as the
   * step a stream function yields; after an error only the error is compared.
   */
  function Outcome<T>(r: Result<T>, rest: seq<Byte>, d: Dicts): (step: Step<T>)
    ensures step.Done? <==> r.Ok?
  {
    if r.Ok? then Done(r.value, rest, d) else Failed(r.error)
  }

  /** The ids read so far, in front of what reading the remaining ones gives. */
  function AfterIds(done: seq<int>, g: Got<seq<int>>): Got<seq<int>>
  {
    if g.r.Err? then g else Got(Ok(done + g.r.value), g.rest)
  }

  /** One more id read: it moves from the bytes to the ids read so far. */
  lemma IdRead(done: seq<int>, before: seq<Byte>, x: int, after: seq<Byte>, n: nat)
    requires n > 0 && TakeUnsigned(before, 2) == Got(Ok(x), after)
    ensures AfterIds(done, TakeIds(before, n)) == AfterIds(done + [x], TakeIds(after, n - 1))
  {
    var more := TakeIds(after, n - 1);
    if more.r.Ok? {
      assert done + ([x] + more.r.value) == done + [x] + more.r.value;
    }
  }

  /** An id that cannot be read ends the table with an end-of-stream error. */
  lemma IdMissing(done: seq<int>, before: seq<Byte>, n: nat)
    requires n > 0 && TakeUnsigned(before, 2).r.Err?
    ensures AfterIds(done, TakeIds(before, n)) == Got(Err(EndOfStream), [])
  {
  }

  /** One more item read: it moves from the bytes to the items read so far. */
  lemma ItemRead(n: int, s: seq<Byte>, d: Dicts, acc: seq<Value>, stag: StringTag)
    requires n > 0 && Decode(s, d, stag).Done?
    ensures var one := Decode(s, d, stag);
      DecodeItems(n, s, d, acc, stag) == DecodeItems(n - 1, one.rest, one.dicts, acc + [one.v], stag)
  {
  }

  /** An item that fails fails the whole list. */
  lemma ItemFailed(n: int, s: seq<Byte>, d: Dicts, acc: seq<Value>, stag: StringTag)
    requires n > 0 && Decode(s, d, stag).Failed?
    ensures DecodeItems(n, s, d, acc, stag) == Failed(Decode(s, d, stag).e)
  {
  }

  /** One more field read: its key is looked up in the table before the value is read. */
  lemma FieldRead(ids: seq<int>, s: seq<Byte>, d: Dicts, acc: Rec, stag: StringTag)
    requires ids != [] && KeyAt(d.keys, ids[0]).Ok? && Decode(s, d, stag).Done?
    ensures var one := Decode(s, d, stag);
      DecodeFields(ids, s, d, acc, stag)
        == DecodeFields(ids[1..], one.rest, one.dicts, Put(acc, KeyAt(d.keys, ids[0]).value, one.v), stag)
  {
  }

  /** A field whose key or value cannot be read fails the record. */
  lemma FieldFailed(ids: seq<int>, s: seq<Byte>, d: Dicts, acc: Rec, stag: StringTag)
    requires ids != [] && (KeyAt(d.keys, ids[0]).Err? || Decode(s, d, stag).Failed?)
    ensures DecodeFields(ids, s, d, acc, stag)
      == Failed(if KeyAt(d.keys, ids[0]).Err? then KeyAt(d.keys, ids[0]).error else Decode(s, d, stag).e)
  {
  }

  class BinaryDecoder {
    const keys: KeyStreamEncoder
    const strings: StringEncoder
    /** The string-register tag of StringEncoder. */
    const stag: StringTag

    ghost predicate Valid()
      reads this, keys, keys.keys
    {
      keys.Valid()
    }

    /** The two dictionaries, as the stream functions see them. */
    function State(): Dicts
      reads this, keys, keys.keys, strings
      requires Valid()
    {
      Dicts(keys.Table(), strings.entries)
    }

    /** BinaryDecoder(): an empty key dictionary and an empty string dictionary. */
    constructor (stag: StringTag)
      ensures Valid() && State() == Dicts([], []) && this.stag == stag
      ensures fresh(keys) && fresh(keys.keys) && fresh(strings)
    {
      this.stag := stag;
      keys := new KeyStreamEncoder();
      strings := new StringEncoder();
    }

    /** getKey(id). */
    function GetKey(id: int): (r: Result<Text>)
      reads this, keys, keys.keys
      requires Valid()
      ensures r.Ok? <==> 0 <= id < |keys.Table()|
      ensures r.Ok? ==> r.value == keys.Table()[id]
      ensures r.Err? ==> r.error == NoSuchKey(id)
    {
      keys.GetKey(id)
    }

    /** getKeyCount(). */
    function GetKeyCount(): (n: nat)
      reads this, keys, keys.keys
      requires Valid()
      ensures n == |State().keys| <= Capacity
    {
      keys.Size()
    }

    /** read(in): one value, after any dictionary operations in front of it. */
    method Read(input: DataInput) returns (r: Result<Value>)
      requires Valid() && input.Valid()
      modifies input, keys, keys.keys, strings
      ensures Valid() && input.Valid() && (keys.keys == old(keys.keys) || fresh(keys.keys))
      ensures |input.Rest()| <= |old(input.Rest())|
      ensures Outcome(r, input.Rest(), State()) == Decode(old(input.Rest()), old(State()), stag)
      decreases |input.Rest()|, 0
    {
      ghost var s0 := input.Rest();
      ghost var d0 := State();
      var tag := input.ReadRaw();
      if tag == -1 {
        return Err(EndOfStream);
      }
      assert s0[0] == tag && s0[1..] == input.Rest();
      if tag == KeyRegister {
        var registered := keys.Read(input);
        if registered.Err? {
          return Err(registered.error);
        }
        r := Read(input);
      } else if tag == KeyReset {
        keys.Reset(null);
        assert State() == d0.(keys := []);
        r := Read(input);
      } else if tag == stag {
        var registered := strings.Read(input);
        if registered.Err? {
          return Err(registered.error);
        }
        r := Read(input);
      } else {
        r := ReadValue(tag, input);
      }
    }

    /** The cases of the switch in read(in) that yield a value. */
    method ReadValue(tag: Byte, input: DataInput) returns (r: Result<Value>)
      requires Valid() && input.Valid()
      modifies input, keys, keys.keys, strings
      ensures Valid() && input.Valid() && (keys.keys == old(keys.keys) || fresh(keys.keys))
      ensures |input.Rest()| <= |old(input.Rest())|
      ensures Outcome(r, input.Rest(), State()) == DecodeValue(tag, old(input.Rest()), old(State()), stag)
      decreases |input.Rest()|, 4
    {
      if tag == TypeNull || tag == TypeEof {
        r := Ok(Null);
      } else if tag == TypeString {
        r := ReadStringRef(input);
      } else if tag == TypeObject {
        var record := ReadObject(input);
        if record.Err? {
          return Err(record.error);
        }
        r := Ok(Obj(record.value));
      } else if tag == TypeArray {
        r := ReadArray(input);
      } else if IsFixed(tag) {
        r := ReadFixed(tag, input);
      } else if tag == TypeBooleanTrue {
        r := Ok(Bool(true));
      } else if tag == TypeBooleanFalse {
        r := Ok(Bool(false));
      } else if tag == TypeClob {
        r := ReadClob(input);
      } else {
        r := Err(UnknownType(tag));
      }
    }

    /** Tag 0x01: strings.get of one unsigned byte. */
    method ReadStringRef(input: DataInput) returns (r: Result<Value>)
      requires Valid() && input.Valid()
      modifies input
      ensures input.Valid() && |input.Rest()| <= |old(input.Rest())|
      ensures var spec := DecodeStringRef(old(input.Rest()), State());
        && (spec.Done? ==> r == Ok(spec.v) && input.Rest() == spec.rest)
        && (spec.Failed? ==> r == Err(spec.e))
    {
      var id := input.ReadUnsigned(1);
      if id.Err? {
        return Err(id.error);
      }
      var x := strings.Get(id.value);
      if x.Err? {
        return Err(x.error);
      }
      r := Ok(Str(x.value));
    }

    /** The fixed-width tags: readInt, readLong, readUnsignedByte and the others. */
    method ReadFixed(tag: Byte, input: DataInput) returns (r: Result<Value>)
      requires IsFixed(tag) && input.Valid()
      modifies input
      ensures input.Valid() && |input.Rest()| <= |old(input.Rest())|
      ensures var spec := DecodeFixed(tag, old(input.Rest()), Dicts([], []));
        && (spec.Done? ==> r == Ok(spec.v) && input.Rest() == spec.rest)
        && (spec.Failed? ==> r == Err(spec.e))
    {
      var n: Result<int>;
      if IsSigned(tag) {
        n := input.ReadSigned(Width(tag));
      } else {
        n := input.ReadUnsigned(Width(tag));
      }
      if n.Err? {
        return Err(n.error);
      }
      r := Ok(Number(tag, n.value));
    }

    /** readCLOB(in): a signed length and that many bytes. */
    method ReadClob(input: DataInput) returns (r: Result<Value>)
      requires input.Valid()
      modifies input
      ensures input.Valid() && |input.Rest()| <= |old(input.Rest())|
      ensures var spec := DecodeClob(old(input.Rest()), Dicts([], []));
        && (spec.Done? ==> r == Ok(spec.v) && input.Rest() == spec.rest)
        && (spec.Failed? ==> r == Err(spec.e))
    {
      var n := input.ReadSigned(4);
      if n.Err? {
        return Err(n.error);
      }
      if n.value < 0 {
        return Err(NegativeArraySize(n.value));
      }
      var buffer := input.ReadFully(n.value);
      if buffer.Err? {
        return Err(buffer.error);
      }
      r := Ok(Str(buffer.value));
    }

    /** readObject(in): the id table, then a value per id put under that id's key. */
    method ReadObject(input: DataInput) returns (r: Result<Rec>)
      requires Valid() && input.Valid()
      modifies input, keys, keys.keys, strings
      ensures Valid() && input.Valid() && (keys.keys == old(keys.keys) || fresh(keys.keys))
      ensures |input.Rest()| <= |old(input.Rest())|
      ensures Outcome(r, input.Rest(), State()) == DecodeObject(old(input.Rest()), old(State()), stag)
      decreases |input.Rest()|, 2
    {
      ghost var s0 := input.Rest();
      ghost var d0 := State();
      var record := new DivirganceRecord.WithOrder(true);
      var size := input.ReadUnsigned(2);
      if size.Err? {
        return Err(size.error);
      }
      var ids := ReadIds(input, size.value);
      if ids.Err? {
        return Err(ids.error);
      }
      assert DecodeObject(s0, d0, stag) == DecodeFields(ids.value, input.Rest(), d0, Empty(true), stag);
      r := ReadFields(ids.value, record, input);
    }

    /** The second loop of readObject: record.put(getKey(ids[i]), read(in)) for each id. */
    method ReadFields(ids: seq<int>, record: DivirganceRecord, input: DataInput) returns (r: Result<Rec>)
      requires Valid() && input.Valid() && record.Valid()
      modifies input, keys, keys.keys, strings, record
      ensures Valid() && input.Valid() && (keys.keys == old(keys.keys) || fresh(keys.keys))
      ensures |input.Rest()| <= |old(input.Rest())|
      ensures Outcome(r, input.Rest(), State()) == DecodeFields(ids, old(input.Rest()), old(State()), old(record.State()), stag)
      decreases |input.Rest()|, 1
    {
      ghost var s0 := input.Rest();
      ghost var target := DecodeFields(ids, s0, State(), record.State(), stag);
      var i := 0;
      while i < |ids|
        invariant 0 <= i <= |ids|
        invariant Valid() && input.Valid() && (keys.keys == old(keys.keys) || fresh(keys.keys))
        invariant |input.Rest()| <= |s0|
        invariant record.Valid()
        invariant DecodeFields(ids[i..], input.Rest(), State(), record.State(), stag) == target
      {
        ghost var before := input.Rest();
        ghost var d := State();
        ghost var acc := record.State();
        assert ids[i..][0] == ids[i] && ids[i..][1..] == ids[i + 1..];
        var key := GetKey(ids[i]);
        if key.Err? {
          FieldFailed(ids[i..], before, d, acc, stag);
          return Err(key.error);
        }
        var value := Read(input);
        if value.Err? {
          FieldFailed(ids[i..], before, d, acc, stag);
          return Err(value.error);
        }
        FieldRead(ids[i..], before, d, acc, stag);
        DecodedIsSound(before, d, stag);
        var _ := record.Put(key.value, value.value);
        i := i + 1;
      }
      assert ids[i..] == [];
      r := Ok(record.State());
    }

    /** The first loop of readObject: size unsigned shorts into an int array. */
    method ReadIds(input: DataInput, size: nat) returns (r: Result<seq<int>>)
      requires input.Valid()
      modifies input
      ensures input.Valid() && Got(r, input.Rest()) == TakeIds(old(input.Rest()), size)
    {
      ghost var idStart := input.Rest();
      var ids := new int[size];
      var i := 0;
      assert AfterIds([], TakeIds(idStart, size)) == TakeIds(idStart, size) by {
        var g := TakeIds(idStart, size);
        if g.r.Ok? {
          assert [] + g.r.value == g.r.value;
        }
      }
      assert ids[..0] == [];
      while i < size
        invariant 0 <= i <= size && input.Valid()
        invariant TakeIds(idStart, size) == AfterIds(ids[..i], TakeIds(input.Rest(), size - i))
        modifies input, ids
      {
        ghost var before := input.Rest();
        ghost var done := ids[..i];
        var id := input.ReadUnsigned(2);
        if id.Err? {
          IdMissing(done, before, size - i);
          return Err(id.error);
        }
        ghost var after := input.Rest();
        IdRead(done, before, id.value, after, size - i);
        ids[i] := id.value;
        assert ids[..i + 1] == done + [id.value];
        i := i + 1;
        assert TakeIds(idStart, size) == AfterIds(ids[..i], TakeIds(after, size - i));
      }
      assert ids[..i] + [] == ids[..];
      r := Ok(ids[..]);
    }

    /** readArray(in): a signed count, then that many values in order. */
    method ReadArray(input: DataInput) returns (r: Result<Value>)
      requires Valid() && input.Valid()
      modifies input, keys, keys.keys, strings
      ensures Valid() && input.Valid() && (keys.keys == old(keys.keys) || fresh(keys.keys))
      ensures |input.Rest()| <= |old(input.Rest())|
      ensures Outcome(r, input.Rest(), State()) == DecodeArray(old(input.Rest()), old(State()), stag)
      decreases |input.Rest()|, 2
    {
      ghost var s0 := input.Rest();
      ghost var d0 := State();
      var size := input.ReadSigned(4);
      if size.Err? {
        return Err(size.error);
      }
      ghost var target := DecodeItems(size.value, input.Rest(), d0, [], stag);
      var items: seq<Value> := [];
      var i := 0;
      while i < size.value
        invariant Valid() && input.Valid() && (keys.keys == old(keys.keys) || fresh(keys.keys))
        invariant |input.Rest()| <= |s0|
        invariant DecodeItems(size.value - i, input.Rest(), State(), items, stag) == target
      {
        ghost var before := input.Rest();
        ghost var d := State();
        var value := Read(input);
        if value.Err? {
          ItemFailed(size.value - i, before, d, items, stag);
          return Err(value.error);
        }
        ItemRead(size.value - i, before, d, items, stag);
        items := items + [value.value];
        i := i + 1;
      }
      r := Ok(Arr(items));
    }
  }
}
