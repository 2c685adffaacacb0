/**
 * KeyStreamEncoder: the dictionary of record keys shared by the two ends of a
 * stream. A key is sent once, as the register operation 0xF1 followed by the
 * key in writeUTF form, and is afterwards referred to by its dense id; 0xF2
 * empties the dictionary.
 */
module Keys {
  import opened Base
  import opened DataIO
  import opened Values

  const KeyRegister: Byte := 0xF1
  const KeyReset: Byte := 0xF2

  /** The key array has 0xFFFF slots: at most 65535 keys, with ids 0..65534. */
  const Capacity: nat := 0xFFFF

  /**
   * The lookup map that goes with an id table: every key in the table is
   * mapped to the last id it was stored at.
   */
  function LastIds(table: seq<Text>): map<Text, nat>
  {
    if table == [] then map[]
    else LastIds(table[..|table| - 1])[table[|table| - 1] := |table| - 1]
  }

  /** The lookup map holds exactly the table's keys, each at its last id. */
  lemma {:induction false} LastIdsFacts(table: seq<Text>)
    ensures forall k :: k in LastIds(table) <==> k in table
    ensures forall k | k in LastIds(table) ::
      LastIds(table)[k] < |table| && table[LastIds(table)[k]] == k
      && forall j | LastIds(table)[k] < j < |table| :: table[j] != k
  {
    if table != [] {
      var prefix := table[..|table| - 1];
      LastIdsFacts(prefix);
      assert table == prefix + [table[|table| - 1]];
    }
  }

  /** In a table without duplicates, the lookup map inverts the table. */
  lemma UniqueLookup(table: seq<Text>, i: nat)
    requires NoDuplicates(table) && i < |table|
    ensures table[i] in LastIds(table) && LastIds(table)[table[i]] == i
  {
    LastIdsFacts(table);
  }

  /**
   * get(int id) on an id table: fails for an id at or past the table's size.
   * A negative id, where Java's array access throws instead, fails with the
   * same NoSuchKey error.
   */
  function KeyAt(table: seq<Text>, id: int): (r: Result<Text>)
    ensures r.Ok? <==> 0 <= id < |table|
    ensures r.Ok? ==> r.value == table[id]
    ensures r.Err? ==> r.error == NoSuchKey(id)
  {
    if id >= |table| then Err(NoSuchKey(id))
    else if id < 0 then Err(NoSuchKey(id))
    else Ok(table[id])
  }

  /**
   * read(in): fails when the dictionary is full, otherwise stores the string
   * that readUTF yields at the next id.
   */
  function ReadStep(table: seq<Text>, s: seq<Byte>): (g: Got<seq<Text>>)
    ensures |table| >= Capacity ==> g == Got(Err(KeyCapacity), s)
    ensures g.r.Ok? ==> |table| < Capacity && |g.r.value| == |table| + 1
                        && g.r.value[..|table|] == table && |g.r.value[|table|]| < 65536
                        && s == BigEndian(|g.r.value[|table|]|, 2) + g.r.value[|table|] + g.rest
    ensures g.r.Err? && |table| < Capacity ==> g.r.error == EndOfStream && g.rest == []
  {
    if |table| >= Capacity then Got(Err(KeyCapacity), s)
    else
      var u := TakeUtf(s);
      if u.r.Err? then Got(Err(u.r.error), u.rest)
      else
        assert (table + [u.r.value])[..|table|] == table;
        Got(Ok(table + [u.r.value]), u.rest)
  }

  /** What write(key, out) returns, the table afterwards and the bytes it emits. */
  datatype Emitted = Emitted(r: Result<nat>, table: seq<Text>, bytes: seq<Byte>)

  /** write(key, out) on an encoder holding table. */
  function WriteStep(table: seq<Text>, key: Text): (e: Emitted)
    ensures e.r.Ok? && |table| <= Capacity ==> |e.table| <= Capacity
  {
    LastIdsFacts(table);
    if key in table then Emitted(Ok(LastIds(table)[key]), table, [])
    else if |table| >= Capacity then Emitted(Err(KeyCapacity), table, [])
    else if |key| >= 65536 then Emitted(Err(UtfTooLong(|key|)), table + [key], [KeyRegister])
    else Emitted(Ok(|table|), table + [key], [KeyRegister] + Utf(key))
  }

  /** A sequence of write calls, stopping at the first that fails. */
  function WriteAll(table: seq<Text>, ks: seq<Text>): (e: Emitted)
    ensures |table| <= Capacity ==> |e.table| <= Capacity
    decreases |ks|
  {
    if ks == [] then Emitted(Ok(|table|), table, [])
    else
      var first := WriteStep(table, ks[0]);
      if first.r.Err? then first
      else
        var more := WriteAll(first.table, ks[1..]);
        Emitted(more.r, more.table, first.bytes + more.bytes)
  }

  /**
   * A successful write returns the key's id in the new table; a new key is
   * appended and announced with 0xF1 and its writeUTF form, a known key costs
   * nothing.
   */
  lemma WriteStepFacts(table: seq<Text>, key: Text)
    ensures var e := WriteStep(table, key);
      && (e.r.Ok? ==> e.r.value < |e.table| && e.table[e.r.value] == key)
      && (key in table ==> e.r.Ok? && e.table == table && e.bytes == [])
      && (key !in table && |table| >= Capacity ==> e == Emitted(Err(KeyCapacity), table, []))
      && (key !in table && |table| < Capacity ==> e.table == table + [key] && e.bytes[..1] == [KeyRegister])
      && (key !in table && |table| < Capacity ==> (e.r.Ok? <==> |key| < 65536))
      && (e.r.Err? && key !in table && |table| < Capacity ==> e.r == Err(UtfTooLong(|key|)))
      && (key !in table && e.r.Ok? ==> e.r.value == |table| && e.bytes == [KeyRegister] + Utf(key))
      && (e.r.Ok? && |table| <= Capacity ==> |e.table| <= Capacity)
  {
    LastIdsFacts(table);
  }

  /** Writing never introduces a duplicate key into the table. */
  lemma {:induction false} WriteAllUnique(table: seq<Text>, ks: seq<Text>)
    requires NoDuplicates(table)
    ensures NoDuplicates(WriteAll(table, ks).table)
    decreases |ks|
  {
    if ks != [] {
      var first := WriteStep(table, ks[0]);
      assert NoDuplicates(first.table);
      if first.r.Ok? {
        WriteAllUnique(first.table, ks[1..]);
      }
    }
  }

  /** Reading the payload that follows a 0xF1 emitted by write stores the same key. */
  lemma ReadStepOfWrite(table: seq<Text>, key: Text, rest: seq<Byte>)
    requires key !in table && WriteStep(table, key).r.Ok?
    ensures WriteStep(table, key).bytes == [KeyRegister] + Utf(key)
    ensures ReadStep(table, Utf(key) + rest) == Got(Ok(WriteStep(table, key).table), rest)
  {
    TakeUtfOfUtf(key, rest);
  }

  class KeyStreamEncoder {
    var lookup: map<Text, nat>
    var keys: array<Text>
    var index: nat

    ghost predicate Valid()
      reads this, keys
    {
      keys.Length == Capacity && index <= Capacity && lookup == LastIds(keys[..index])
    }

    /** The id table: keys[0..index). */
    function Table(): seq<Text>
      reads this, keys
      requires index <= keys.Length
    {
      keys[..index]
    }

    /** KeyStreamEncoder(): reset(null). */
    constructor ()
      ensures Valid() && Table() == [] && fresh(keys)
    {
      new;
      Reset(null);
    }

    /** reset(out): an empty dictionary, announced with 0xF2 when out is given. */
    method Reset(out: DataOutput?)
      modifies this, out
      ensures Valid() && Table() == [] && lookup == map[] && fresh(keys)
      ensures out != null ==> out.written == old(out.written) + [KeyReset]
    {
      lookup := map[];
      keys := new Text[Capacity];
      index := 0;
      if out != null {
        out.Write(KeyReset);
      }
    }

    /** get(String key): the key's id, or null. */
    function GetId(key: Text): (id: Option<nat>)
      reads this, keys
      requires Valid()
      ensures id.Some? <==> key in Table()
      ensures id.Some? ==> id.value < |Table()| < Capacity + 1 && Table()[id.value] == key
    {
      LastIdsFacts(keys[..index]);
      if key in lookup then Some(lookup[key]) else None
    }

    /** get(int id). */
    function GetKey(id: int): (r: Result<Text>)
      reads this, keys
      requires Valid()
      ensures r.Ok? <==> 0 <= id < |Table()|
      ensures r.Ok? ==> r.value == Table()[id]
      ensures r.Err? ==> r.error == NoSuchKey(id)
    {
      KeyAt(keys[..index], id)
    }

    function Size(): (n: nat)
      reads this, keys
      requires Valid()
      ensures n == |Table()| <= Capacity
    {
      index
    }

    /** read(in): register the next key of the stream. */
    method Read(input: DataInput) returns (r: Result<()>)
      requires Valid() && input.Valid()
      modifies this, keys, input
      ensures Valid() && input.Valid() && keys == old(keys)
      ensures var g := ReadStep(old(Table()), old(input.Rest()));
        && input.Rest() == g.rest
        && (g.r.Ok? ==> r.Ok? && Table() == g.r.value)
        && (g.r.Err? ==> r == Err(g.r.error) && Table() == old(Table()))
    {
      if index >= keys.Length {
        return Err(KeyCapacity);
      }
      var key := input.ReadUtf();
      if key.Err? {
        return Err(key.error);
      }
      var id := index;
      keys[id] := key.value;
      index := index + 1;
      assert keys[..index] == old(keys[..index]) + [key.value];
      lookup := lookup[key.value := id];
      r := Ok(());
    }

    /** write(key, out): the key's id, registering and announcing a new key. */
    method Write(key: Text, out: DataOutput) returns (r: Result<nat>)
      requires Valid()
      modifies this, keys, out
      ensures Valid() && keys == old(keys)
      ensures var e := WriteStep(old(Table()), key);
        r == e.r && Table() == e.table && out.written == old(out.written) + e.bytes
    {
      LastIdsFacts(keys[..index]);
      if key in lookup {
        return Ok(lookup[key]);
      }
      if index >= keys.Length {
        return Err(KeyCapacity);
      }
      var id := index;
      keys[id] := key;
      index := index + 1;
      assert keys[..index] == old(keys[..index]) + [key];
      lookup := lookup[key := id];
      out.Write(KeyRegister);
      var written := out.WriteUtf(key);
      if written.Err? {
        return Err(written.error);
      }
      r := Ok(id);
    }
  }
}
