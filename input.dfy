/**
 * BinaryInput: the framing of a record stream (magic bytes, version, flags)
 * and the pull iterator over the records that follow it. The stream functions
 * say which records a byte sequence holds; the classes are proved to hand out
 * exactly those, one look-ahead record at a time.
 */
module Input {
  import opened Base
  import opened DataIO
  import opened Values
  import opened Keys
  import opened Wire
  import opened WireLaws
  import opened WireEncode
  import opened Decoder

  /** The six bytes every stream starts with: FF FF 'B' 'S' 'O' 'N'. */
  const Magic: seq<Byte> := [0xFF, 0xFF, 0x42, 0x53, 0x4F, 0x4E]

  /** The highest format version this reader accepts. */
  const MaxVersion: int := 0x01

  /** InputStream.read() at position i: the byte there, or -1 past the end. */
  function RawAt(s: seq<Byte>, i: nat): (b: int)
    ensures -1 <= b < 256
    ensures b == -1 <==> i >= |s|
  {
    if i < |s| then s[i] else -1
  }

  /** The version and flags read after the magic bytes (each -1 at the end of the stream). */
  datatype Framing = Framing(version: int, flags: int)

  /**
   * (flags & 0x01) > 0 for a value of InputStream.read(): Dafny's % is
   * Euclidean, so -1 % 2 == 1 agrees with -1 & 1 in two's complement.
   */
  predicate Compressed(flags: int)
  {
    flags % 2 == 1
  }

  /**
   * The header check of iterator(): the magic bytes, then the version and the
   * flags; a version above 1 is refused. What follows the two bytes is the payload.
   */
  function Frame(s: seq<Byte>): (g: Got<Framing>)
    ensures g.r.Ok? ==> |s| >= 6 && s[..6] == Magic && g.r.value.version <= MaxVersion
    ensures g.r.Ok? ==> g.rest == if |s| >= 8 then s[8..] else []
  {
    if !(|s| >= |Magic| && s[..|Magic|] == Magic) then Got(Err(BadHeader), [])
    else
      var version, flags := RawAt(s, 6), RawAt(s, 7);
      if version > MaxVersion then Got(Err(UnsupportedVersion(version)), [])
      else Got(Ok(Framing(version, flags)), if |s| >= 8 then s[8..] else [])
  }

  /**
   * The bytes the records are decoded from: the rest of the stream, or what
   * GZIPInputStream makes of it when flags bit 0 is set. `inflate` stands for
   * the decompressor and yields None where it throws.
   */
  function Open(s: seq<Byte>, inflate: seq<Byte> -> Option<seq<Byte>>): (r: Result<seq<Byte>>)
  {
    var g := Frame(s);
    if g.r.Err? then Err(g.r.error)
    else if !Compressed(g.r.value.flags) then Ok(g.rest)
    else
      match inflate(g.rest)
      case None => Err(Compression)
      case Some(payload) => Ok(payload)
  }

  /**
   * One top-level read of the iterator: the value cast to a DivirganceRecord;
   * null (tag 0x00 or 0xFF) yields no record and ends the iteration.
   */
  function Pull(s: seq<Byte>, d: Dicts, stag: StringTag): (r: Step<Option<Rec>>)
    ensures r.Done? ==> |r.rest| < |s|
  {
    var one := Decode(s, d, stag);
    if one.Failed? then Failed(one.e)
    else if one.v.Null? then Done(None, one.rest, one.dicts)
    else if one.v.Obj? then Done(Some(one.v.rec), one.rest, one.dicts)
    else Failed(NotARecord)
  }

  /**
   * The records a stream yields and how it stops: at a null, with the bytes
   * and dictionaries left after it, or at an error.
   */
  datatype Run = Run(records: seq<Rec>, stop: Step<()>)

  /** A record in front of a run. */
  function Shift(x: Option<Rec>, run: Run): (r: Run)
    ensures r.stop == run.stop
    ensures r.records == if x.Some? then [x.value] + run.records else run.records
  {
    if x.Some? then Run([x.value] + run.records, run.stop) else run
  }

  /** Every record up to the first null, as hasNext()/next() would hand them out. */
  function RecordRun(s: seq<Byte>, d: Dicts, stag: StringTag): (r: Run)
    decreases |s|
  {
    var p := Pull(s, d, stag);
    if p.Failed? then Run([], Failed(p.e))
    else if p.v.None? then Run([], Done((), p.rest, p.dicts))
    else Shift(p.v, RecordRun(p.rest, p.dicts, stag))
  }

  // ---------------------------------------------------------------------------
  // The framing rules
  // ---------------------------------------------------------------------------

  /** The stream is refused as "not in the BSON format" exactly when its first six bytes are not the magic. */
  lemma MagicRequired(s: seq<Byte>, inflate: seq<Byte> -> Option<seq<Byte>>)
    ensures Open(s, inflate) == Err(BadHeader) <==> !(|s| >= 6 && s[..6] == Magic)
  {
  }

  /** After the magic, a version byte above 1 is refused and versions 0 and 1 are accepted. */
  lemma VersionRule(version: Byte, flags: Byte, body: seq<Byte>, inflate: seq<Byte> -> Option<seq<Byte>>)
    ensures var r := Open(Magic + [version, flags] + body, inflate);
      && (version > 1 ==> r == Err(UnsupportedVersion(version)))
      && (version <= 1 && !Compressed(flags) ==> r == Ok(body))
  {
    var s := Magic + [version, flags] + body;
    assert s[..6] == Magic && s[6] == version && s[7] == flags && s[8..] == body;
  }

  /** Only bit 0 of the flags is looked at: it selects the GZIP payload. */
  lemma OnlyFlagBitZero(version: Byte, f: Byte, f': Byte, body: seq<Byte>, inflate: seq<Byte> -> Option<seq<Byte>>)
    requires f % 2 == f' % 2
    ensures Open(Magic + [version, f] + body, inflate) == Open(Magic + [version, f'] + body, inflate)
    ensures version <= 1 && f % 2 == 1 ==>
      Open(Magic + [version, f] + body, inflate) == if inflate(body).None? then Err(Compression) else Ok(inflate(body).value)
  {
    var s, s' := Magic + [version, f] + body, Magic + [version, f'] + body;
    assert s[..6] == Magic && s[6] == version && s[7] == f && s[8..] == body;
    assert s'[..6] == Magic && s'[6] == version && s'[7] == f' && s'[8..] == body;
  }

  /**
   * A stream that ends right after the magic passes the version check (-1 is
   * not above 1), and its flags (-1 as well) have bit 0 set: the empty rest is
   * handed to the decompressor.
   */
  lemma HeaderAtEndOfStream(inflate: seq<Byte> -> Option<seq<Byte>>)
    ensures Frame(Magic) == Got(Ok(Framing(-1, -1)), [])
    ensures Open(Magic, inflate) == if inflate([]).None? then Err(Compression) else Ok(inflate([]).value)
  {
    assert Magic[..6] == Magic;
  }

  // ---------------------------------------------------------------------------
  // The records of a stream
  // ---------------------------------------------------------------------------

  /** A top-level 0x00 ends the iteration just as the 0xFF end marker does. */
  lemma NullEndsRecords(tag: Byte, t: seq<Byte>, d: Dicts, stag: StringTag)
    requires tag == TypeNull || tag == TypeEof
    ensures RecordRun([tag] + t, d, stag) == Run([], Done((), t, d))
  {
    NullTags(tag, t, d, stag);
  }

  /** A top-level value that is neither null nor a record ends the iteration with an error. */
  lemma NonRecordFails(s: seq<Byte>, d: Dicts, stag: StringTag)
    requires Decode(s, d, stag).Done? && !Decode(s, d, stag).v.Null? && !Decode(s, d, stag).v.Obj?
    ensures RecordRun(s, d, stag) == Run([], Failed(NotARecord))
  {
  }

  /** Records written one after another, with the end marker after them. */
  ghost function EncodeRecords(rs: seq<Rec>, d: Dicts): (bs: seq<Byte>)
    requires |d.keys| <= Capacity && forall i | 0 <= i < |rs| :: Encodable(Obj(rs[i]), d)
    ensures |bs| >= 1 + |rs|
  {
    if rs == [] then [TypeEof] else Encode(Obj(rs[0]), d) + EncodeRecords(rs[1..], d)
  }

  /**
   * The iterator hands back every record of a stream of encoded records, in
   * order, and stops at the end marker.
   */
  lemma {:induction false} RecordsRoundTrip(rs: seq<Rec>, d: Dicts, rest: seq<Byte>, stag: StringTag)
    requires |d.keys| <= Capacity && forall i | 0 <= i < |rs| :: Encodable(Obj(rs[i]), d)
    ensures RecordRun(EncodeRecords(rs, d) + rest, d, stag) == Run(rs, Done((), rest, d))
  {
    if rs == [] {
      NullEndsRecords(TypeEof, rest, d, stag);
    } else {
      var tail := EncodeRecords(rs[1..], d) + rest;
      assert EncodeRecords(rs, d) + rest == Encode(Obj(rs[0]), d) + tail;
      ObjectRoundTrip(rs[0], d, tail, stag);
      assert Pull(EncodeRecords(rs, d) + rest, d, stag) == Done(Some(rs[0]), tail, d);
      RecordsRoundTrip(rs[1..], d, rest, stag);
      assert [rs[0]] + rs[1..] == rs;
    }
  }

  // ---------------------------------------------------------------------------
  // The classes
  // ---------------------------------------------------------------------------

  /** The anonymous CloseableIterator of iterator(): a look-ahead record and a closed flag. */
  class RecordIterator {
    const decoder: BinaryDecoder
    const input: DataInput
    var record: Option<Rec>
    var closed: bool

    ghost predicate Valid()
      reads this, decoder, decoder.keys, decoder.keys.keys, input
    {
      decoder.Valid() && input.Valid() && (record.Some? ==> !closed)
    }

    /** The records still to come and how the iteration will stop. */
    ghost function Pending(): Run
      reads this, decoder, decoder.keys, decoder.keys.keys, decoder.strings, input
      requires Valid()
    {
      Shift(record,
        if closed then Run([], Done((), input.Rest(), decoder.State()))
        else RecordRun(input.Rest(), decoder.State(), decoder.stag))
    }

    constructor (decoder: BinaryDecoder, input: DataInput)
      requires decoder.Valid() && input.Valid()
      ensures this.decoder == decoder && this.input == input
      ensures Valid() && record == None && !closed
      ensures Pending() == RecordRun(input.Rest(), decoder.State(), decoder.stag)
    {
      this.decoder := decoder;
      this.input := input;
      record := None;
      closed := false;
    }

    /**
     * hasNext(): true while a record is held or the next read yields one; it
     * reads at most one value, and none while a record is held or once closed.
     */
    method HasNext() returns (r: Result<bool>)
      requires Valid()
      modifies this, input, decoder.keys, decoder.keys.keys, decoder.strings
      ensures Valid() && (decoder.keys.keys == old(decoder.keys.keys) || fresh(decoder.keys.keys))
      ensures old(record).Some? || old(closed) ==>
        && r == Ok(old(record).Some?) && record == old(record) && closed == old(closed)
        && input.Rest() == old(input.Rest()) && decoder.State() == old(decoder.State())
      ensures old(record).None? && !old(closed) ==>
        && Outcome(if r.Ok? then Ok(record) else Err(r.error), input.Rest(), decoder.State())
             == Pull(old(input.Rest()), old(decoder.State()), decoder.stag)
        && closed == (r == Ok(false))
      ensures r.Ok? ==> Pending() == old(Pending()) && (r.value <==> record.Some?)
      ensures r == Ok(false) ==> closed
      ensures r.Err? ==> old(Pending()) == Run([], Failed(r.error))
      ensures |input.Rest()| <= |old(input.Rest())|
      ensures r == Ok(true) && old(record).None? ==> |input.Rest()| < |old(input.Rest())|
    {
      if record.Some? {
        return Ok(true);
      }
      if closed {
        return Ok(false);
      }
      var v := decoder.Read(input);
      if v.Err? {
        return Err(v.error);
      }
      if v.value.Null? {
        closed := true;
        return Ok(false);
      }
      if !v.value.Obj? {
        return Err(NotARecord);
      }
      record := Some(v.value.rec);
      return Ok(true);
    }

    /**
     * next(): hands out and clears the held record, or else reads one value;
     * a null read closes the iterator and is handed out as no record.
     */
    method Next() returns (r: Result<Option<Rec>>)
      requires Valid()
      modifies this, input, decoder.keys, decoder.keys.keys, decoder.strings
      ensures Valid() && (decoder.keys.keys == old(decoder.keys.keys) || fresh(decoder.keys.keys))
      ensures record == None && closed == (old(closed) || r == Ok(None))
      ensures old(record).Some? ==>
        && r == Ok(old(record))
        && input.Rest() == old(input.Rest()) && decoder.State() == old(decoder.State())
      ensures old(record).None? ==>
        Outcome(r, input.Rest(), decoder.State()) == Pull(old(input.Rest()), old(decoder.State()), decoder.stag)
      ensures r.Ok? && old(record.Some? || !closed) ==> old(Pending()) == Shift(r.value, Pending())
      ensures |input.Rest()| <= |old(input.Rest())|
    {
      r := Ok(record);
      if record.None? {
        var v := decoder.Read(input);
        if v.Err? {
          r := Err(v.error);
        } else if v.value.Null? {
          closed := true;
          r := Ok(None);
        } else if v.value.Obj? {
          r := Ok(Some(v.value.rec));
        } else {
          r := Err(NotARecord);
        }
      }
      record := None;
    }

    /**
     * close(): drains the iterator until hasNext() is false, then marks it
     * closed; the stream is left where the pending run stops.
     */
    method Close() returns (r: Result<()>)
      requires Valid()
      modifies this, input, decoder.keys, decoder.keys.keys, decoder.strings
      ensures Valid() && (decoder.keys.keys == old(decoder.keys.keys) || fresh(decoder.keys.keys))
      ensures r.Ok? ==> closed && record == None && Pending().records == []
                        && old(Pending()).stop == Done((), input.Rest(), decoder.State())
      ensures r.Err? ==> old(Pending()).stop == Failed(r.error)
    {
      ghost var goal := Pending().stop;
      while true
        invariant Valid() && Pending().stop == goal
        invariant decoder.keys.keys == old(decoder.keys.keys) || fresh(decoder.keys.keys)
        decreases |input.Rest()|, if record.Some? then 1 else 0
      {
        var more := HasNext();
        if more.Err? {
          return Err(more.error);
        }
        if !more.value {
          break;
        }
        var _ := Next();
      }
      closed := true;
      return Ok(());
    }
  }

  /** BinaryInput: a record stream over an InputStream. */
  class BinaryInput {
    const source: DataInput

    constructor (source: DataInput)
      ensures this.source == source
    {
      this.source := source;
    }

    /**
     * The header check of iterator(), a byte at a time: the magic, then the
     * version and the flags.
     */
    static method ReadHeader(buffer: DataInput) returns (r: Result<Framing>)
      requires buffer.Valid()
      modifies buffer
      ensures buffer.Valid()
      ensures r == Frame(old(buffer.Rest())).r
      ensures r.Ok? ==> buffer.Rest() == Frame(old(buffer.Rest())).rest
    {
      ghost var s := buffer.Rest();
      var i := 0;
      while i < |Magic|
        invariant buffer.Valid() && i <= |Magic| && i <= |s|
        invariant s[..i] == Magic[..i] && buffer.Rest() == s[i..]
      {
        var b := buffer.ReadRaw();
        if b != Magic[i] {
          assert i >= |s| || s[i] != Magic[i];
          return Err(BadHeader);
        }
        assert s[..i + 1] == s[..i] + [s[i]];
        i := i + 1;
      }
      assert s[..6] == Magic;
      var version := buffer.ReadRaw();
      var flags := buffer.ReadRaw();
      assert version == RawAt(s, 6) && flags == RawAt(s, 7);
      if version > MaxVersion {
        return Err(UnsupportedVersion(version));
      }
      return Ok(Framing(version, flags));
    }

    /**
     * iterator(): a fresh decoder, the header check, and an iterator over the
     * payload; the plain payload is read from the same stream.
     */
    method Iterator(inflate: seq<Byte> -> Option<seq<Byte>>, stag: StringTag) returns (r: Result<RecordIterator>)
      requires source.Valid()
      modifies source
      ensures source.Valid()
      ensures r.Ok? <==> Open(old(source.Rest()), inflate).Ok?
      ensures r.Err? ==> r.error == Open(old(source.Rest()), inflate).error
      ensures r.Ok? ==>
        && fresh(r.value) && fresh(r.value.decoder) && r.value.Valid()
        && fresh(r.value.decoder.keys) && fresh(r.value.decoder.keys.keys) && fresh(r.value.decoder.strings)
        && (r.value.input == source || fresh(r.value.input))
        && r.value.decoder.stag == stag && r.value.record == None && !r.value.closed
        && r.value.input.Rest() == Open(old(source.Rest()), inflate).value
        && r.value.Pending() == RecordRun(Open(old(source.Rest()), inflate).value, Dicts([], []), stag)
    {
      var decoder := new BinaryDecoder(stag);
      var header := ReadHeader(source);
      if header.Err? {
        return Err(header.error);
      }
      var input := source;
      if Compressed(header.value.flags) {
        var payload := inflate(source.Rest());
        if payload.None? {
          return Err(Compression);
        }
        input := new DataInput(payload.value);
      }
      var it := new RecordIterator(decoder, input);
      return Ok(it);
    }
  }
}
