/**
 * The java.io primitives the codec relies on: big-endian numbers, the reads of
 * DataInput (as functions on the unread bytes, and as a cursor object that
 * advances), and the writes of DataOutput.
 */
module DataIO {
  import opened Base

  /** 256 to the power w: the number of values a w-byte field can hold. */
  function Pow256(w: nat): (p: nat)
    ensures p > 0
  {
    if w == 0 then 1 else 256 * Pow256(w - 1)
  }

  /** The unsigned big-endian number spelled by the bytes. */
  function Unsigned(bs: seq<Byte>): (n: nat)
    ensures n < Pow256(|bs|)
  {
    if bs == [] then 0 else Unsigned(bs[..|bs| - 1]) * 256 + bs[|bs| - 1]
  }

  /** Half the range of a w-byte field: the bound of its signed values. */
  function Half(w: nat): int
  {
    Pow256(w) / 2
  }

  /** Two's complement reading of a w-byte unsigned field. */
  function ToSigned(u: int, w: nat): int
  {
    if u >= Half(w) then u - Pow256(w) else u
  }

  /** The bytes of n in a big-endian field of w bytes. */
  function BigEndian(n: nat, w: nat): (bs: seq<Byte>)
    requires n < Pow256(w)
    ensures |bs| == w
  {
    if w == 0 then [] else BigEndian(n / 256, w - 1) + [n % 256]
  }

  /** Two's complement field content of a signed number. */
  function FromSigned(i: int, w: nat): (u: nat)
    requires -Half(w) <= i < Half(w)
    ensures u < Pow256(w)
  {
    if i < 0 then i + Pow256(w) else i
  }

  lemma {:induction false} UnsignedBigEndian(n: nat, w: nat)
    requires n < Pow256(w)
    ensures Unsigned(BigEndian(n, w)) == n
  {
    if w > 0 {
      var bs := BigEndian(n, w);
      assert bs[..w - 1] == BigEndian(n / 256, w - 1);
      UnsignedBigEndian(n / 256, w - 1);
    }
  }

  lemma SignedRoundTrip(i: int, w: nat)
    requires w > 0
    requires -Half(w) <= i < Half(w)
    ensures ToSigned(FromSigned(i, w), w) == i
  {
    assert Pow256(w) == 256 * Pow256(w - 1);
  }

  /** What a read leaves behind: its result and the bytes not yet consumed. */
  datatype Got<+T> = Got(r: Result<T>, rest: seq<Byte>)

  /**
   * readFully of n bytes. At the end of the stream the read fails with an
   * EOFException after consuming everything that was left.
   */
  function Take(s: seq<Byte>, n: nat): (g: Got<seq<Byte>>)
    ensures g.r.Ok? <==> n <= |s|
    ensures g.r.Ok? ==> g.r.value + g.rest == s && |g.r.value| == n
    ensures g.r.Err? ==> g.r.error == EndOfStream && g.rest == []
  {
    if n <= |s| then Got(Ok(s[..n]), s[n..]) else Got(Err(EndOfStream), [])
  }

  /** readUnsignedByte / readUnsignedShort: an unsigned w-byte big-endian field. */
  function TakeUnsigned(s: seq<Byte>, w: nat): (g: Got<int>)
    ensures g.r.Ok? <==> w <= |s|
    ensures g.r.Ok? ==> 0 <= g.r.value < Pow256(w) && g.rest == s[w..]
    ensures g.r.Err? ==> g.r.error == EndOfStream && g.rest == []
  {
    var t := Take(s, w);
    if t.r.Ok? then Got(Ok(Unsigned(t.r.value)), t.rest) else Got(Err(t.r.error), t.rest)
  }

  /** readByte / readShort / readInt / readLong: a signed w-byte big-endian field. */
  function TakeSigned(s: seq<Byte>, w: nat): (g: Got<int>)
    requires w > 0
    ensures g.r.Ok? <==> w <= |s|
    ensures g.r.Ok? ==> -Half(w) <= g.r.value < Half(w) && g.rest == s[w..]
    ensures g.r.Err? ==> g.r.error == EndOfStream && g.rest == []
  {
    var u := TakeUnsigned(s, w);
    assert Pow256(w) == 2 * Half(w);
    if u.r.Ok? then Got(Ok(ToSigned(u.r.value, w)), u.rest) else u
  }

  /** readUTF: an unsigned 16-bit byte count followed by that many bytes. */
  function TakeUtf(s: seq<Byte>): (g: Got<Text>)
    ensures g.r.Ok? ==> |g.r.value| < 65536 && s == BigEndian(|g.r.value|, 2) + g.r.value + g.rest
    ensures g.r.Err? ==> g.r.error == EndOfStream && g.rest == []
  {
    var n := TakeUnsigned(s, 2);
    if n.r.Err? then Got(Err(n.r.error), n.rest)
    else
      var t := Take(n.rest, n.r.value);
      UnsignedBigEndian(n.r.value, 2);
      assert s[..2] == BigEndian(n.r.value, 2) by { BigEndianOfUnsigned(s[..2]); }
      t
  }

  lemma {:induction false} BigEndianOfUnsigned(bs: seq<Byte>)
    ensures BigEndian(Unsigned(bs), |bs|) == bs
  {
    if bs != [] {
      var init := bs[..|bs| - 1];
      BigEndianOfUnsigned(init);
      assert bs == init + [bs[|bs| - 1]];
    }
  }

  /** writeUTF: the byte count as an unsigned 16-bit field, then the bytes. */
  function Utf(t: Text): (bs: seq<Byte>)
    requires |t| < 65536
    ensures |bs| == 2 + |t|
  {
    BigEndian(|t|, 2) + t
  }

  lemma TakeUtfOfUtf(t: Text, rest: seq<Byte>)
    requires |t| < 65536
    ensures TakeUtf(Utf(t) + rest) == Got(Ok(t), rest)
  {
    var s := Utf(t) + rest;
    assert s == BigEndian(|t|, 2) + (t + rest);
    TakeUnsignedOf(|t|, 2, t + rest);
    assert (t + rest)[..|t|] == t;
    assert (t + rest)[|t|..] == rest;
  }

  lemma TakeUnsignedOf(n: nat, w: nat, rest: seq<Byte>)
    requires n < Pow256(w)
    ensures TakeUnsigned(BigEndian(n, w) + rest, w) == Got(Ok(n), rest)
  {
    var s := BigEndian(n, w) + rest;
    assert s[..w] == BigEndian(n, w);
    assert s[w..] == rest;
    UnsignedBigEndian(n, w);
  }

  lemma TakeSignedOf(i: int, w: nat, rest: seq<Byte>)
    requires w > 0
    requires -Half(w) <= i < Half(w)
    ensures TakeSigned(BigEndian(FromSigned(i, w), w) + rest, w) == Got(Ok(i), rest)
  {
    TakeUnsignedOf(FromSigned(i, w), w, rest);
    SignedRoundTrip(i, w);
  }

  /**
   * A DataInputStream over a finite byte source: the bytes and how many of them
   * have been consumed.
   */
  class DataInput {
    const data: seq<Byte>
    var pos: nat

    ghost predicate Valid()
      reads this
    {
      pos <= |data|
    }

    /** The bytes not yet consumed. */
    function Rest(): seq<Byte>
      reads this
      requires Valid()
    {
      data[pos..]
    }

    constructor (data: seq<Byte>)
      ensures Valid() && this.data == data && Rest() == data
    {
      this.data := data;
      pos := 0;
    }

    /** InputStream.read(): the next byte, or -1 at the end without consuming anything. */
    method ReadRaw() returns (b: int)
      requires Valid()
      modifies this
      ensures Valid()
      ensures old(Rest()) == [] ==> b == -1 && Rest() == []
      ensures old(Rest()) != [] ==> b == old(Rest())[0] && Rest() == old(Rest())[1..]
    {
      if pos < |data| {
        b := data[pos];
        pos := pos + 1;
      } else {
        b := -1;
      }
    }

    method ReadFully(n: nat) returns (r: Result<seq<Byte>>)
      requires Valid()
      modifies this
      ensures Valid() && Got(r, Rest()) == Take(old(Rest()), n)
    {
      if pos + n <= |data| {
        r := Ok(data[pos..pos + n]);
        assert data[pos..][..n] == data[pos..pos + n];
        assert data[pos..][n..] == data[pos + n..];
        pos := pos + n;
      } else {
        r := Err(EndOfStream);
        pos := |data|;
      }
    }

    method ReadUnsigned(w: nat) returns (r: Result<int>)
      requires Valid()
      modifies this
      ensures Valid() && Got(r, Rest()) == TakeUnsigned(old(Rest()), w)
    {
      var bs := ReadFully(w);
      if bs.Ok? {
        r := Ok(Unsigned(bs.value));
      } else {
        r := Err(bs.error);
      }
    }

    method ReadSigned(w: nat) returns (r: Result<int>)
      requires Valid() && w > 0
      modifies this
      ensures Valid() && Got(r, Rest()) == TakeSigned(old(Rest()), w)
    {
      r := ReadUnsigned(w);
      if r.Ok? {
        r := Ok(ToSigned(r.value, w));
      }
    }

    method ReadUtf() returns (r: Result<Text>)
      requires Valid()
      modifies this
      ensures Valid() && Got(r, Rest()) == TakeUtf(old(Rest()))
    {
      var n := ReadUnsigned(2);
      if n.Err? {
        return Err(n.error);
      }
      r := ReadFully(n.value);
    }
  }

  /** A DataOutputStream: everything written so far. */
  class DataOutput {
    var written: seq<Byte>

    constructor ()
      ensures written == []
    {
      written := [];
    }

    method Write(b: Byte)
      modifies this
      ensures written == old(written) + [b]
    {
      written := written + [b];
    }

    /**
     * writeUTF: fails with a UTFDataFormatException, writing nothing, when the
     * encoded form is longer than 65535 bytes.
     */
    method WriteUtf(t: Text) returns (r: Result<()>)
      modifies this
      ensures r.Ok? <==> |t| < 65536
      ensures r.Ok? ==> written == old(written) + Utf(t)
      ensures r.Err? ==> r.error == UtfTooLong(|t|) && written == old(written)
    {
      if |t| >= 65536 {
        return Err(UtfTooLong(|t|));
      }
      written := written + Utf(t);
      r := Ok(());
    }
  }
}
