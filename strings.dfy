/**
 * StringEncoder as the decoder uses it: a growing dictionary of strings read
 * from the stream, looked up by id. Its own source is not part of this model,
 * so no capacity and no reset operation are assumed.
 */
module Strings {
  import opened Base
  import opened DataIO

  /** get(id): the string registered under id. */
  function StringAt(entries: seq<Text>, id: int): (r: Result<Text>)
    ensures r.Ok? <==> 0 <= id < |entries|
    ensures r.Ok? ==> r.value == entries[id]
    ensures r.Err? ==> r.error == NoSuchString(id)
  {
    if 0 <= id < |entries| then Ok(entries[id]) else Err(NoSuchString(id))
  }

  /** read(in): registers the string that readUTF yields under the next id. */
  function StringRead(entries: seq<Text>, s: seq<Byte>): (g: Got<seq<Text>>)
    ensures g.r.Ok? ==> |g.r.value| == |entries| + 1 && g.r.value[..|entries|] == entries
                        && |g.r.value[|entries|]| < 65536
                        && s == BigEndian(|g.r.value[|entries|]|, 2) + g.r.value[|entries|] + g.rest
    ensures g.r.Err? ==> g.r.error == EndOfStream && g.rest == []
  {
    var u := TakeUtf(s);
    if u.r.Err? then Got(Err(u.r.error), u.rest)
    else
      assert (entries + [u.r.value])[..|entries|] == entries;
      Got(Ok(entries + [u.r.value]), u.rest)
  }

  class StringEncoder {
    var entries: seq<Text>

    constructor ()
      ensures entries == []
    {
      entries := [];
    }

    function Get(id: int): (r: Result<Text>)
      reads this
      ensures r.Ok? <==> 0 <= id < |entries|
      ensures r.Ok? ==> r.value == entries[id]
    {
      StringAt(entries, id)
    }

    method Read(input: DataInput) returns (r: Result<()>)
      requires input.Valid()
      modifies this, input
      ensures input.Valid()
      ensures var g := StringRead(old(entries), old(input.Rest()));
        && input.Rest() == g.rest
        && (g.r.Ok? ==> r.Ok? && entries == g.r.value)
        && (g.r.Err? ==> r == Err(g.r.error) && entries == old(entries))
    {
      var s := input.ReadUtf();
      if s.Err? {
        return Err(s.error);
      }
      entries := entries + [s.value];
      r := Ok(());
    }
  }
}
