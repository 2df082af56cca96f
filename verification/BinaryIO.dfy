// NrWriter and NrReader: a growing byte buffer and a bounds-checked cursor over a byte string.
module BinaryIO {
  import opened Bytes
  import opened Wrappers

  class NrWriter {
    var data: seq<Byte>

    constructor ()
      ensures data == []
    {
      data := [];
    }

    method WriteBytes(b: seq<Byte>)
      modifies this
      ensures data == old(data) + b
    {
      data := data + b;
    }
  }

  class NrReader {
    const data: seq<Byte>
    var pos: nat

    ghost predicate Valid()
      reads this
    {
      pos <= |data|
    }

    ghost function Rest(): seq<Byte>
      reads this
      requires Valid()
    {
      data[pos..]
    }

    constructor (buf: seq<Byte>)
      ensures Valid() && data == buf && pos == 0
    {
      data, pos := buf, 0;
    }

    /** nr_read_bytes; the abort on a short read is the None result. */
    method ReadBytes(n: int) returns (r: Option<seq<Byte>>)
      requires Valid()
      modifies this
      ensures Valid()
      ensures match Take(old(Rest()), n)
              case None => r == None && pos == old(pos)
              case Some((b, rest)) => r == Some(b) && Rest() == rest
    {
      if n < 0 || pos + n > |data| { return None; }
      assert data[pos..][..n] == data[pos..pos + n] && data[pos..][n..] == data[pos + n..];
      r := Some(data[pos..pos + n]);
      pos := pos + n;
    }
  }
}
