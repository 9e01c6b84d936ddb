/** A source of bytes that ends: what is left to read. */
module ByteSources {
  import opened Machine

  class ByteSource {
    var data: seq<byte>

    constructor (data: seq<byte>)
      ensures this.data == data
    {
      this.data := data;
    }

    /** The next byte, or None at the end. */
    method ReadByte() returns (b: Option<byte>)
      modifies this
      ensures old(data) == [] ==> b == None && data == []
      ensures old(data) != [] ==> b == Some(old(data)[0]) && data == old(data)[1..]
    {
      if data == [] {
        return None;
      }
      b := Some(data[0]);
      data := data[1..];
    }
  }
}
