/** A growable byte buffer, read from the front and written at the back. */
module Buffers {
  import opened Basics

  newtype byte = x: int | 0 <= x < 256

  class Buffer {
    var data: seq<byte>

    constructor (bytes: seq<byte>)
      ensures data == bytes
    {
      data := bytes;
    }

    /** Takes the next unread byte; None is the end of the input. */
    method ReadByte() returns (c: Option<byte>)
      modifies this
      ensures old(data) == [] ==> c == None && data == []
      ensures old(data) != [] ==> c == Some(old(data)[0]) && data == old(data)[1..]
    {
      if data == [] {
        return None;
      }
      c := Some(data[0]);
      data := data[1..];
    }

    method WriteByte(c: byte)
      modifies this
      ensures data == old(data) + [c]
    {
      data := data + [c];
    }
  }
}
