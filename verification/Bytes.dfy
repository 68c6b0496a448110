/** Bytes, and a buffered reader over bytes that have already arrived. */
module Bytes {
  import opened Common

  type byte = x: int | 0 <= x < 256
  type bytes = seq<byte>

  /** The bytes p stand at position i. */
  ghost predicate At(s: bytes, i: nat, p: bytes) { i + |p| <= |s| && s[i..i + |p|] == p }

  datatype ReadError = Eof | UnexpectedEof | UnsupportedLength | TooLarge

  class Reader {
    var rest: bytes

    constructor (data: bytes)
      ensures rest == data
    {
      rest := data;
    }

    method ReadByte() returns (r: Result<byte, ReadError>)
      modifies this
      ensures old(rest) == [] ==> r == Err(Eof) && rest == []
      ensures old(rest) != [] ==> r == Ok(old(rest)[0]) && rest == old(rest)[1..]
    {
      if rest == [] { return Err(Eof); }
      r := Ok(rest[0]);
      rest := rest[1..];
    }

    /** io.ReadFull */
    method ReadFull(length: nat) returns (r: Result<bytes, ReadError>)
      modifies this
      ensures |old(rest)| < length ==> r == Err(ShortRead(old(rest)))
      ensures length <= |old(rest)| ==> r == Ok(old(rest)[..length]) && rest == old(rest)[length..]
    {
      if |rest| < length { return Err(ShortRead(rest)); }
      r := Ok(rest[..length]);
      rest := rest[length..];
    }
  }

  function ShortRead(rest: bytes): ReadError { if rest == [] then Eof else UnexpectedEof }
}
