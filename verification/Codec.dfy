/** BinaryWriter and BinaryReader: a growing buffer and a cursor over a fixed one. */
module Codec {
  import opened Wire

  class BinaryWriter {
    var buffer: bytes

    constructor ()
      ensures buffer == []
    {
      buffer := [];
    }

    method WriteUint(value: nat, width: nat)
      modifies this
      ensures buffer == old(buffer) + Masked(value, width)
    {
      buffer := buffer + Uint(value % Limit(width), width);
    }

    method WriteBytes(data: bytes)
      modifies this
      ensures buffer == old(buffer) + data
    {
      buffer := buffer + data;
    }

    method WriteString(value: bytes, width: nat)
      modifies this
      ensures buffer == old(buffer) + Prefixed(value, width)
    {
      WriteUint(|value|, width);
      WriteBytes(value);
    }
  }

  /** `r` is what the specification reads from some bytes, and `rest` is what it leaves. */
  ghost predicate Reads<T>(r: Result<T>, rest: bytes, spec: Result<(T, bytes)>) {
    match spec
    case Ok((v, left)) => r == Ok(v) && rest == left
    case Err(e) => r == Err(e)
  }

  class BinaryReader {
    const data: bytes
    var position: nat

    ghost predicate Valid()
      reads this
    {
      position <= |data|
    }

    function Rest(): bytes
      requires Valid()
      reads this
    {
      data[position..]
    }

    constructor (data: bytes)
      ensures Valid() && this.data == data && Rest() == data
    {
      this.data := data;
      position := 0;
    }

    /** A short read fails, and like BytesIO it still uses up what was there. */
    method ReadBytes(length: nat) returns (r: Result<bytes>)
      requires Valid()
      modifies this
      ensures Valid()
      ensures Reads(r, Rest(), TakeBytes(old(Rest()), length))
      ensures r.Err? ==> Rest() == []
    {
      if |data| - position < length {
        position := |data|;
        return Err(EndOfData);
      }
      assert data[position..position + length] == Rest()[..length];
      assert data[position + length..] == Rest()[length..];
      r := Ok(data[position..position + length]);
      position := position + length;
    }

    method ReadByte() returns (r: Result<byte>)
      requires Valid()
      modifies this
      ensures Valid()
      ensures Reads(r, Rest(), TakeByte(old(Rest())))
      ensures r.Err? ==> Rest() == []
    {
      var b :- ReadBytes(1);
      r := Ok(b[0]);
    }

    method ReadUint(width: nat) returns (r: Result<nat>)
      requires Valid()
      modifies this
      ensures Valid()
      ensures Reads(r, Rest(), TakeUint(old(Rest()), width))
      ensures r.Err? ==> Rest() == []
    {
      var b :- ReadBytes(width);
      r := Ok(Value(b));
    }

    method ReadString(width: nat) returns (r: Result<bytes>)
      requires Valid()
      modifies this
      ensures Valid()
      ensures Reads(r, Rest(), TakeString(old(Rest()), width))
    {
      var length :- ReadUint(width);
      var text :- ReadBytes(length);
      r := if ValidUtf8(text) then Ok(text) else Err(BadUtf8);
    }

    method HasRemaining() returns (more: bool)
      requires Valid()
      ensures more <==> Rest() != []
    {
      more := |data| - position > 0;
    }
  }
}
