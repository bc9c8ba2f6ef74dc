/** A read position in a byte string. Reading past the end panics. */
module Cursors {
  import opened Base

  class Cursor {
    const data: seq<byte>
    var at: nat

    ghost predicate Valid()
      reads this
    {
      at <= |data|
    }

    constructor (data: seq<byte>)
      ensures this.data == data && at == 0 && Valid()
    {
      this.data, at := data, 0;
    }

    method Take(n: nat) returns (r: Result<seq<byte>>)
      requires Valid()
      modifies this
      ensures Valid()
      ensures if old(at) + n <= |data| then r == Ok(data[old(at)..old(at) + n]) && at == old(at) + n
              else r == Err(Panic) && at == old(at)
    {
      if n > |data| - at {
        return Err(Panic);
      }
      r := Ok(data[at..at + n]);
      at := at + n;
    }

    method GetU8() returns (r: Result<byte>)
      requires Valid()
      modifies this
      ensures Valid()
      ensures if old(at) + 1 <= |data| then r == Ok(data[old(at)]) && at == old(at) + 1
              else r == Err(Panic) && at == old(at)
    {
      if at == |data| {
        return Err(Panic);
      }
      r := Ok(data[at]);
      at := at + 1;
    }

    method GetU16() returns (r: Result<nat>)
      requires Valid()
      modifies this
      ensures Valid()
      ensures if old(at) + 2 <= |data| then r == Ok(U16At(data, old(at))) && at == old(at) + 2
              else r == Err(Panic) && at == old(at)
    {
      if 2 > |data| - at {
        return Err(Panic);
      }
      r := Ok(U16At(data, at));
      at := at + 2;
    }

    method GetU32() returns (r: Result<nat>)
      requires Valid()
      modifies this
      ensures Valid()
      ensures if old(at) + 4 <= |data| then r == Ok(U32At(data, old(at))) && at == old(at) + 4
              else r == Err(Panic) && at == old(at)
    {
      if 4 > |data| - at {
        return Err(Panic);
      }
      r := Ok(U32At(data, at));
      at := at + 4;
    }

    method GetU64() returns (r: Result<nat>)
      requires Valid()
      modifies this
      ensures Valid()
      ensures if old(at) + 8 <= |data| then r == Ok(U64At(data, old(at))) && at == old(at) + 8
              else r == Err(Panic) && at == old(at)
    {
      if 8 > |data| - at {
        return Err(Panic);
      }
      r := Ok(U64At(data, at));
      at := at + 8;
    }
  }
}
