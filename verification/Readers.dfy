/** The position-moving reader that frames, the relay directory and request bodies are parsed with.
    `short` is the error of the component that reads past the end. */
module Readers {
  import opened Results
  import opened Bytes

  class Reader<E> {
    const bytes: Blob
    const short: E
    var position: nat

    ghost predicate Valid()
      reads this
    {
      position <= |bytes|
    }

    /** A step answers what the parser answers at the old position, and on success moves past it. */
    ghost predicate Steps<T>(spec: Result<At<T>, E>, r: Result<T, E>)
      reads this
    {
      && Valid()
      && match spec
         case Ok(at) => r == Ok(at.value) && position == at.next
         case Err(e) => r == Err(e)
    }

    constructor (bytes: Blob, short: E)
      ensures Valid() && this.bytes == bytes && this.short == short && position == 0
    {
      this.bytes := bytes;
      this.short := short;
      position := 0;
    }

    method Take(count: nat) returns (r: Result<Blob, E>)
      requires Valid()
      modifies this
      ensures Steps(TakeAt(bytes, old(position), count, short), r)
    {
      if position + count > |bytes| {
        return Err(short);
      }
      r := Ok(bytes[position..position + count]);
      position := position + count;
    }

    method Number(width: nat) returns (r: Result<nat, E>)
      requires Valid()
      modifies this
      ensures Steps(NumberAt(bytes, old(position), width, short), r)
    {
      var raw :- Take(width);
      r := Ok(FromBigEndian(raw));
    }

    /** Everything that is left. */
    method Rest() returns (r: Blob)
      requires Valid()
      modifies this
      ensures Valid() && r == bytes[old(position)..] && position == |bytes|
    {
      r := bytes[position..];
      position := |bytes|;
    }

    /** Nothing may be left; `extra` is the error if something is. */
    method Finish(extra: E) returns (r: Result<(), E>)
      requires Valid()
      ensures r == if position == |bytes| then Ok(()) else Err(extra)
    {
      r := if position == |bytes| then Ok(()) else Err(extra);
    }
  }
}
