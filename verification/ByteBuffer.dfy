/** A byte queue with a logical read cursor; discarded bytes are dropped only by a later append. */
module ByteBuffer {
  class Buffer {
    var storage: string
    var readIndex: nat

    ghost predicate Valid()
      reads this
    {
      readIndex <= |storage|
    }

    /** The unread bytes. */
    ghost function Contents(): string
      requires Valid()
      reads this
    {
      storage[readIndex..]
    }

    constructor ()
      ensures Valid() && Contents() == ""
    {
      storage, readIndex := "", 0;
    }

    method Append(bytes: string)
      requires Valid()
      modifies this
      ensures Valid() && Contents() == old(Contents()) + bytes
      ensures bytes != "" ==> readIndex <= |old(Contents())|
    {
      if bytes == "" { return; }
      if readIndex > |storage| - readIndex {
        storage := storage[readIndex..];
        readIndex := 0;
      }
      storage := storage + bytes;
    }

    method ReadableBytes() returns (n: nat)
      requires Valid()
      ensures n == |Contents()|
    {
      return |storage| - readIndex;
    }

    method ReadableView() returns (bytes: string)
      requires Valid()
      ensures bytes == Contents()
    {
      return storage[readIndex..];
    }

    /** Asking for more than is readable is an error and consumes nothing. */
    method Retrieve(length: nat) returns (ok: bool)
      requires Valid()
      modifies this`readIndex
      ensures Valid() && (ok <==> length <= |old(Contents())|)
      ensures Contents() == if ok then old(Contents())[length..] else old(Contents())
    {
      if length > |storage| - readIndex { return false; }
      readIndex := readIndex + length;
      return true;
    }

    method RetrieveAll()
      modifies this
      ensures Valid() && Contents() == ""
    {
      storage, readIndex := "", 0;
    }
  }
}
