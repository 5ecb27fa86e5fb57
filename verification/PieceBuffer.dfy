/** The buffers the piece hasher passes between its threads (`bip_metainfo/src/builder/buffer.rs`). */
module PieceBuffers {
  import opened Basics

  const TOTAL_BUFFERS_MULTIPLICATIVE: nat := 2
  const TOTAL_BUFFERS_ADDITIVE: nat := 0

  /** How many buffers a pool holds for the given number of workers. */
  function TotalBuffers(numWorkers: nat): nat {
    numWorkers * TOTAL_BUFFERS_MULTIPLICATIVE + TOTAL_BUFFERS_ADDITIVE
  }

  /** A buffer of one piece, filled from the front; whatever lies past `bytesRead` is stale. */
  class PieceBuffer {
    const buffer: array<byte>
    var bytesRead: nat

    ghost predicate Valid()
      reads this
    {
      bytesRead <= buffer.Length
    }

    ghost function Contents(): seq<byte>
      requires Valid()
      reads this, buffer
    {
      buffer[..bytesRead]
    }

    constructor (pieceLength: nat)
      ensures Valid() && fresh(buffer) && buffer.Length == pieceLength
      ensures Contents() == []
    {
      buffer := new byte[pieceLength](_ => 0);
      bytesRead := 0;
    }

    /** Hands the free tail of the buffer to a reader that stores `data` at its front. */
    method WriteBytes(data: seq<byte>) returns (newBytesRead: nat)
      requires Valid() && bytesRead + |data| <= buffer.Length
      modifies this, buffer
      ensures Valid() && newBytesRead == |data|
      ensures Contents() == old(Contents()) + data
    {
      for i := 0 to |data|
        invariant bytesRead == old(bytesRead)
        invariant buffer[..bytesRead] == old(buffer[..bytesRead])
        invariant forall k :: 0 <= k < i ==> buffer[bytesRead + k] == data[k]
      {
        buffer[bytesRead + i] := data[i];
      }
      bytesRead := bytesRead + |data|;
      newBytesRead := |data|;
    }

    predicate IsWhole()
      requires Valid()
      reads this, buffer
      ensures IsWhole() <==> |Contents()| == buffer.Length
    {
      bytesRead == buffer.Length
    }

    predicate IsEmpty()
      requires Valid()
      reads this, buffer
      ensures IsEmpty() <==> Contents() == []
    {
      bytesRead == 0
    }

    method AsSlice() returns (slice: seq<byte>)
      requires Valid()
      ensures slice == Contents()
    {
      slice := buffer[..bytesRead];
    }
  }

  /** The pool: a queue of empty buffers, all of one length, no two of which share storage. */
  class PieceBufferPool {
    const pieceLength: nat
    var pieceQueue: seq<PieceBuffer>

    ghost predicate Valid()
      reads this, pieceQueue
    {
      && (forall i :: 0 <= i < |pieceQueue| ==>
            pieceQueue[i].buffer.Length == pieceLength && pieceQueue[i].bytesRead == 0)
      && (forall i, j :: 0 <= i < j < |pieceQueue| ==> pieceQueue[i].buffer != pieceQueue[j].buffer)
    }

    constructor (pieceLength: nat, numWorkers: nat)
      ensures Valid() && this.pieceLength == pieceLength
      ensures |pieceQueue| == TotalBuffers(numWorkers)
    {
      this.pieceLength := pieceLength;
      pieceQueue := [];
      new;
      for n := 0 to TotalBuffers(numWorkers)
        invariant |pieceQueue| == n
        invariant Valid()
        invariant fresh(pieceQueue)
      {
        var buffer := new PieceBuffer(pieceLength);
        pieceQueue := pieceQueue + [buffer];
      }
    }

    /** Takes back a buffer that is nowhere in the pool, forgetting what it held. */
    method Checkin(buffer: PieceBuffer)
      requires Valid() && buffer.buffer.Length == pieceLength
      requires forall i :: 0 <= i < |pieceQueue| ==> pieceQueue[i].buffer != buffer.buffer
      modifies this, buffer
      ensures Valid()
      ensures pieceQueue == old(pieceQueue) + [buffer]
    {
      buffer.bytesRead := 0;
      pieceQueue := pieceQueue + [buffer];
    }

    /** Blocks while the pool is empty, which is why a buffer must be there to return. */
    method Checkout() returns (buffer: PieceBuffer)
      requires Valid() && pieceQueue != []
      modifies this
      ensures Valid()
      ensures old(pieceQueue) == [buffer] + pieceQueue
      ensures buffer.Valid() && buffer.Contents() == [] && buffer.buffer.Length == pieceLength
      ensures forall i :: 0 <= i < |pieceQueue| ==> pieceQueue[i].buffer != buffer.buffer
    {
      buffer := pieceQueue[0];
      pieceQueue := pieceQueue[1..];
    }
  }
}
