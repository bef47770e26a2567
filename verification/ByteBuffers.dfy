/** A byte buffer with a position and a limit.  Reading and writing both happen between the
    two; flipping turns what has been written into what is to be read.
  */
module ByteBuffers {

  import BitConverter

  type byte = BitConverter.byte

  datatype ByteBuffer = ByteBuffer(data: seq<byte>, position: nat, limit: nat) {
    predicate Valid() {
      position <= limit <= |data|
    }

    function Capacity(): nat {
      |data|
    }

    function Remaining(): nat
      requires Valid()
    {
      limit - position
    }

    /** The bytes a reader would get. */
    function Unread(): (r: seq<byte>)
      requires Valid()
      ensures |r| == Remaining()
    {
      data[position..limit]
    }

    /** The bytes put so far, for a writer. */
    function Filled(): (r: seq<byte>)
      requires Valid()
      ensures |r| == position
    {
      data[..position]
    }

    function Flip(): (r: ByteBuffer)
      requires Valid()
      ensures r.Valid() && r.Unread() == Filled() && r.Capacity() == Capacity()
    {
      ByteBuffer(data, 0, position)
    }

    /** Putting more than fits is an overflow. */
    function Put(bytes: seq<byte>): (r: ByteBuffer)
      requires Valid() && |bytes| <= Remaining()
      ensures r.Valid() && r.Filled() == Filled() + bytes && r.Capacity() == Capacity() && r.limit == limit
    {
      ByteBuffer(data[..position] + bytes + data[position + |bytes|..], position + |bytes|, limit)
    }

    function Skip(n: nat): (r: ByteBuffer)
      requires Valid() && n <= Remaining()
      ensures r.Valid() && r.Unread() == Unread()[n..] && r.Capacity() == Capacity()
    {
      ByteBuffer(data, position + n, limit)
    }

    /** Continue writing after what can be read. */
    function WriteOn(): (r: ByteBuffer)
      requires Valid()
      ensures r.Valid() && r.Filled() == data[..limit] && r.limit == Capacity() == r.Capacity()
    {
      ByteBuffer(data, limit, |data|)
    }
  }

  function Allocate(capacity: nat): (r: ByteBuffer)
    ensures r.Valid() && r.Capacity() == capacity == r.limit && r.position == 0
  {
    ByteBuffer(seq(capacity, i => 0), 0, capacity)
  }
}
