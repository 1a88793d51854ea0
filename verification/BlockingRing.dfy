/** The ring of the mutex variants, with `size_t` positions (shm_blocking.c:17-131). */
module BlockingRing {
  import opened Bytes
  import opened Frames
  import opened RingLayout

  /** The C library's memcpy between two distinct buffers. */
  method Memcpy(dst: array<byte>, d: nat, src: array<byte>, s: nat, n: nat)
    requires d + n <= dst.Length && s + n <= src.Length && dst != src
    modifies dst
    ensures forall k :: 0 <= k < dst.Length ==> dst[k] == if d <= k < d + n then src[s + k - d] else old(dst[k])
  {
    forall k | 0 <= k < n {
      dst[d + k] := src[s + k];
    }
  }

  class Ring {
    const size: nat
    const buffer: array<byte>
    var readPos: nat
    var writePos: nat
    ghost var queue: seq<Message>

    ghost predicate Valid()
      reads this, buffer
    {
      buffer.Length == size && Holds(buffer[..], readPos, writePos, queue)
    }

    constructor (size: nat)
      ensures Valid() && queue == [] && this.size == size && readPos == writePos == 0 && fresh(buffer)
    {
      this.size := size;
      buffer := new byte[size];
      readPos, writePos, queue := 0, 0, [];
    }

    /** One two-part copy into the ring; the length field and the payload each take one. */
    method CopyIn(wp: nat, src: array<byte>, n: nat) returns (next: nat)
      requires buffer.Length == size && wp < size && n <= size && n <= src.Length && src != buffer
      modifies buffer
      ensures next == Slot(size, wp, n)
      ensures Held(buffer[..], wp, src[..n])
      ensures OnlyWithin(old(buffer[..]), buffer[..], wp, n)
    {
      if wp + n > size {
        var firstChunk := size - wp;
        Memcpy(buffer, wp, src, 0, firstChunk);
        Memcpy(buffer, 0, src, firstChunk, n - firstChunk);
        next := n - firstChunk;
      } else {
        Memcpy(buffer, wp, src, 0, n);
        next := wp + n;
        if next == size {
          next := 0;
        }
      }
    }

    /** One two-part copy out of the ring. */
    method CopyOut(rp: nat, dst: array<byte>, n: nat, ghost e: seq<byte>) returns (next: nat)
      requires buffer.Length == size && rp < size && n <= size && n <= dst.Length && dst != buffer
      requires Held(buffer[..], rp, e) && |e| == n
      modifies dst
      ensures next == Slot(size, rp, n)
      ensures dst[..] == e + old(dst[..])[n..]
    {
      if rp + n > size {
        var firstChunk := size - rp;
        Memcpy(dst, 0, buffer, rp, firstChunk);
        Memcpy(dst, firstChunk, buffer, 0, n - firstChunk);
        next := n - firstChunk;
      } else {
        Memcpy(dst, 0, buffer, rp, n);
        next := rp + n;
        if next == size {
          next := 0;
        }
      }
      forall i: nat | i < n ensures dst[i] == e[i] {
        assert buffer[..][Slot(size, rp, i)] == e[i];
      }
    }

    method Write(data: array<byte>, len: nat) returns (ok: bool)
      requires Valid() && len <= data.Length && data != buffer
      modifies this, buffer
      ensures Valid() && readPos == old(readPos)
      ensures ok <==> len <= size / 2 && |EncodeAll(old(queue))| + len + 4 <= size - 2
      ensures ok ==> queue == old(queue) + [data[..len]]
      ensures !ok ==> unchanged(this) && unchanged(buffer)
    {
      if len > size / 2 {
        return false;
      }
      var available: nat;
      if writePos >= readPos {
        available := size - (writePos - readPos);
      } else {
        available := readPos - writePos;
      }
      if available <= len + 4 + 1 {
        return false;
      }
      var lenBytes := new byte[4](i requires 0 <= i < 4 => Le32(len)[i]);
      assert lenBytes[..4] == Le32(len);
      var wp := CopyIn(writePos, lenBytes, 4);
      ghost var between := buffer[..];
      wp := CopyIn(wp, data, len);
      Written(old(buffer[..]), between, buffer[..], readPos, writePos, queue, data[..len]);
      writePos := wp;
      queue := queue + [data[..len]];
      return true;
    }

    /** Exact also for a message of 2^32 bytes or more, whose length field cannot hold its length:
        reading one returns a prefix of it and leaves the ring without a framed queue. */
    method Read(data: array<byte>, maxLen: nat) returns (ok: bool, bytesRead: nat)
      requires Valid() && maxLen <= data.Length && data != buffer
      modifies this, data
      ensures writePos == old(writePos)
      ensures ok <==> old(queue) != [] && U32(|old(queue)[0]|) <= maxLen
      ensures ok ==> queue == old(queue)[1..] && bytesRead == U32(|old(queue)[0]|)
      ensures ok ==> bytesRead <= |old(queue)[0]| && data[..] == old(queue)[0][..bytesRead] + old(data[..])[bytesRead..]
      ensures ok ==> (Valid() <==> |old(queue)[0]| < TWO32)
      ensures !ok ==> bytesRead == 0 && unchanged(this) && unchanged(data)
    {
      if readPos == writePos {
        return false, 0;
      }
      ReadFront(buffer[..], readPos, writePos, queue);
      var lenBytes := new byte[4];
      var rp := CopyOut(readPos, lenBytes, 4, Le32(|queue[0]|));
      var msgLen := FromLe32(lenBytes[..]);
      if msgLen > maxLen {
        return false, 0;
      }
      rp := CopyOut(rp, data, msgLen, queue[0][..msgLen]);
      readPos := rp;
      queue := queue[1..];
      return true, msgLen;
    }
  }
}
