/** The growable byte buffer: an array with a read position and a fill mark that behaves as a queue of bytes. */
module ByteBuffer {
  import opened Arith
  import opened Bytes

  const SIZE_T := 0x1_0000_0000_0000_0000

  ghost predicate PowerOfTwo(n: nat) {
    exists k: nat :: n == Pow(2, k)
  }

  lemma PowersOfTwo()
    ensures Pow(2, 6) == 64 && Pow(2, 16) == 65536 && Pow(2, 28) == BUFFER_SIZE_MAX && Pow(2, 29) == 2 * BUFFER_SIZE_MAX
    ensures Pow(2, 62) == SIZE_T / 4 && Pow(2, 63) == SIZE_T / 2 && Pow(2, 64) == SIZE_T
  {
    assert Pow(2, 6) == 64;
    PowAdd(2, 6, 6);
    PowAdd(2, 12, 4);
    PowAdd(2, 16, 12);
    assert Pow(2, 29) == 2 * Pow(2, 28);
    PowAdd(2, 16, 16);
    PowAdd(2, 32, 30);
    PowAdd(2, 28, 2);
    assert Pow(2, 63) == 2 * Pow(2, 62);
    assert Pow(2, 64) == 2 * Pow(2, 63);
  }

  /** Doubling a power of two below 2^64 either stays below or is exactly 2^64, which wraps to zero. */
  lemma Doubling(k: nat)
    requires Pow(2, k) < SIZE_T
    ensures 2 * Pow(2, k) == Pow(2, k + 1)
    ensures 2 * Pow(2, k) < SIZE_T || Pow(2, k) == SIZE_T / 2
  {
    PowersOfTwo();
    if k < 63 {
      PowMonotoneExponent(2, k, 62);
    } else if k > 63 {
      PowMonotoneExponent(2, 64, k);
    }
  }

  /** A power of two above the limit is at least twice the limit. */
  lemma AboveLimit(k: nat)
    requires Pow(2, k) > BUFFER_SIZE_MAX
    ensures Pow(2, k) >= 2 * BUFFER_SIZE_MAX
  {
    PowersOfTwo();
    if k <= 28 {
      PowMonotoneExponent(2, k, 28);
    } else {
      PowMonotoneExponent(2, 29, k);
    }
  }

  class Buffer {
    var data: array<byte>
    var used: nat
    var capacity: nat
    var pos: nat

    ghost predicate Valid()
      reads this
    {
      pos <= used <= capacity && Sized()
    }

    /** The size of the allocation, whatever the marks are. */
    ghost predicate Sized()
      reads this
    {
      data.Length == capacity <= BUFFER_SIZE_MAX && PowerOfTwo(capacity)
    }

    /** The bytes between the read position and the fill mark. */
    ghost function Contents(): (c: seq<byte>)
      requires Valid()
      reads this, data
      ensures |c| == used - pos
    {
      data[pos..used]
    }

    /** An empty buffer with 64 bytes preallocated. */
    constructor ()
      ensures Valid() && fresh(data) && Contents() == [] && capacity == 64 && pos == 0
    {
      data := new byte[64](_ => 0);
      used, capacity, pos := 0, 64, 0;
      new;
      PowersOfTwo();
    }

    /** The smallest power of two above `needed`, in 64-bit arithmetic; zero when there is none. */
    method Smallest(needed: nat) returns (smallest: nat, ghost k: nat)
      requires needed < SIZE_T
      ensures smallest == 0 <==> needed >= SIZE_T / 2
      ensures smallest != 0 ==> smallest == Pow(2, k) && needed < smallest && (smallest == 1 || smallest <= 2 * needed)
    {
      smallest, k := 1, 0;
      while smallest <= needed
        invariant smallest == 0 ==> needed >= SIZE_T / 2
        invariant smallest != 0 ==> smallest == Pow(2, k) < SIZE_T && (smallest == 1 || smallest <= 2 * needed)
        decreases if smallest == 0 then 0 else SIZE_T - smallest
      {
        if smallest == 0 {
          return;
        }
        Doubling(k);
        smallest, k := (smallest * 2) % SIZE_T, k + 1;
      }
      PowersOfTwo();
      if smallest > SIZE_T / 2 {
        if k <= 63 {
          PowMonotoneExponent(2, k, 63);
        } else {
          PowMonotoneExponent(2, 64, k);
        }
      }
    }

    /** Move the first `used` bytes to an allocation of `size` bytes. */
    method MoveTo(size: nat)
      requires Valid() && used <= size <= BUFFER_SIZE_MAX && PowerOfTwo(size)
      modifies this`data, this`capacity
      ensures Valid() && Contents() == old(Contents()) && fresh(data) && capacity == size
    {
      var larger := new byte[size](_ => 0);
      forall i | 0 <= i < used {
        larger[i] := data[i];
      }
      assert larger[pos..used] == data[pos..used];
      data, capacity := larger, size;
    }

    /** Resize the allocation to the smallest power of two above `needed`, keeping the first `used` bytes. */
    method Realloc(needed: nat) returns (ok: bool)
      requires Valid() && used <= needed < SIZE_T
      modifies this`data, this`capacity
      ensures Valid() && Contents() == old(Contents())
      ensures ok <==> needed < BUFFER_SIZE_MAX
      ensures if ok then fresh(data) && needed < capacity else data == old(data) && capacity == old(capacity)
      ensures ok ==> capacity == 1 || capacity <= 2 * needed
    {
      ghost var k;
      var smallest;
      smallest, k := Smallest(needed);
      if smallest == 0 {
        return false;
      }
      if smallest > BUFFER_SIZE_MAX {
        AboveLimit(k);
        return false;
      }
      assert PowerOfTwo(smallest);
      MoveTo(smallest);
      return true;
    }

    /** Move the contents to the start of the allocation. */
    method Shift()
      requires Valid()
      modifies this`used, this`pos, data
      ensures Valid() && Contents() == old(Contents()) && pos == 0 && used == old(used - pos)
    {
      if pos == 0 {
        return;
      }
      ghost var was := Contents();
      forall i | 0 <= i < used - pos {
        data[i] := data[pos + i];
      }
      used := used - pos;
      pos := 0;
      assert data[0..used] == was;
    }

    /** Make room for `len` more bytes; when that fails the contents are the same. */
    method Reserve(len: nat) returns (ok: bool)
      requires Valid() && len < 0x1_0000_0000
      modifies this, data
      ensures Valid() && Contents() == old(Contents())
      ensures (data == old(data) || fresh(data)) && (pos == old(pos) || pos == 0)
      ensures ok <==> old(used) + len <= old(capacity) || |old(Contents())| + len < BUFFER_SIZE_MAX
      ensures ok ==> used + len <= capacity
    {
      if capacity < used + len {
        if pos > 0 {
          Shift();
        }
        ok := Realloc(used + len);
        return;
      }
      return true;
    }

    /** Copy `bytes` behind the fill mark. */
    method Store(bytes: seq<byte>)
      requires Valid() && used + |bytes| <= capacity
      modifies data
      ensures data[pos..used + |bytes|] == old(Contents()) + bytes
    {
      forall i | 0 <= i < |bytes| {
        data[used + i] := bytes[i];
      }
    }

    /** Append `bytes`. */
    method AddData(bytes: seq<byte>) returns (ok: bool)
      requires Valid() && |bytes| < 0x1_0000_0000
      modifies this, data
      ensures Valid() && (data == old(data) || fresh(data)) && (pos == old(pos) || pos == 0)
      ensures ok <==> old(used) + |bytes| <= old(capacity) || |old(Contents())| + |bytes| < BUFFER_SIZE_MAX
      ensures Contents() == if ok then old(Contents()) + bytes else old(Contents())
    {
      ok := Reserve(|bytes|);
      if !ok {
        return;
      }
      Store(bytes);
      used := used + |bytes|;
    }

    /** Make the allocation at least `len` bytes large. */
    method AllocateSize(len: nat) returns (ok: bool)
      requires Valid() && len < 0x1_0000_0000
      modifies this, data
      ensures Valid() && Contents() == old(Contents()) && (data == old(data) || fresh(data))
      ensures ok <==> len <= old(capacity) || len < BUFFER_SIZE_MAX
      ensures ok ==> len <= capacity
    {
      if capacity < len {
        if pos > 0 {
          Shift();
        }
        ok := Realloc(len);
        return;
      }
      return true;
    }

    /** Copy `bytes` in front of the contents, where there is room for them. */
    method PutInFront(bytes: seq<byte>)
      requires Valid() && |bytes| <= pos
      modifies this`pos, data
      ensures Valid() && Contents() == bytes + old(Contents())
    {
      ghost var was := Contents();
      forall i | 0 <= i < |bytes| {
        data[pos - |bytes| + i] := bytes[i];
      }
      pos := pos - |bytes|;
      assert data[pos..used] == bytes + was;
    }

    /** Put `bytes` in front of the contents. */
    method Prepend(bytes: seq<byte>) returns (ok: bool)
      requires Valid() && |bytes| < 0x1_0000_0000
      modifies this, data
      ensures Valid() && (data == old(data) || fresh(data))
      ensures var total := |old(Contents())| + |bytes|;
        ok <==> (|bytes| <= old(pos) || total <= old(capacity) || total < BUFFER_SIZE_MAX)
      ensures Contents() == if ok then bytes + old(Contents()) else old(Contents())
    {
      var len := |bytes|;
      if len <= pos {
        PutInFront(bytes);
        return true;
      }
      if capacity < used - pos + len {
        ok := Realloc(used - pos + len);
        if !ok {
          return;
        }
      }
      MoveUp(len);
      PutInFront(bytes);
      return true;
    }

    /** Move the contents so that they start at `len`. */
    method MoveUp(len: nat)
      requires Valid() && pos < len && used - pos + len <= capacity
      modifies this`used, this`pos, data
      ensures Valid() && Contents() == old(Contents()) && pos == len
    {
      ghost var was := Contents();
      forall i | 0 <= i < used - pos {
        data[len + i] := data[pos + i];
      }
      used := used + len - pos;
      pos := len;
      assert data[pos..used] == was;
    }

    /** Empty the buffer, and give back memory beyond 64 kilobytes. */
    method Reinit() returns (ok: bool)
      requires Valid()
      modifies this, data
      ensures Valid() && ok && Contents() == [] && (data == old(data) || fresh(data))
      ensures capacity == if old(capacity) > 65536 then 65536 else old(capacity)
    {
      used, pos := 0, 0;
      ok := true;
      if capacity > 65536 {
        ok := Realloc(65535);
        PowersOfTwo();
        var k: nat :| capacity == Pow(2, k);
        if k > 16 {
          PowMonotoneExponent(2, 17, k);
        } else {
          PowMonotoneExponent(2, k, 16);
        }
      }
    }

    method ValidateLength(len: nat) returns (ok: bool)
      requires Valid()
      ensures ok <==> len <= |Contents()|
    {
      return pos + len <= used;
    }

    /** Take `len` bytes off the front; a buffer emptied this way starts again at zero. */
    method PassBytes(len: nat) returns (n: nat)
      requires Valid()
      modifies this`pos, this`used
      ensures Valid() && n == if len <= |old(Contents())| then len else 0
      ensures Contents() == old(Contents())[n..]
      ensures n == len && Contents() == [] ==> pos == used == 0
    {
      if used < pos + len {
        return 0;
      }
      ghost var was := Contents();
      pos := pos + len;
      assert data[pos..used] == was[len..];
      if pos == used {
        pos, used := 0, 0;
      }
      return len;
    }

    /** Read `len` bytes off the front, or nothing when there are fewer. */
    method GetData(len: nat) returns (ok: bool, bytes: seq<byte>)
      requires Valid()
      modifies this`pos
      ensures Valid() && (ok <==> len <= |old(Contents())|)
      ensures ok ==> bytes == old(Contents())[..len] && Contents() == old(Contents())[len..]
      ensures !ok ==> bytes == [] && Contents() == old(Contents())
    {
      if pos + len > used {
        return false, [];
      }
      ghost var was := Contents();
      bytes := data[pos..pos + len];
      pos := pos + len;
      assert bytes == was[..len] && data[pos..used] == was[len..];
      return true, bytes;
    }

    /**
     * Cut `len` bytes off the end. Only the fill mark is checked, so the buffer stays consistent exactly when
     * the caller asks for no more than is unread, or for more than was ever there.
     */
    method PassBytesEnd(len: nat) returns (n: nat)
      requires Valid()
      modifies this`used
      ensures n == (if old(used) < len then 0 else len) && used == old(used) - n
      ensures Valid() <==> len <= |old(Contents())| || len > old(used)
      ensures Valid() ==> Contents() == old(Contents())[..|old(Contents())| - n]
    {
      if used < len {
        return 0;
      }
      ghost var was := Contents();
      used := used - len;
      assert pos <= used ==> data[pos..used] == was[..|was| - len];
      return len;
    }

    /**
     * Read a length-prefixed string. When the announced length is not there, the four bytes of the length
     * have been taken all the same.
     */
    method GetSshString() returns (s: Option<seq<byte>>)
      requires Valid()
      modifies this`pos
      ensures Valid()
      ensures |old(Contents())| < 4 ==> s == None && Contents() == old(Contents())
      ensures |old(Contents())| >= 4 ==>
        var len := Value(old(Contents())[..4]);
        var tail := old(Contents())[4..];
        if len <= |tail| then s == Some(tail[..len]) && Contents() == tail[len..] else s == None && Contents() == tail
    {
      var ok, head := GetData(4);
      if !ok {
        return None;
      }
      var hostlen := Value(head);
      ok := ValidateLength(hostlen);
      if !ok || hostlen > STRING_SIZE_MAX {
        return None;
      }
      var _, body := GetData(hostlen);
      return Some(body);
    }

    method AddSshString(s: seq<byte>) returns (ok: bool)
      requires Valid() && |s| <= STRING_SIZE_MAX
      modifies this, data
      ensures Valid() && (data == old(data) || fresh(data))
      ensures ok <==> old(used) + 4 + |s| <= old(capacity) || |old(Contents())| + 4 + |s| < BUFFER_SIZE_MAX
      ensures Contents() == if ok then old(Contents()) + (BigEndian(|s|, 4) + s) else old(Contents())
    {
      ok := AddData(BigEndian(|s|, 4) + s);
    }
  }

  /** Two bytes written, one read, and two cut off the end: the fill mark is then before the read position. */
  method CutBeforePosition(first: byte, second: byte) returns (buffer: Buffer)
    ensures fresh(buffer) && buffer.pos == 1 && buffer.used == 0 && !buffer.Valid()
  {
    buffer := new Buffer();
    var _ := buffer.AddData([first, second]);
    var _, _ := buffer.GetData(1);
    var _ := buffer.PassBytesEnd(2);
  }
}
