/** The read-ahead window and the write-coalescing buffer, one of each for all paths. */
module RwBuffer {
  import opened Bytes

  // ---- values ----

  /** What a read buffer holds; a buffer that was never filled has no path. */
  datatype ReadWindow = ReadWindow(path: Option<Path>, offset: nat, data: seq<byte>, filledAt: nat)

  function WindowRead(w: ReadWindow, ttl: nat, path: Path, offset: nat, len: nat, now: nat): seq<byte> {
    if w.path != Some(path) || offset < w.offset || offset >= w.offset + |w.data| || w.filledAt + ttl < now then []
    else w.data[offset - w.offset..Min(offset - w.offset + len, |w.data|)]
  }

  function WindowFill(capacity: nat, path: Path, offset: nat, data: seq<byte>, now: nat): ReadWindow {
    ReadWindow(Some(path), offset, data[..Min(|data|, capacity)], now)
  }

  /** What a write buffer holds; a clean one has no path. */
  datatype Pending = Pending(path: Option<Path>, offset: nat, data: seq<byte>)

  const CLEAN := Pending(None, 0, [])

  predicate IsAppending(b: Pending, path: Path, offset: nat) {
    b.path == Some(path) && b.offset + |b.data| == offset
  }

  /** The buffer after a write and the number of bytes it took. */
  function Buffered(capacity: nat, b: Pending, path: Path, offset: nat, data: seq<byte>): (r: (Pending, nat))
    requires |b.data| <= capacity
    ensures r.1 <= |data| && |r.0.data| <= capacity
  {
    if IsAppending(b, path, offset) then
      var n := Min(|data|, capacity - |b.data|);
      (b.(data := b.data + data[..n]), n)
    else
      var n := Min(|data|, capacity);
      (Pending(Some(path), offset, data[..n]), n)
  }

  // ---- the buffers themselves ----

  class ReadBuffer {
    var path: Option<Path>
    var offset: nat
    var validUpTo: nat
    var filledAt: nat
    const buffer: array<byte>
    const capacity: nat
    const ttl: nat

    ghost predicate Valid()
      reads this
    {
      buffer.Length == capacity && validUpTo <= capacity
    }

    ghost function Window(): ReadWindow
      reads this, buffer
      requires Valid()
    {
      ReadWindow(path, offset, buffer[..validUpTo], filledAt)
    }

    constructor (capacity: nat, ttl: nat, now: nat)
      ensures Valid() && fresh(buffer) && this.capacity == capacity && this.ttl == ttl
      ensures Window() == ReadWindow(None, 0, [], now)
    {
      this.capacity, this.ttl := capacity, ttl;
      path, offset, validUpTo, filledAt := None, 0, 0, now;
      buffer := new byte[capacity](_ => 0);
    }

    method Fill(path: Path, offset: nat, data: seq<byte>, now: nat)
      requires Valid()
      modifies this, buffer
      ensures Valid() && Window() == WindowFill(capacity, path, offset, data, now)
    {
      this.path := Some(path);
      this.offset := offset;
      filledAt := now;
      var toCopy := Min(|data|, capacity);
      forall i | 0 <= i < toCopy {
        buffer[i] := data[i];
      }
      validUpTo := toCopy;
      assert buffer[..toCopy] == data[..toCopy];
    }

    method Read(path: Path, offset: nat, len: nat, now: nat) returns (r: seq<byte>)
      requires Valid()
      ensures r == WindowRead(Window(), ttl, path, offset, len, now)
    {
      if Some(path) != this.path || offset < this.offset || offset >= this.offset + validUpTo || filledAt + ttl < now {
        return [];
      }
      var realOffset := offset - this.offset;
      var realEnd := Min(realOffset + len, validUpTo);
      r := buffer[realOffset..realEnd];
    }
  }

  class WriteBuffer {
    var path: Option<Path>
    var offset: nat
    var validUpTo: nat
    const buffer: array<byte>
    const capacity: nat

    ghost predicate Valid()
      reads this
    {
      buffer.Length == capacity && validUpTo <= capacity
    }

    ghost function Contents(): Pending
      reads this, buffer
      requires Valid()
    {
      Pending(path, offset, buffer[..validUpTo])
    }

    constructor (capacity: nat)
      ensures Valid() && fresh(buffer) && this.capacity == capacity && Contents() == CLEAN
    {
      this.capacity := capacity;
      path, offset, validUpTo := None, 0, 0;
      buffer := new byte[capacity](_ => 0);
    }

    method Appending(path: Path, offset: nat) returns (r: bool)
      requires Valid()
      ensures r == IsAppending(Contents(), path, offset)
    {
      r := this.path == Some(path) && this.offset + validUpTo == offset;
    }

    method Write(path: Path, offset: nat, data: seq<byte>) returns (written: nat)
      requires Valid()
      modifies this, buffer
      ensures Valid() && (Contents(), written) == Buffered(capacity, old(Contents()), path, offset, data)
    {
      var appending := Appending(path, offset);
      if appending {
        var toCopy := Min(|data|, capacity - validUpTo);
        forall i | 0 <= i < toCopy {
          buffer[validUpTo + i] := data[i];
        }
        validUpTo := validUpTo + toCopy;
        assert buffer[..validUpTo][..old(validUpTo)] == old(buffer[..validUpTo]);
        assert buffer[..validUpTo][old(validUpTo)..] == data[..toCopy];
        assert buffer[..validUpTo] == old(buffer[..validUpTo]) + data[..toCopy];
        written := toCopy;
      } else {
        this.path := Some(path);
        this.offset := offset;
        var toCopy := Min(|data|, capacity);
        forall i | 0 <= i < toCopy {
          buffer[i] := data[i];
        }
        validUpTo := toCopy;
        assert buffer[..toCopy] == data[..toCopy];
        written := toCopy;
      }
    }

    method IsFull() returns (r: bool)
      requires Valid()
      ensures r <==> |Contents().data| >= capacity
    {
      r := validUpTo >= capacity;
    }

    method Clean()
      requires Valid()
      modifies this
      ensures Valid() && Contents() == CLEAN
    {
      path := None;
      offset := 0;
      validUpTo := 0;
    }

    method GetContent() returns (r: Pending)
      requires Valid()
      ensures r == Contents()
    {
      r := Pending(path, offset, buffer[..validUpTo]);
    }
  }
}
