/** A caller that repeats a short write with the rest of its bytes gets done quickly. */
module ShortWrites {
  import opened Bytes
  import opened RwBuffer
  import opened FsModel
  import opened WriteBack

  /** How many calls it takes until all of `data` is accepted. */
  function Calls(capacity: nat, b: Pending, path: Path, offset: nat, data: seq<byte>): nat
    requires PendingOk(capacity, b)
    decreases |data|
  {
    if data == [] then 0
    else
      SectionShape(capacity, b, path, offset, data);
      var (b', _, n) := WriteSection(capacity, b, path, offset, data);
      1 + Calls(capacity, b', path, offset + n, data[n..])
  }

  function CeilDiv(n: nat, d: pos): nat {
    (n + d - 1) / d
  }

  lemma CeilDivStep(n: nat, d: pos)
    ensures CeilDiv(n + d, d) == CeilDiv(n, d) + 1
  {
    NextMultiple(n + d - 1, d);
  }

  lemma CeilDivSmall(n: nat, d: pos)
    requires 0 < n <= d
    ensures CeilDiv(n, d) == 1
  {
    DivModUnique(1, n - 1, d);
  }

  lemma CeilDivMono(n: nat, m: nat, d: pos)
    requires n <= m
    ensures CeilDiv(n, d) <= CeilDiv(m, d)
  {
    DivMono(n + d - 1, m + d - 1, d);
  }

  lemma FreshSection(capacity: pos, b: Pending, path: Path, offset: nat, data: seq<byte>)
    requires PendingOk(capacity, b) && !IsAppending(b, path, offset)
    ensures var (b', _, n) := WriteSection(capacity, b, path, offset, data);
            n == Min(|data|, capacity) && (n == capacity ==> b' == CLEAN)
  {
  }

  lemma AppendSection(capacity: pos, b: Pending, path: Path, offset: nat, data: seq<byte>)
    requires PendingOk(capacity, b) && IsAppending(b, path, offset)
    ensures var (b', _, n) := WriteSection(capacity, b, path, offset, data);
            n < |data| ==> b' == CLEAN
  {
  }

  /** Without bytes to append to, every call but the last takes a full buffer. */
  lemma {:induction false} CallsFromFresh(capacity: pos, b: Pending, path: Path, offset: nat, data: seq<byte>)
    requires PendingOk(capacity, b) && !IsAppending(b, path, offset)
    ensures Calls(capacity, b, path, offset, data) == CeilDiv(|data|, capacity)
    decreases |data|
  {
    hide CeilDiv, WriteSection;
    if data == [] {
      CeilDivZero(capacity);
    } else {
      SectionShape(capacity, b, path, offset, data);
      FreshSection(capacity, b, path, offset, data);
      var (b', _, n) := WriteSection(capacity, b, path, offset, data);
      if |data| >= capacity {
        CallsFromFresh(capacity, b', path, offset + n, data[n..]);
        CeilDivStep(|data| - capacity, capacity);
      } else {
        CeilDivSmall(|data|, capacity);
      }
    }
  }

  lemma CeilDivZero(d: pos)
    ensures CeilDiv(0, d) == 0
  {
    DivModUnique(0, d - 1, d);
  }

  /** Retrying the unaccepted rest of `data` takes at most ceil(|data| / capacity) + 1 calls. */
  lemma ShortWriteProgress(capacity: pos, b: Pending, path: Path, offset: nat, data: seq<byte>)
    requires PendingOk(capacity, b)
    ensures Calls(capacity, b, path, offset, data) <= CeilDiv(|data|, capacity) + 1
  {
    hide CeilDiv, WriteSection;
    if !IsAppending(b, path, offset) {
      CallsFromFresh(capacity, b, path, offset, data);
    } else if data != [] {
      SectionShape(capacity, b, path, offset, data);
      var (b', _, n) := WriteSection(capacity, b, path, offset, data);
      if n < |data| {
        AppendSection(capacity, b, path, offset, data);
        CallsFromFresh(capacity, b', path, offset + n, data[n..]);
        CeilDivMono(|data| - n, |data|, capacity);
      }
    }
  }
}
