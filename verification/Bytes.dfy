/** Bytes, byte files with POSIX offset writes, and the arithmetic of page positions. */
module Bytes {
  newtype byte = b: int | 0 <= b < 256

  type pos = n: nat | n > 0 witness 1

  datatype Option<+T> = None | Some(value: T)

  datatype Error =
    | NotFound | AlreadyExists | NotADirectory | IsADirectory | DirectoryNotEmpty | InvalidInput | Unauthorized

  datatype Result<+T> = Ok(value: T) | Err(error: Error)

  type Name = string

  /** An absolute path as its list of components; the root is the empty list. */
  type Path = seq<Name>

  datatype Kind = KindDirectory | KindFile | KindSymlink

  /** The attributes the caching stack looks at; times, owners and modes are not modelled. */
  datatype Attributes = Attributes(size: nat, kind: Kind)

  function Min(a: int, b: int): int {
    if a <= b then a else b
  }

  function Max(a: int, b: int): int {
    if a >= b then a else b
  }

  function Zeros(n: nat): seq<byte> {
    seq(n, _ => 0)
  }

  /** A positioned read of a flat file: what there is of the range. */
  function ReadAt(file: seq<byte>, offset: nat, size: nat): seq<byte> {
    file[Min(offset, |file|)..Min(offset + size, |file|)]
  }

  /** A positioned write on a flat file: bytes between the old end and `offset`
      become zero, and writing nothing changes nothing. */
  function WriteAt(file: seq<byte>, offset: nat, data: seq<byte>): (r: seq<byte>)
    ensures |r| == if data == [] then |file| else Max(|file|, offset + |data|)
    ensures forall i :: 0 <= i < |r| ==>
                          r[i] == if offset <= i < offset + |data| then data[i - offset]
                                  else if i < |file| then file[i] else 0
  {
    if data == [] then file
    else
      (if offset <= |file| then file[..offset] else file + Zeros(offset - |file|))
      + data
      + (if offset + |data| < |file| then file[offset + |data|..] else [])
  }

  /** Two adjacent writes are one write of the joined bytes. */
  lemma WriteAtJoin(file: seq<byte>, offset: nat, first: seq<byte>, second: seq<byte>)
    ensures WriteAt(WriteAt(file, offset, first), offset + |first|, second) == WriteAt(file, offset, first + second)
  {
    if first == [] {
      assert first + second == second;
    } else if second == [] {
      assert first + second == first;
    }
  }

  lemma MulMono(a: nat, b: nat, c: nat)
    requires a <= b
    ensures a * c <= b * c
  {
  }

  lemma DivMod(i: nat, n: nat)
    requires n > 0
    ensures i == i / n * n + i % n && 0 <= i % n < n && 0 <= i / n
  {
  }

  lemma DivModUnique(k: nat, r: nat, n: nat)
    requires r < n
    ensures (k * n + r) / n == k && (k * n + r) % n == r
  {
    var i := k * n + r;
    DivMod(i, n);
    if i / n < k {
      MulMono(i / n + 1, k, n);
    } else if i / n > k {
      MulMono(k + 1, i / n, n);
    }
  }

  lemma DivMono(i: nat, j: nat, n: nat)
    requires n > 0 && i <= j
    ensures i / n <= j / n
  {
    DivMod(i, n);
    DivMod(j, n);
    if i / n > j / n {
      MulMono(j / n + 1, i / n, n);
    }
  }

  /** Positions in the same page are ordered as their offsets inside the page. */
  lemma SamePage(i: nat, j: nat, n: nat)
    requires n > 0 && i / n == j / n
    ensures i - j == i % n - j % n
  {
    DivMod(i, n);
    DivMod(j, n);
  }

  lemma InPage(i: nat, d: nat, n: nat)
    requires n > 0 && i % n + d < n
    ensures (i + d) / n == i / n && (i + d) % n == i % n + d
  {
    DivMod(i, n);
    DivModUnique(i / n, i % n + d, n);
  }

  lemma NextPage(i: nat, d: nat, n: nat)
    requires n > 0 && i % n + d == n
    ensures (i + d) / n == i / n + 1 && (i + d) % n == 0
  {
    DivMod(i, n);
    DivModUnique(i / n + 1, 0, n);
  }

  lemma InsidePage(i: nat, n: pos)
    ensures 0 <= i % n < n
  {
  }

  lemma NextMultiple(i: nat, n: pos)
    ensures (i + n) / n == i / n + 1 && (i + n) % n == i % n
  {
    var k, r := i / n, i % n;
    DivMod(i, n);
    assert (k + 1) * n == k * n + n;
    DivModUnique(k + 1, r, n);
  }
}
