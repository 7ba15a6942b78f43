/** One writer that goes on where it stopped: the server gets full buffers only, and between two of
    them no byte. */
module Coalescing {
  import opened Bytes
  import opened Cache
  import opened RwBuffer
  import opened FsModel
  import opened Runs
  import opened WriteBack
  import Answers
  import CallLoops
  import Storage

  /** The server has the first `k` of the accepted bytes, a number of full buffers, and the rest is
      pending behind them. */
  ghost predicate Between(cfg: FsConfig, t: Tree, s: FsState, p: Path, offset: nat, accepted: seq<byte>, k: nat) {
    && cfg.capacity > 0 && Answers.Writable(t, p)
    && k <= |accepted| < k + cfg.capacity && k % cfg.capacity == 0
    && s.tree == Apply(t, Upload(p, offset, accepted[..k]))
    && s.pending.data == accepted[k..]
    && (s.pending.data != [] ==> s.pending.path == Some(p) && s.pending.offset == offset + k)
  }

  lemma SectionOn(capacity: nat, b: Pending, p: Path, start: nat, x: nat, data: seq<byte>)
    requires |b.data| < capacity && x == start + |b.data|
    requires b.data != [] ==> b.path == Some(p) && b.offset == start
    ensures var n := Min(|data|, capacity - |b.data|);
            var (b', uploads, written) := WriteSection(capacity, b, p, x, data);
            && written == n
            && (if |b.data| + n == capacity then b' == CLEAN && uploads == [Upload(p, start, b.data + data[..n])]
                else uploads == [] && b' == Pending(Some(p), start, b.data + data[..n]))
  {
    var n := Min(|data|, capacity - |b.data|);
    if b.data == [] {
      assert b.data + data[..n] == data[..n];
      if !IsAppending(b, p, x) {
        assert WriteSection(capacity, b, p, x, data).1 == if n == capacity then [Upload(p, x, data[..n])] else [];
      }
    }
  }

  lemma UploadGoes(cfg: FsConfig, s: FsState, u: Upload, c: Choice)
    requires Answers.Writable(s.tree, u.path) && u.data != []
    ensures var (s', r) := UploadAll(cfg, s, [u], [c]);
            r == Ok(()) && s'.tree == Apply(s.tree, u) && s'.pending == s.pending
  {
    hide UploadOne, UploadAll;
    Answers.UploadAnswers(cfg, s, u, c);
    UploadApplies(cfg, s, u, c);
    CallLoops.OnlyUpload(cfg, s, u, c);
  }

  lemma StillWritableThere(t: Tree, p: Path, offset: nat, data: seq<byte>)
    requires Answers.Writable(t, p)
    ensures Answers.Writable(Apply(t, Upload(p, offset, data)), p)
  {
  }

  lemma Joined(t: Tree, p: Path, offset: nat, front: seq<byte>, back: seq<byte>, all: seq<byte>)
    requires all == front + back
    ensures Apply(Apply(t, Upload(p, offset, front)), Upload(p, offset + |front|, back)) ==
            Apply(t, Upload(p, offset, all))
  {
    hide Apply;
    ApplyJoin(t, p, offset, front, back);
  }

  lemma Whole(cfg: FsConfig, t: Tree, s: FsState, p: Path, offset: nat, all: seq<byte>)
    requires cfg.capacity > 0 && Answers.Writable(t, p) && |all| % cfg.capacity == 0
    requires s.tree == Apply(t, Upload(p, offset, all)) && s.pending.data == []
    ensures Between(cfg, t, s, p, offset, all, |all|)
  {
    hide Apply, Answers.Writable;
    assert all[..|all|] == all && all[|all|..] == [];
  }

  /** The write fills the buffer. */
  lemma FillOn(cfg: FsConfig, t: Tree, s: FsState, p: Path, offset: nat, accepted: seq<byte>, k: nat, more: seq<byte>,
               u: Upload, c: Choice)
    requires Between(cfg, t, s, p, offset, accepted, k) && |accepted + more| == k + cfg.capacity
    requires u == Upload(p, offset + k, s.pending.data + more)
    ensures var (s', r) := UploadAll(cfg, s.(pending := CLEAN), [u], [c]);
            r == Ok(()) && Between(cfg, t, s', p, offset, accepted + more, k + cfg.capacity)
  {
    hide UploadAll, Apply, Answers.Writable;
    var front, all := accepted[..k], accepted + more;
    assert all == front + u.data;
    NextFull(k, cfg.capacity);
    StillWritableThere(t, p, offset, front);
    UploadGoes(cfg, s.(pending := CLEAN), u, c);
    Joined(t, p, offset, front, u.data, all);
    Whole(cfg, t, UploadAll(cfg, s.(pending := CLEAN), [u], [c]).0, p, offset, all);
  }

  /** The write stays in the buffer. */
  lemma StayOn(cfg: FsConfig, t: Tree, s: FsState, p: Path, offset: nat, accepted: seq<byte>, k: nat, more: seq<byte>)
    requires Between(cfg, t, s, p, offset, accepted, k) && |accepted + more| < k + cfg.capacity
    ensures Between(cfg, t, s.(pending := Pending(Some(p), offset + k, s.pending.data + more)), p, offset,
                    accepted + more, k)
  {
    hide Apply, Answers.Writable;
    var all := accepted + more;
    assert all[..k] == accepted[..k] && s.pending.data + more == all[k..];
  }

  lemma WriteUnfold(cfg: FsConfig, s: FsState, p: Path, x: nat, data: seq<byte>, c: WriteChoice)
    requires |s.pending.data| <= cfg.capacity
    ensures var (b, uploads, written) := WriteSection(cfg.capacity, s.pending, p, x, data);
            && (uploads == [] ==> WriteFile(cfg, s, p, x, data, c) == (s.(pending := b), Ok(written)))
            && (|uploads| == 1 ==>
                  var (s', r) := UploadAll(cfg, s.(pending := b), uploads, [c.first]);
                  WriteFile(cfg, s, p, x, data, c) == (s', if r.Ok? then Ok(written) else Err(r.error)))
  {
    hide UploadOne, WriteSection;
    assert ChoicesFor(0, c) == [] && ChoicesFor(1, c) == [c.first];
  }

  /** One write right behind what was accepted takes what there is room for; a filled buffer goes
      to the server as a whole. */
  lemma WriteOn(cfg: FsConfig, t: Tree, s: FsState, p: Path, offset: nat, accepted: seq<byte>, k: nat, data: seq<byte>,
                c: WriteChoice)
    returns (k': nat)
    requires Between(cfg, t, s, p, offset, accepted, k)
    ensures var (s', r) := WriteFile(cfg, s, p, offset + |accepted|, data, c);
            var n := Min(|data|, k + cfg.capacity - |accepted|);
            && r == Ok(n) && Between(cfg, t, s', p, offset, accepted + data[..n], k')
    ensures k' == if |accepted| + |data| < k + cfg.capacity then k else k + cfg.capacity
  {
    hide UploadAll, WriteSection, WriteFile, Apply, Answers.Writable;
    var n := Min(|data|, k + cfg.capacity - |accepted|);
    SectionOn(cfg.capacity, s.pending, p, offset + k, offset + |accepted|, data);
    WriteUnfold(cfg, s, p, offset + |accepted|, data, c);
    if |accepted| + n == k + cfg.capacity {
      k' := k + cfg.capacity;
      var u := Upload(p, offset + k, s.pending.data + data[..n]);
      FillOn(cfg, t, s, p, offset, accepted, k, data[..n], u, c.first);
    } else {
      k' := k;
      StayOn(cfg, t, s, p, offset, accepted, k, data[..n]);
    }
  }

  lemma NextFull(k: nat, n: pos)
    requires k % n == 0
    ensures (k + n) % n == 0
  {
    NextMultiple(k, n);
  }

  /** Writes one behind the other: the state they leave and the bytes they took. */
  function WriteAll(cfg: FsConfig, s: FsState, p: Path, x: nat, chunks: seq<seq<byte>>, cs: seq<WriteChoice>)
    : (FsState, Result<seq<byte>>)
    requires |cs| == |chunks|
    decreases |chunks|
  {
    if chunks == [] then (s, Ok([]))
    else if |s.pending.data| > cfg.capacity then (s, Err(InvalidInput))
    else
      var (s1, r) := WriteFile(cfg, s, p, x, chunks[0], cs[0]);
      if r.Err? then (s1, Err(r.error))
      else
        var (s2, rest) := WriteAll(cfg, s1, p, x + r.value, chunks[1..], cs[1..]);
        (s2, if rest.Ok? then Ok(chunks[0][..Min(r.value, |chunks[0]|)] + rest.value) else rest)
  }

  lemma {:induction false} WriteAllOn(cfg: FsConfig, t: Tree, s: FsState, p: Path, offset: nat, accepted: seq<byte>,
                                      k: nat, chunks: seq<seq<byte>>, cs: seq<WriteChoice>)
    returns (k': nat)
    requires |cs| == |chunks| && Between(cfg, t, s, p, offset, accepted, k)
    ensures var (s', r) := WriteAll(cfg, s, p, offset + |accepted|, chunks, cs);
            r.Ok? && Between(cfg, t, s', p, offset, accepted + r.value, k')
    decreases |chunks|
  {
    hide WriteFile, Apply, Answers.Writable;
    if chunks == [] {
      k' := k;
      assert accepted + [] == accepted;
    } else {
      var k1 := WriteOn(cfg, t, s, p, offset, accepted, k, chunks[0], cs[0]);
      var (s1, r) := WriteFile(cfg, s, p, offset + |accepted|, chunks[0], cs[0]);
      var taken := chunks[0][..r.value];
      k' := WriteAllOn(cfg, t, s1, p, offset, accepted + taken, k1, chunks[1..], cs[1..]);
      var rest := WriteAll(cfg, s1, p, offset + |accepted| + r.value, chunks[1..], cs[1..]).1;
      assert accepted + taken + rest.value == accepted + (taken + rest.value);
    }
  }

  /** From an empty buffer, for any chunks written one behind the other to a path that can be
      written: every call succeeds, the server has exactly the full buffers among the accepted
      bytes, at their place, and the buffer holds the rest, less than its capacity. */
  lemma FullBuffersOnly(cfg: FsConfig, s: FsState, p: Path, offset: nat, chunks: seq<seq<byte>>, cs: seq<WriteChoice>)
    requires cfg.capacity > 0 && s.pending.data == [] && Answers.Writable(s.tree, p) && |cs| == |chunks|
    ensures var (s', r) := WriteAll(cfg, s, p, offset, chunks, cs);
            && r.Ok?
            && var pending := |r.value| % cfg.capacity;
               var k := |r.value| - pending;
               && s'.tree == Apply(s.tree, Upload(p, offset, r.value[..k]))
               && s'.pending.data == r.value[k..]
               && (pending > 0 ==> s'.pending == Pending(Some(p), offset + k, r.value[k..]))
  {
    hide WriteAll, Apply, Answers.Writable;
    var nothing: seq<byte> := [];
    NothingApplied(s.tree);
    assert Between(cfg, s.tree, s, p, offset, nothing, 0);
    var k := WriteAllOn(cfg, s.tree, s, p, offset, nothing, 0, chunks, cs);
    var (s', r) := WriteAll(cfg, s, p, offset, chunks, cs);
    assert nothing + r.value == r.value;
    WholePart(|r.value|, k, cfg.capacity);
  }

  lemma WholePart(n: nat, k: nat, d: pos)
    requires k <= n < k + d && k % d == 0
    ensures n % d == n - k
  {
    DivMod(k, d);
    DivModUnique(k / d, n - k, d);
  }
}
