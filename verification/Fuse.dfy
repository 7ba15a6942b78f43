/** The front end's loop that gathers what single reads give, and the copy and the paging of
    listings built on single calls. */
module Fuse {
  import opened Bytes
  import opened FsModel
  import opened Runs
  import opened Cache
  import opened FileSystem
  import opened ReadTransparency
  import opened WriteBack
  import opened SequentialReads
  import Answers
  import Storage

  /** What may be gathered at some point of the loop. */
  ghost predicate Gathered(ps: pos, truth: seq<byte>, offset: nat, size: nat, data: seq<byte>) {
    && offset % ps == 0 && size % ps == 0 && |data| <= size
    && (if offset >= |truth| then data == [] else Aligned(ps, truth, offset, data))
  }

  lemma AlignedJoin(ps: pos, truth: seq<byte>, offset: nat, data: seq<byte>, more: seq<byte>)
    requires Aligned(ps, truth, offset, data) && Aligned(ps, truth, offset + |data|, more)
    requires |data| % ps == 0
    ensures Aligned(ps, truth, offset, data + more)
  {
    assert data + more == truth[offset..offset + |data + more|];
    if |more| % ps == 0 {
      MultiplePlus(|data|, |more|, ps);
    }
  }

  /** One more read in the loop keeps what is gathered a prefix of what is wanted, and gives
      nothing only if everything is there. */
  lemma GatherStep(cfg: FsConfig, s: FsState, path: Path, offset: nat, size: nat, data: seq<byte>, c: ReadChoice)
    requires Exact(cfg, s) && path in s.tree && s.tree[path].File? && |data| < size
    requires Gathered(cfg.cache.limits.pageSize, s.tree[path].content, offset, size, data)
    ensures var (s', r) := ReadFile(cfg, s, path, offset + |data|, size - |data|, c);
            && Exact(cfg, s') && s'.tree == s.tree && r.Ok?
            && Gathered(cfg.cache.limits.pageSize, s.tree[path].content, offset, size, data + r.value)
            && (r.value == [] ==> data == ReadAt(s.tree[path].content, offset, size))
  {
    hide ReadFile, Exact;
    var ps, truth := cfg.cache.limits.pageSize, s.tree[path].content;
    if offset + |data| >= |truth| {
      ReadAtEnd(cfg, s, path, offset + |data|, size - |data|, c);
      assert data + [] == data;
    } else {
      MultiplePlus(offset, |data|, ps);
      MultipleMinus(size, |data|, ps);
      ReadFileExact(cfg, s, path, offset + |data|, size - |data|, c);
      var r := ReadFile(cfg, s, path, offset + |data|, size - |data|, c).1;
      AlignedJoin(ps, truth, offset, data, r.value);
    }
  }

  lemma GatheredAll(ps: pos, truth: seq<byte>, offset: nat, size: nat, data: seq<byte>)
    requires Gathered(ps, truth, offset, size, data) && |data| >= size
    ensures data == ReadAt(truth, offset, size)
  {
  }

  lemma NothingGathered(ps: pos, truth: seq<byte>, offset: nat, size: nat)
    requires offset % ps == 0 && size % ps == 0
    ensures Gathered(ps, truth, offset, size, [])
  {
  }

  /** A page-aligned request for an existing file, on a client whose knowledge is exact. */
  ghost predicate Aligns(cfg: FsConfig, s: FsState, path: Path, offset: nat, size: nat) {
    && Exact(cfg, s) && path in s.tree && s.tree[path].File?
    && offset % cfg.cache.limits.pageSize == 0 && size % cfg.cache.limits.pageSize == 0
  }

  // ---- the loop as a function, and as a run ----

  /** The loop of a read from some point on, with the choices of the reads that are still to come. */
  ghost function ReadLoop(cfg: FsConfig, s: FsState, path: Path, offset: nat, size: nat, data: seq<byte>,
                          cs: seq<ReadChoice>)
    : (FsState, Result<seq<byte>>)
    decreases |cs|
  {
    if |data| >= size || cs == [] then (s, Ok(data))
    else
      var (s1, r) := ReadFile(cfg, s, path, offset + |data|, size - |data|, cs[0]);
      if r.Err? then (s1, r)
      else if r.value == [] then (s1, Ok(data))
      else ReadLoop(cfg, s1, path, offset, size, data + r.value, cs[1..])
  }

  /** The reads that the loop makes. */
  ghost function LoopOps(cfg: FsConfig, s: FsState, path: Path, offset: nat, size: nat, data: seq<byte>,
                         cs: seq<ReadChoice>): seq<Op>
    decreases |cs|
  {
    if |data| >= size || cs == [] then []
    else
      var (s1, r) := ReadFile(cfg, s, path, offset + |data|, size - |data|, cs[0]);
      [ReadOp(path, offset + |data|, size - |data|, cs[0])] +
      if r.Err? || r.value == [] then [] else LoopOps(cfg, s1, path, offset, size, data + r.value, cs[1..])
  }

  /** The loop leaves what the run of its reads leaves. */
  lemma {:induction false} LoopIsRun(cfg: FsConfig, s: FsState, path: Path, offset: nat, size: nat, data: seq<byte>,
                                     cs: seq<ReadChoice>)
    ensures ReadLoop(cfg, s, path, offset, size, data, cs).0 ==
            Run(cfg, s, LoopOps(cfg, s, path, offset, size, data, cs))
    decreases |cs|
  {
    hide ReadFile;
    if |data| < size && cs != [] {
      var (s1, r) := ReadFile(cfg, s, path, offset + |data|, size - |data|, cs[0]);
      var op := ReadOp(path, offset + |data|, size - |data|, cs[0]);
      var rest := if r.Err? || r.value == [] then [] else LoopOps(cfg, s1, path, offset, size, data + r.value, cs[1..]);
      assert ([op] + rest)[0] == op && ([op] + rest)[1..] == rest;
      assert Run(cfg, s, [op] + rest) == Run(cfg, s1, rest);
      if r.Ok? && r.value != [] {
        LoopIsRun(cfg, s1, path, offset, size, data + r.value, cs[1..]);
      }
    }
  }

  lemma GatheredStart(ps: pos, truth: seq<byte>, offset: nat, size: nat, data: seq<byte>)
    requires Gathered(ps, truth, offset, size, data)
    ensures ((offset + |data|) % ps == 0 && (size - |data|) % ps == 0) || offset + |data| >= |truth|
  {
    if offset + |data| < |truth| {
      MultiplePlus(offset, |data|, ps);
      MultipleMinus(size, |data|, ps);
    }
  }

  /** With enough choices the loop gives exactly the server's bytes, leaves the client's
      knowledge exact, and makes only reads from page to page or at the end. */
  lemma {:induction false} LoopExact(cfg: FsConfig, s: FsState, path: Path, offset: nat, size: nat, data: seq<byte>,
                                     cs: seq<ReadChoice>)
    requires Exact(cfg, s) && path in s.tree && s.tree[path].File? && |data| + |cs| >= size
    requires Gathered(cfg.cache.limits.pageSize, s.tree[path].content, offset, size, data)
    ensures var (s', r) := ReadLoop(cfg, s, path, offset, size, data, cs);
            && Exact(cfg, s') && s'.tree == s.tree
            && r == Ok(ReadAt(s.tree[path].content, offset, size))
    ensures forall op :: op in LoopOps(cfg, s, path, offset, size, data, cs) ==>
            OnlyReads(cfg.cache.limits.pageSize, s.tree, op)
    decreases |cs|
  {
    hide ReadFile, Exact, Gathered;
    var ps, truth := cfg.cache.limits.pageSize, s.tree[path].content;
    if |data| >= size {
      GatheredAll(ps, truth, offset, size, data);
    } else {
      GatherStep(cfg, s, path, offset, size, data, cs[0]);
      GatheredStart(ps, truth, offset, size, data);
      var (s1, r) := ReadFile(cfg, s, path, offset + |data|, size - |data|, cs[0]);
      if r.value != [] {
        LoopExact(cfg, s1, path, offset, size, data + r.value, cs[1..]);
      }
    }
  }

  /** From a client that knows nothing, after any reads, lookups and listings with any evictions
      and expiries - among them those of earlier loops - every page-aligned read of a file gives
      exactly what the server's own read gives. */
  lemma FuseReadsExact(cfg: FsConfig, t: Tree, ops: seq<Op>, path: Path, offset: nat, size: nat, cs: seq<ReadChoice>)
    requires cfg.capacity > 0 && cfg.capacity % cfg.cache.limits.pageSize == 0
    requires forall op :: op in ops ==> OnlyReads(cfg.cache.limits.pageSize, t, op)
    requires path in t && t[path].File? && |cs| >= size
    requires offset % cfg.cache.limits.pageSize == 0 && size % cfg.cache.limits.pageSize == 0
    ensures var s := Run(cfg, Start(t), ops);
            && ReadLoop(cfg, s, path, offset, size, [], cs).1 == Storage.ReadFile(t, path, offset, size)
            && forall op :: op in LoopOps(cfg, s, path, offset, size, [], cs) ==>
               OnlyReads(cfg.cache.limits.pageSize, t, op)
  {
    hide Run, Exact, OnlyReads, Gathered, ReadLoop, LoopOps;
    StartExact(cfg, t);
    RunExact(cfg, Start(t), ops);
    NothingGathered(cfg.cache.limits.pageSize, t[path].content, offset, size);
    LoopExact(cfg, Run(cfg, Start(t), ops), path, offset, size, [], cs);
  }

  /** So far the loop has made the reads with the choices `cs`. */
  ghost predicate Reached(cfg: FsConfig, s: FsState, path: Path, offset: nat, size: nat, cs: seq<ReadChoice>,
                          s1: FsState, data: seq<byte>) {
    forall rest: seq<ReadChoice> ::
      ReadLoop(cfg, s, path, offset, size, [], cs + rest) == ReadLoop(cfg, s1, path, offset, size, data, rest)
  }

  lemma ReachedNothing(cfg: FsConfig, s: FsState, path: Path, offset: nat, size: nat)
    ensures Reached(cfg, s, path, offset, size, [], s, [])
  {
    hide ReadLoop;
    forall rest: seq<ReadChoice>
      ensures ReadLoop(cfg, s, path, offset, size, [], [] + rest) == ReadLoop(cfg, s, path, offset, size, [], rest)
    {
      assert [] + rest == rest;
    }
  }

  /** One more read; it ends the loop, whatever choices follow, or the loop has come further. */
  lemma ReachedNext(cfg: FsConfig, s: FsState, path: Path, offset: nat, size: nat, cs: seq<ReadChoice>,
                    s1: FsState, data: seq<byte>, c: ReadChoice)
    requires Reached(cfg, s, path, offset, size, cs, s1, data) && |data| < size
    ensures var (s2, r) := ReadFile(cfg, s1, path, offset + |data|, size - |data|, c);
            if r.Ok? && r.value != [] then Reached(cfg, s, path, offset, size, cs + [c], s2, data + r.value)
            else forall rest: seq<ReadChoice> ::
                   ReadLoop(cfg, s, path, offset, size, [], cs + [c] + rest) == (s2, if r.Ok? then Ok(data) else r)
  {
    hide ReadFile;
    var (s2, r) := ReadFile(cfg, s1, path, offset + |data|, size - |data|, c);
    forall rest: seq<ReadChoice>
      ensures ReadLoop(cfg, s, path, offset, size, [], cs + [c] + rest) ==
              if r.Err? then (s2, r) else if r.value == [] then (s2, Ok(data))
              else ReadLoop(cfg, s2, path, offset, size, data + r.value, rest)
    {
      assert cs + [c] + rest == cs + ([c] + rest);
      assert ([c] + rest)[0] == c && ([c] + rest)[1..] == rest;
    }
  }

  // ---- reads that are not aligned ----

  /** What the loop has gathered so far, from any offset on. */
  predicate SoFar(truth: seq<byte>, offset: nat, size: nat, data: seq<byte>) {
    && |data| <= size
    && (if offset >= |truth| then data == []
        else offset + |data| <= |truth| && data == truth[offset..offset + |data|])
  }

  lemma SoFarMore(truth: seq<byte>, offset: nat, size: nat, data: seq<byte>, r: Result<seq<byte>>)
    requires SoFar(truth, offset, size, data) && |data| < size
    requires NextBytes(truth, offset + |data|, size - |data|, r)
    ensures SoFar(truth, offset, size, data + r.value)
    ensures r.value == [] ==> data == ReadAt(truth, offset, size)
  {
  }

  lemma SoFarAll(truth: seq<byte>, offset: nat, size: nat, data: seq<byte>)
    requires SoFar(truth, offset, size, data) && |data| >= size
    ensures data == ReadAt(truth, offset, size)
  {
  }

  /** The merges behind the reads of the loop visit every page. */
  ghost predicate LoopOrders(cfg: FsConfig, s: FsState, path: Path, offset: nat, size: nat, data: seq<byte>,
                             cs: seq<ReadChoice>)
    decreases |cs|
  {
    |data| >= size || cs == [] ||
    (var c, x, n := cs[0], offset + |data|, size - |data|;
     var (s1, r) := ReadFile(cfg, s, path, x, n, c);
     && OrderOk(ChunkItem(cfg, path, x, Brought(cfg, s, path, x, n, c.miss.window)), c.miss.put)
     && (r.Ok? && r.value != [] ==> LoopOrders(cfg, s1, path, offset, size, data + r.value, cs[1..])))
  }

  lemma {:induction false} LoopFromAnywhere(cfg: FsConfig, s: FsState, path: Path, offset: nat, size: nat,
                                            data: seq<byte>, cs: seq<ReadChoice>)
    requires ReadsOn(cfg, s, path, offset + |data|) && |data| + |cs| >= size
    requires LoopOrders(cfg, s, path, offset, size, data, cs) && SoFar(s.tree[path].content, offset, size, data)
    ensures var (s', r) := ReadLoop(cfg, s, path, offset, size, data, cs);
            s'.tree == s.tree && r == Ok(ReadAt(s.tree[path].content, offset, size))
    decreases |cs|
  {
    hide ReadFile, SoFar, OrderOk, ChunkItem, Brought;
    var truth := s.tree[path].content;
    if |data| >= size {
      SoFarAll(truth, offset, size, data);
    } else {
      var x, n := offset + |data|, size - |data|;
      NextReadExact(cfg, s, path, x, n, cs[0]);
      var (s1, r) := ReadFile(cfg, s, path, x, n, cs[0]);
      SoFarMore(truth, offset, size, data, r);
      if r.value != [] {
        LoopFromAnywhere(cfg, s1, path, offset, size, data + r.value, cs[1..]);
      }
    }
  }

  /** A read of any range, aligned or not, of a file of which the client knows nothing: exactly
      what the server's own read gives, whatever else is cached, expires or is evicted. */
  lemma UnalignedReadsExact(cfg: FsConfig, s: FsState, path: Path, offset: nat, size: nat, cs: seq<ReadChoice>)
    requires Answers.Unknown(cfg, s, path) && path != [] && path in s.tree && s.tree[path].File? && cfg.capacity > 0
    requires |cs| >= size && LoopOrders(cfg, s, path, offset, size, [], cs)
    ensures ReadLoop(cfg, s, path, offset, size, [], cs).1 == Storage.ReadFile(s.tree, path, offset, size)
  {
    hide ReadLoop, LoopOrders, ReadsOn;
    UnknownReadsOn(cfg, s, path, offset);
    LoopFromAnywhere(cfg, s, path, offset, size, [], cs);
  }

  predicate IsFile(t: Tree, path: Path) {
    path in t && t[path].File?
  }

  /** A read of a file that is there succeeds, whatever is cached. */
  lemma {:induction false} LoopSucceeds(cfg: FsConfig, s: FsState, path: Path, offset: nat, size: nat, data: seq<byte>,
                                        cs: seq<ReadChoice>)
    requires IsFile(s.tree, path) && |data| <= size
    ensures var r := ReadLoop(cfg, s, path, offset, size, data, cs).1; r.Ok? && data <= r.value && |r.value| <= size
    decreases |cs|
  {
    hide ReadFile;
    if |data| < size && cs != [] {
      Answers.ReadAnswers(cfg, s, path, offset + |data|, size - |data|, cs[0]);
      ReadsKeep(cfg, s, path, offset + |data|, size - |data|, cs[0]);
      var (s1, r) := ReadFile(cfg, s, path, offset + |data|, size - |data|, cs[0]);
      if r.value != [] {
        LoopSucceeds(cfg, s1, path, offset, size, data + r.value, cs[1..]);
      }
    }
  }

  /** The loop has gathered the first bytes, and can go on. */
  ghost predicate Goes(cfg: FsConfig, s: FsState, path: Path, offset: nat, size: nat, data: seq<byte>) {
    ReadsOn(cfg, s, path, offset + |data|) && SoFar(s.tree[path].content, offset, size, data)
  }

  lemma NextOfLoop(cfg: FsConfig, s: FsState, path: Path, offset: nat, size: nat, data: seq<byte>, c: ReadChoice)
    requires |data| < size && Goes(cfg, s, path, offset, size, data)
    requires var x, n := offset + |data|, size - |data|;
             OrderOk(ChunkItem(cfg, path, x, Brought(cfg, s, path, x, n, c.miss.window)), c.miss.put)
    ensures var (s', r) := ReadFile(cfg, s, path, offset + |data|, size - |data|, c);
            && r.Ok? && s'.tree == s.tree && Goes(cfg, s', path, offset, size, data + r.value)
            && (r.value == [] ==> data == ReadAt(s.tree[path].content, offset, size))
  {
    hide ReadFile, OrderOk, ChunkItem, Brought, SoFar;
    NextReadExact(cfg, s, path, offset + |data|, size - |data|, c);
    SoFarMore(s.tree[path].content, offset, size, data, ReadFile(cfg, s, path, offset + |data|, size - |data|, c).1);
  }

  lemma LegalNext(cfg: FsConfig, start: nat, end: nat, s: FsState, path: Path, offset: nat, size: nat, data: seq<byte>,
                  c: ReadChoice)
    requires |data| < size && Goes(cfg, s, path, offset, size, data)
    requires Runs.Legal(cfg, start, end, s, ReadOp(path, offset + |data|, size - |data|, c))
    ensures var (s', r) := ReadFile(cfg, s, path, offset + |data|, size - |data|, c);
            && r.Ok? && s'.tree == s.tree && Goes(cfg, s', path, offset, size, data + r.value)
            && (r.value == [] ==> Ok(data) == Storage.ReadFile(s.tree, path, offset, size))
  {
    hide ReadFile, OrderOk, ChunkItem, Brought;
    NextOfLoop(cfg, s, path, offset, size, data, c);
  }

  lemma GoesStart(cfg: FsConfig, s: FsState, path: Path, offset: nat, size: nat)
    requires ReadsOn(cfg, s, path, offset)
    ensures Goes(cfg, s, path, offset, size, [])
  {
  }

  lemma GoneThrough(cfg: FsConfig, s: FsState, path: Path, offset: nat, size: nat, data: seq<byte>)
    requires Goes(cfg, s, path, offset, size, data) && |data| >= size
    ensures Ok(data) == Storage.ReadFile(s.tree, path, offset, size)
  {
  }

  /** Choices that are never used. */
  ghost function Unused(n: nat): (cs: seq<ReadChoice>)
    ensures |cs| == n
  {
    var none := Choice(0, [], []);
    seq(n, _ => ReadChoice(AttrChoice(0, none), 0, MissChoice(0, 0, none)))
  }

  /** The loop of a read. It gives exactly the server's bytes of the range that was asked for. */
  method Read(fs: FileSystem, path: Path, offset: nat, size: nat)
    returns (r: Result<seq<byte>>, ghost cs: seq<ReadChoice>)
    requires fs.Valid()
    modifies fs, fs.clock, fs.cache, fs.readBuffer, fs.readBuffer.buffer
    ensures fs.Valid() && |cs| >= size
    ensures (fs.State(), r) == ReadLoop(fs.cfg, old(fs.State()), path, offset, size, [], cs)
    ensures fs.State().tree == old(fs.State()).tree && fs.State().pending == old(fs.State()).pending
    ensures Aligns(fs.cfg, old(fs.State()), path, offset, size) ==>
              && r == Storage.ReadFile(fs.State().tree, path, offset, size)
              && Exact(fs.cfg, fs.State())
    ensures ReadsOn(fs.cfg, old(fs.State()), path, offset) ==>
              r == Storage.ReadFile(fs.State().tree, path, offset, size)
    ensures IsFile(fs.State().tree, path) ==> r.Ok? && |r.value| <= size
  {
    hide FileSystem.CacheOk, FsModel.ReadFile, Exact, Gathered, Reached, ReadLoop, Runs.Legal, ReadsOn, Goes,
      IsFile;
    ghost var s := fs.State();
    var data, dataRead := [], 0;
    cs := [];
    ReachedNothing(fs.cfg, s, path, offset, size);
    if ReadsOn(fs.cfg, s, path, offset) {
      GoesStart(fs.cfg, s, path, offset, size);
    }
    while dataRead < size
      invariant fs.Valid() && dataRead == |data|
      invariant Reached(fs.cfg, s, path, offset, size, cs, fs.State(), data)
      invariant fs.State().tree == s.tree
      invariant ReadsOn(fs.cfg, s, path, offset) ==> Goes(fs.cfg, fs.State(), path, offset, size, data)
    {
      ghost var before, start := fs.State(), fs.clock.time;
      var newData, c := fs.ReadFile(path, offset + dataRead, size - dataRead);
      if ReadsOn(fs.cfg, s, path, offset) {
        LegalNext(fs.cfg, start, fs.clock.time, before, path, offset, size, data, c);
      }
      ReachedNext(fs.cfg, s, path, offset, size, cs, before, data, c);
      cs := cs + [c];
      if newData.Err? || newData.value == [] {
        cs := cs + Unused(size);
        AlignedLoop(fs.cfg, s, path, offset, size, cs);
        FileLoop(fs.cfg, s, path, offset, size, cs);
        r := if newData.Err? then newData else Ok(data);
        return;
      }
      data := data + newData.value;
      dataRead := dataRead + |newData.value|;
    }
    LoopEnds(fs.cfg, s, path, offset, size, cs, fs.State(), data, Unused(size));
    cs := cs + Unused(size);
    AlignedLoop(fs.cfg, s, path, offset, size, cs);
    FileLoop(fs.cfg, s, path, offset, size, cs);
    if ReadsOn(fs.cfg, s, path, offset) {
      GoneThrough(fs.cfg, fs.State(), path, offset, size, data);
    }
    r := Ok(data);
  }

  lemma LoopEnds(cfg: FsConfig, s: FsState, path: Path, offset: nat, size: nat, cs: seq<ReadChoice>, s1: FsState,
                 data: seq<byte>, rest: seq<ReadChoice>)
    requires Reached(cfg, s, path, offset, size, cs, s1, data) && |data| >= size
    ensures ReadLoop(cfg, s, path, offset, size, [], cs + rest) == (s1, Ok(data))
  {
  }

  lemma FileLoop(cfg: FsConfig, s: FsState, path: Path, offset: nat, size: nat, cs: seq<ReadChoice>)
    ensures IsFile(s.tree, path) ==>
              var r := ReadLoop(cfg, s, path, offset, size, [], cs).1; r.Ok? && |r.value| <= size
  {
    hide ReadLoop;
    if IsFile(s.tree, path) {
      LoopSucceeds(cfg, s, path, offset, size, [], cs);
    }
  }

  lemma AlignedLoop(cfg: FsConfig, s: FsState, path: Path, offset: nat, size: nat, cs: seq<ReadChoice>)
    requires |cs| >= size
    ensures Aligns(cfg, s, path, offset, size) ==>
              var (s', r) := ReadLoop(cfg, s, path, offset, size, [], cs);
              Exact(cfg, s') && r == Storage.ReadFile(s.tree, path, offset, size)
  {
    hide Exact, ReadLoop, LoopOps, OnlyReads;
    if Aligns(cfg, s, path, offset, size) {
      NothingGathered(cfg.cache.limits.pageSize, s.tree[path].content, offset, size);
      LoopExact(cfg, s, path, offset, size, [], cs);
    }
  }

  // ---- copying ----

  /** The server's tree before the copied bytes are written: a copy to the front empties the
      target first. */
  function Target(t: Tree, to: Path, offset: nat): Result<Tree> {
    if offset == 0 then Storage.SetSize(t, to, 0) else Ok(t)
  }

  /** What a copy does, once the buffer is uploaded: as much of the source bytes as there is room
      for is written to the target. */
  ghost predicate Copied(cfg: FsConfig, s: FsState, s': FsState, to: Path, offset: nat, source: seq<byte>, n: nat)
    requires PendingOk(cfg.capacity, s.pending)
  {
    var target := Target(s.tree, to, offset);
    && PendingOk(cfg.capacity, s'.pending)
    && n == Min(|source|, Answers.Room(cfg.capacity, s.pending, to, offset)) && (source != [] ==> n > 0)
    && target.Ok?
    && Overlaid(s'.tree, s'.pending) == Apply(Overlaid(target.value, s.pending), Upload(to, offset, source[..n]))
  }

  lemma CopyWrites(cfg: FsConfig, s: FsState, path: Path, offset: nat, data: seq<byte>, c: WriteChoice)
    requires PendingOk(cfg.capacity, s.pending)
    ensures var (s', r) := WriteFile(cfg, s, path, offset, data, c);
            r.Ok? ==>
              && PendingOk(cfg.capacity, s'.pending)
              && r.value <= |data| && (data != [] ==> r.value > 0)
              && Overlaid(s'.tree, s'.pending) ==
                 Apply(Overlaid(s.tree, s.pending), Upload(path, offset, data[..r.value]))
  {
    hide Apply, UploadAll, WriteSection, Overlaid;
    WriteConserves(cfg, s, path, offset, data, c);
    SectionShape(cfg.capacity, s.pending, path, offset, data);
  }

  /** The client's knowledge makes a read of this range exact. */
  ghost predicate Knows(cfg: FsConfig, s: FsState, path: Path, offset: nat, size: nat) {
    Aligns(cfg, s, path, offset, size) || ReadsOn(cfg, s, path, offset)
  }

  /** A copy of `n` bytes goes through: its target can be emptied if it goes to the front, and what
      the write has to upload can be written. */
  ghost predicate CopyGoes(capacity: nat, s: FsState, to: Path, offset: nat, n: nat)
    requires PendingOk(capacity, s.pending)
  {
    (offset == 0 ==> IsFile(s.tree, to)) && Answers.WriteGoes(capacity, s.tree, s.pending, to, offset, n)
  }

  /** It goes through for every number of bytes that the read can give. */
  ghost predicate CopyAlwaysGoes(capacity: nat, s: FsState, to: Path, offset: nat, length: nat)
    requires PendingOk(capacity, s.pending)
  {
    forall n: nat :: n <= length ==> CopyGoes(capacity, s, to, offset, n)
  }

  /** The tree that the write of a copy meets. */
  ghost predicate Emptied(s: FsState, s': FsState, to: Path, offset: nat) {
    s'.pending == s.pending && Target(s.tree, to, offset) == Ok(s'.tree)
  }

  lemma EmptiedGoes(capacity: nat, s: FsState, s': FsState, to: Path, offset: nat, n: nat)
    requires PendingOk(capacity, s.pending) && Emptied(s, s', to, offset)
    ensures PendingOk(capacity, s'.pending)
    ensures CopyGoes(capacity, s, to, offset, n) <==> Answers.WriteGoes(capacity, s'.tree, s'.pending, to, offset, n)
  {
    hide Answers.Writable;
    if offset == 0 {
      Answers.ResizedWritable(s.tree, to, 0, to);
      if s.pending.data != [] {
        Answers.ResizedWritable(s.tree, to, 0, s.pending.path.value);
      }
    }
  }

  lemma CopyEnds(cfg: FsConfig, s: FsState, s': FsState, to: Path, offset: nat, data: seq<byte>, c: WriteChoice)
    requires PendingOk(cfg.capacity, s.pending) && Emptied(s, s', to, offset)
    ensures PendingOk(cfg.capacity, s'.pending)
    ensures var (s2, r) := WriteFile(cfg, s', to, offset, data, c);
            && (r.Ok? <==> CopyGoes(cfg.capacity, s, to, offset, |data|))
            && (r.Ok? ==> Copied(cfg, s, s2, to, offset, data, r.value))
  {
    hide WriteFile, Answers.WriteGoes, Apply, Overlaid, CopyGoes, Answers.Room;
    EmptiedGoes(cfg.capacity, s, s', to, offset, |data|);
    Answers.WriteAnswers(cfg, s', to, offset, data, c);
    CopyWrites(cfg, s', to, offset, data, c);
  }

  /** The loop of a read, the emptying of the target if the copy goes to its front, and one
      write of all that was read. */
  method CopyFileRange(fs: FileSystem, from: Path, offsetIn: nat, to: Path, offsetOut: nat, length: nat)
    returns (r: Result<nat>)
    requires fs.Valid()
    modifies fs.Repr()
    ensures fs.Valid()
    ensures var s := old(fs.State());
            PendingOk(fs.cfg.capacity, s.pending) && Knows(fs.cfg, s, from, offsetIn, length) ==>
              var source := ReadAt(Storage.Content(s.tree, from), offsetIn, length);
              && (r.Ok? <==> CopyGoes(fs.cfg.capacity, s, to, offsetOut, |source|))
              && (r.Ok? ==> Copied(fs.cfg, s, fs.State(), to, offsetOut, source, r.value))
    ensures var s := old(fs.State());
            PendingOk(fs.cfg.capacity, s.pending) && IsFile(s.tree, from) ==>
              CopyAlwaysGoes(fs.cfg.capacity, s, to, offsetOut, length) ==> r.Ok?
  {
    hide FileSystem.CacheOk, FsModel.WriteFile, FsModel.SetSize, Knows, Copied, CopyGoes, CopyAlwaysGoes,
      PendingOk, UploadOrdersOk, FsModel.WriteSection, ReadLoop, IsFile, Emptied;
    ghost var s := fs.State();
    var data, choices := Read(fs, from, offsetIn, length);
    KnownRead(fs.cfg, s, from, offsetIn, length, data);
    if data.Err? {
      return Err(data.error);
    }
    if offsetOut == 0 {
      ghost var before := fs.State();
      var attributes, sc := fs.SetSize(to, 0);
      Emptying(fs.cfg, s, before, to, sc);
      if attributes.Err? {
        NotEmptied(fs.cfg.capacity, s, to, length);
        return Err(attributes.error);
      }
    }
    ghost var emptied := fs.State();
    if offsetOut != 0 {
      NotAtFront(s, emptied, to, offsetOut);
    }
    ghost var c;
    r, c := fs.WriteFile(to, offsetOut, data.value);
    if PendingOk(fs.cfg.capacity, s.pending) {
      CopyEnds(fs.cfg, s, emptied, to, offsetOut, data.value, c);
      AlwaysGoes(fs.cfg.capacity, s, to, offsetOut, length, |data.value|);
    }
  }

  lemma KnownRead(cfg: FsConfig, s: FsState, path: Path, offset: nat, size: nat, r: Result<seq<byte>>)
    requires Aligns(cfg, s, path, offset, size) ==> r == Storage.ReadFile(s.tree, path, offset, size)
    requires ReadsOn(cfg, s, path, offset) ==> r == Storage.ReadFile(s.tree, path, offset, size)
    ensures Knows(cfg, s, path, offset, size) ==> r == Ok(ReadAt(Storage.Content(s.tree, path), offset, size))
  {
    hide Exact;
  }

  /** Setting the size to zero empties the target or fails because it is no file. */
  lemma Emptying(cfg: FsConfig, s: FsState, before: FsState, to: Path, c: Choice)
    requires before.tree == s.tree && before.pending == s.pending
    ensures var (s', r) := FsModel.SetSize(cfg, before, to, 0, c);
            if r.Ok? then Emptied(s, s', to, 0) else !IsFile(s.tree, to)
  {
    hide CacheAttr;
  }

  lemma NotAtFront(s: FsState, s': FsState, to: Path, offset: nat)
    requires offset != 0 && s'.tree == s.tree && s'.pending == s.pending
    ensures Emptied(s, s', to, offset)
  {
  }

  lemma AlwaysGoes(capacity: nat, s: FsState, to: Path, offset: nat, length: nat, n: nat)
    requires PendingOk(capacity, s.pending)
    ensures CopyAlwaysGoes(capacity, s, to, offset, length) && n <= length ==> CopyGoes(capacity, s, to, offset, n)
  {
    hide CopyGoes;
  }

  lemma NotEmptied(capacity: nat, s: FsState, to: Path, length: nat)
    requires !IsFile(s.tree, to)
    ensures PendingOk(capacity, s.pending) ==>
              !CopyAlwaysGoes(capacity, s, to, 0, length) && forall n: nat :: !CopyGoes(capacity, s, to, 0, n)
  {
    if PendingOk(capacity, s.pending) {
      assert !CopyGoes(capacity, s, to, 0, 0);
    }
  }
}
