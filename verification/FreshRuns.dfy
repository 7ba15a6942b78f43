/** Whole runs of one client while others change the server: what is known stays recent, and so
    does what a read answers. */
module FreshRuns {
  import opened Bytes
  import opened Cache
  import opened RwBuffer
  import opened FsModel
  import opened Runs
  import opened Freshness
  import CallLoops
  import Staleness
  import Storage

  // ---- uploads ----

  lemma UploadShape(t: Tree, u: Upload)
    requires Storage.WriteFile(t, u.path, u.offset, u.data).Ok?
    ensures Storage.Content(Storage.WriteFile(t, u.path, u.offset, u.data).value, u.path)
         == WriteAt(Storage.Content(t, u.path), u.offset, u.data)
  {
    hide WriteAt;
  }

  lemma UploadBytes(h: History, t: Tree, u: Upload, now: nat)
    requires Storage.WriteFile(t, u.path, u.offset, u.data).Ok?
    ensures var t' := Storage.WriteFile(t, u.path, u.offset, u.data).value;
            forall i :: 0 <= i < |u.data| ==> HadByte(h + [Snapshot(now, t')], u.path, now, u.offset + i, u.data[i])
  {
    hide HadByte, Storage.WriteFile, Storage.Content, WriteAt;
    var t' := Storage.WriteFile(t, u.path, u.offset, u.data).value;
    UploadShape(t, u);
    forall i | 0 <= i < |u.data| ensures HadByte(h + [Snapshot(now, t')], u.path, now, u.offset + i, u.data[i]) {
      HasByteNow(h, Snapshot(now, t'), u.path, now, u.offset + i, u.data[i]);
    }
  }

  lemma UploadOneKnown(cfg: FsConfig, delay: nat, h: History, log: seq<Staleness.Event>, clock: int, s: FsState,
                       u: Upload, c: Choice)
    returns (log': seq<Staleness.Event>)
    requires Known(cfg, delay, h, log, clock, s) && clock <= c.now
             && OrderOk(ChunkItem(cfg, u.path, u.offset, u.data), c)
    ensures var s' := UploadOne(cfg, s, u, c).0;
            Known(cfg, delay, h + [Snapshot(c.now, s'.tree)], log', c.now, s')
  {
    hide CacheKnown, WindowKnown, HadByte, OrderOk, ChunkItem, CacheWrite;
    var s' := UploadOne(cfg, s, u, c).0;
    var h' := h + [Snapshot(c.now, s'.tree)];
    KnownMore(cfg, delay, h, [Snapshot(c.now, s'.tree)], log, clock, s);
    log' := log;
    CacheKnownLater(cfg, delay, h', log, clock, c.now, s.cache);
    if Storage.WriteFile(s.tree, u.path, u.offset, u.data).Ok? {
      UploadBytes(h, s.tree, u, c.now);
      forall i | 0 <= i < |u.data| ensures HadByte(h', u.path, c.now - cfg.windowTtl - delay, u.offset + i, u.data[i]) {
        HadByteSince(h', u.path, c.now, c.now - cfg.windowTtl - delay, u.offset + i, u.data[i]);
      }
      log' := CacheWriteKnown(cfg, delay, h', log, clock, s.cache, u.path, u.offset, u.data, true, c);
    }
  }

  lemma {:induction false} UploadAllKnown(cfg: FsConfig, delay: nat, h: History, log: seq<Staleness.Event>, clock: int,
                                          s: FsState, uploads: seq<Upload>, cs: seq<Choice>)
    returns (log': seq<Staleness.Event>)
    requires |cs| == |uploads| && Known(cfg, delay, h, log, clock, s)
    requires UploadTimes(clock, cs) && UploadOrdersOk(cfg, uploads, cs)
    ensures Known(cfg, delay, h + UploadSnapshots(cfg, s, uploads, cs), log', UploadEnd(clock, cs),
                  UploadAll(cfg, s, uploads, cs).0)
    decreases |uploads|
  {
    hide CacheKnown, WindowKnown, OrderOk, ChunkItem, UploadOne, UploadTimes, UploadEnd;
    log' := log;
    if uploads == [] {
      assert h + UploadSnapshots(cfg, s, uploads, cs) == h;
      NoTimes(clock);
    } else {
      TimesOfRest(clock, cs);
      log' := UploadOneKnown(cfg, delay, h, log, clock, s, uploads[0], cs[0]);
      var (s1, r) := UploadOne(cfg, s, uploads[0], cs[0]);
      var x := Snapshot(cs[0].now, s1.tree);
      if r.Err? {
        assert h + UploadSnapshots(cfg, s, uploads, cs) == h + [x];
        CacheKnownLater(cfg, delay, h + [x], log', cs[0].now, UploadEnd(clock, cs), s1.cache);
      } else {
        log' := UploadAllKnown(cfg, delay, h + [x], log', cs[0].now, s1, uploads[1..], cs[1..]);
        assert h + UploadSnapshots(cfg, s, uploads, cs) == h + [x] + UploadSnapshots(cfg, s1, uploads[1..], cs[1..]);
      }
    }
  }

  // ---- listings ----

  lemma {:induction false} LookupKnown(cfg: FsConfig, delay: nat, h: History, log: seq<Staleness.Event>, clock: int,
                                       m: Entries, dir: Path, names: seq<Name>, nows: seq<nat>)
    requires |nows| == |names| && CacheKnown(cfg, delay, h, log, clock, m) && Rising(clock, nows)
    ensures CacheKnown(cfg, delay, h, log, LastTime(clock, nows), LookupChildren(cfg, m, dir, names, nows).0)
    decreases |names|
  {
    hide CacheKnown, CacheGet, Rising, LastTime;
    if names == [] {
      NoRising(clock);
    } else {
      RisingRest(clock, nows);
      GetKnown(cfg, delay, h, log, clock, m, dir + [names[0]], nows[0]);
      var (m1, hit) := CacheGet(cfg, m, dir + [names[0]], nows[0]);
      if ItemAttributes(hit).None? {
        CacheKnownLater(cfg, delay, h, log, nows[0], LastTime(clock, nows), m1);
      } else {
        LookupKnown(cfg, delay, h, log, nows[0], m1, dir, names[1..], nows[1..]);
      }
    }
  }

  lemma {:induction false} PutChildrenKnown(cfg: FsConfig, delay: nat, h: History, log: seq<Staleness.Event>,
                                            clock: int, m: Entries, dir: Path, items: seq<ListItem>, cs: seq<Choice>)
    returns (log': seq<Staleness.Event>)
    requires |cs| == |items| && CacheKnown(cfg, delay, h, log, clock, m) && PutTimes(clock, cs)
    ensures CacheKnown(cfg, delay, h, log', UploadEnd(clock, cs), PutChildren(cfg, m, dir, items, cs))
    decreases |items|
  {
    hide CacheKnown, CachePut, UploadTimes, UploadEnd;
    log' := log;
    if items == [] {
      NoTimes(clock);
    } else {
      TimesOfRest(clock, cs);
      var item := AttrItem(items[0].name, items[0].attributes);
      assert cs[0] in cs && forall c :: c in cs[1..] ==> c in cs;
      log' := PutBlankKnown(cfg, delay, h, log, clock, m, dir + [items[0].name], item, cs[0]);
      log' := PutChildrenKnown(cfg, delay, h, log', cs[0].now,
                               CachePut(cfg, m, dir + [items[0].name], item, false, cs[0]), dir, items[1..], cs[1..]);
    }
  }

  lemma WithDotsKnown(cfg: FsConfig, delay: nat, h: History, log: seq<Staleness.Event>, clock: int, s: FsState,
                      path: Path, items: seq<ListItem>, self: AttrChoice, up: AttrChoice)
    returns (log': seq<Staleness.Event>)
    requires Known(cfg, delay, h, log, clock, s) && DotsOk(clock, self, up)
    ensures Known(cfg, delay, h, log', up.put.now, WithDots(cfg, s, path, items, self, up).0)
  {
    hide CacheKnown, WindowKnown, GetAttributes;
    log' := GetAttributesKnown(cfg, delay, h, log, clock, s, path, self);
    var (s1, dot) := GetAttributes(cfg, s, path, self);
    if dot.Err? {
      CacheKnownLater(cfg, delay, h, log', self.put.now, up.put.now, s1.cache);
    } else {
      log' := GetAttributesKnown(cfg, delay, h, log', self.put.now, s1, ParentOrRoot(path), up);
    }
  }

  lemma ReaddirMissKnown(cfg: FsConfig, delay: nat, h: History, log: seq<Staleness.Event>, clock: int, s: FsState,
                         path: Path, c: ReaddirChoice)
    returns (log': seq<Staleness.Event>)
    requires |c.puts| == |c.listing| && Known(cfg, delay, h, log, clock, s) && ListTimes(clock, c)
    ensures Known(cfg, delay, h, log', c.dotdot.put.now, ReaddirMiss(cfg, s, path, c).0)
  {
    hide CacheKnown, WindowKnown, GetAttributes, CachePut, PutChildren, WithDots;
    log' := log;
    CacheKnownLater(cfg, delay, h, log, clock, c.dotdot.put.now, s.cache);
    if path in s.tree && s.tree[path].Dir? {
      log' := GetAttributesKnown(cfg, delay, h, log, clock, s, path, c.self);
      var (s1, attr) := GetAttributes(cfg, s, path, c.self);
      CacheKnownLater(cfg, delay, h, log', c.self.put.now, c.dotdot.put.now, s1.cache);
      if attr.Ok? {
        var dir := DirectoryItem(LastName(path), Some(attr.value), Some(c.listing));
        log' := PutBlankKnown(cfg, delay, h, log', c.self.put.now, s1.cache, path, dir, c.put);
        var m1 := CachePut(cfg, s1.cache, path, dir, false, c.put);
        var items := ServerItems(s.tree, path, c.listing);
        log' := PutChildrenKnown(cfg, delay, h, log', c.put.now, m1, path, items, c.puts);
        log' := WithDotsKnown(cfg, delay, h, log', UploadEnd(c.put.now, c.puts),
                              s1.(cache := PutChildren(cfg, m1, path, items, c.puts)), path, items, c.dot, c.dotdot);
      }
    }
  }

  lemma ReaddirKnown(cfg: FsConfig, delay: nat, h: History, log: seq<Staleness.Event>, clock: int, s: FsState,
                     path: Path, c: ReaddirChoice)
    returns (log': seq<Staleness.Event>)
    requires |c.puts| == |c.listing| && Known(cfg, delay, h, log, clock, s) && ReaddirTimes(clock, c)
    ensures Known(cfg, delay, h, log', c.dotdot.put.now, Readdir(cfg, s, path, c).0)
  {
    hide CacheKnown, WindowKnown, CacheGet, LookupChildren, WithDots, ReaddirMiss;
    GetKnown(cfg, delay, h, log, clock, s.cache, path, c.get);
    var (m, hit) := CacheGet(cfg, s.cache, path, c.get);
    CacheKnownLater(cfg, delay, h, log, c.get, LastTime(c.get, c.children), m);
    if hit.Some? && hit.value.DirectoryItem? && hit.value.children.Some? && |c.children| == |hit.value.children.value| {
      LookupKnown(cfg, delay, h, log, c.get, m, path, hit.value.children.value, c.children);
    }
    var (m1, items) := CachedListing(cfg, m, path, hit, c.children);
    if items.Some? {
      CacheKnownLater(cfg, delay, h, log, LastTime(c.get, c.children), UploadEnd(c.put.now, c.puts), m1);
      log' := WithDotsKnown(cfg, delay, h, log, UploadEnd(c.put.now, c.puts), s.(cache := m1), path, items.value, c.dot,
                            c.dotdot);
    } else {
      log' := ReaddirMissKnown(cfg, delay, h, log, LastTime(c.get, c.children), s.(cache := m1), path, c);
    }
  }

  // ---- whole runs ----

  lemma BlankStepKnown(cfg: FsConfig, delay: nat, h: History, log: seq<Staleness.Event>, clock: int, s: FsState, op: Op)
    returns (log': seq<Staleness.Event>)
    requires op.CreateOp? || op.MkdirOp? || op.SymlinkOp? || op.SetSizeOp? || op.RemoveOp? || op.DropOp? || op.ServerOp?
    requires Known(cfg, delay, h, log, clock, s) && OpOk(cfg, delay, clock, s, op)
    ensures Known(cfg, delay, h + Seen(cfg, s, op), log', End(cfg, clock, s, op), Step(cfg, s, op))
  {
    hide CacheKnown, WindowKnown, CachePutNew, CachePut, Ancestors, Seen;
    log' := BlankStepAlone(cfg, delay, h, log, clock, s, op);
    KnownMore(cfg, delay, h, Seen(cfg, s, op), log', End(cfg, clock, s, op), Step(cfg, s, op));
  }

  lemma BlankStepAlone(cfg: FsConfig, delay: nat, h: History, log: seq<Staleness.Event>, clock: int, s: FsState, op: Op)
    returns (log': seq<Staleness.Event>)
    requires op.CreateOp? || op.MkdirOp? || op.SymlinkOp? || op.SetSizeOp? || op.RemoveOp? || op.DropOp? || op.ServerOp?
    requires Known(cfg, delay, h, log, clock, s) && OpOk(cfg, delay, clock, s, op)
    ensures Known(cfg, delay, h, log', End(cfg, clock, s, op), Step(cfg, s, op))
  {
    hide CacheKnown, WindowKnown, CachePutNew, CachePut, Ancestors, ListingChosen;
    log' := log;
    CacheKnownLater(cfg, delay, h, log, clock, End(cfg, clock, s, op), s.cache);
    match op
    case CreateOp(path, offset, data, c) =>
      if Storage.WriteFile(s.tree, path, offset, data).Ok? {
        var a := Storage.AttrOf(Storage.WriteFile(s.tree, path, offset, data).value[path]);
        log' := PutNewKnown(cfg, delay, h, log, clock, s.cache, path, FileItem(LastName(path), Some(a), map[]), c);
      }
    case MkdirOp(path, c) =>
      var a := Storage.AttrOf(Storage.Dir);
      if Storage.MakeDir(s.tree, path).Ok? {
        log' := PutNewKnown(cfg, delay, h, log, clock, s.cache, path, DirectoryItem(LastName(path), Some(a), Some([])),
                            c);
      }
    case SymlinkOp(path, target, c) =>
      var a := Storage.AttrOf(Storage.Link(target));
      if Storage.MakeLink(s.tree, path, target).Ok? {
        log' := PutNewKnown(cfg, delay, h, log, clock, s.cache, path,
                            SymlinkItem(LastName(path), Some(a), Some(target)), c);
      }
    case SetSizeOp(path, size, c) =>
      if Storage.SetSize(s.tree, path, size).Ok? && path != [] {
        var a := Storage.AttrOf(Storage.SetSize(s.tree, path, size).value[path]);
        log' := PutBlankKnown(cfg, delay, h, log, clock, s.cache, path, AttrItem(LastName(path), a), c);
      }
    case RemoveOp(path) =>
      DropKnown(cfg, delay, h, log, clock, s.cache, {path});
      DropKnown(cfg, delay, h, log, clock, s.cache - {path}, Ancestors(path));
    case DropOp(keys) => DropKnown(cfg, delay, h, log, clock, s.cache, keys);
    case _ =>
  }

  lemma ByteStepKnown(cfg: FsConfig, delay: nat, h: History, log: seq<Staleness.Event>, clock: int, s: FsState, op: Op)
    returns (log': seq<Staleness.Event>)
    requires op.ReadOp? || op.AttrOp? || op.WriteOp? || op.FlushOp? || op.ReaddirOp?
    requires Known(cfg, delay, h, log, clock, s) && OpOk(cfg, delay, clock, s, op)
    ensures Known(cfg, delay, h + Seen(cfg, s, op), log', End(cfg, clock, s, op), Step(cfg, s, op))
  {
    hide CacheKnown, WindowKnown, ReadFile, GetAttributes, WriteSection, UploadAll, UploadSnapshots, UploadOne, Readdir,
      OrderOk, ChunkItem, Recent, ReadTimes, Brought, ReaddirTimes, UploadOrdersOk, ListingChosen;
    log' := log;
    assert h + [] == h;
    match op
    case ReadOp(path, offset, size, c) => log' := ReadFileKnown(cfg, delay, h, log, clock, s, path, offset, size, c);
    case AttrOp(path, c) =>
      log' := GetAttributesKnown(cfg, delay, h, log, clock, s, path, c);
      KnownMore(cfg, delay, h, Seen(cfg, s, op), log', c.put.now, GetAttributes(cfg, s, path, c).0);
    case WriteOp(path, offset, data, c) =>
      if |s.pending.data| <= cfg.capacity {
        CallLoops.AtMostTwo(cfg.capacity, s.pending, path, offset, data);
        var (b, uploads, _) := WriteSection(cfg.capacity, s.pending, path, offset, data);
        log' := UploadAllKnown(cfg, delay, h, log, clock, s.(pending := b), uploads, ChoicesFor(|uploads|, c));
      }
    case FlushOp(c) =>
      CacheKnownLater(cfg, delay, h, log, clock, c.now, s.cache);
      if s.pending.data != [] {
        log' := UploadOneKnown(cfg, delay, h, log, clock, s.(pending := CLEAN), UploadOf(s.pending), c);
      }
    case ReaddirOp(path, c) =>
      if |c.puts| == |c.listing| {
        log' := ReaddirKnown(cfg, delay, h, log, clock, s, path, c);
        KnownMore(cfg, delay, h, Seen(cfg, s, op), log', c.dotdot.put.now, Readdir(cfg, s, path, c).0);
      }
  }

  lemma StepKnown(cfg: FsConfig, delay: nat, h: History, log: seq<Staleness.Event>, clock: int, s: FsState, op: Op)
    returns (log': seq<Staleness.Event>)
    requires Known(cfg, delay, h, log, clock, s) && OpOk(cfg, delay, clock, s, op)
    ensures Known(cfg, delay, h + Seen(cfg, s, op), log', End(cfg, clock, s, op), Step(cfg, s, op))
  {
    hide Known, OpOk, Step, End;
    if op.ReadOp? || op.AttrOp? || op.WriteOp? || op.FlushOp? || op.ReaddirOp? {
      log' := ByteStepKnown(cfg, delay, h, log, clock, s, op);
    } else {
      log' := BlankStepKnown(cfg, delay, h, log, clock, s, op);
    }
  }

  lemma {:induction false} RunKnown(cfg: FsConfig, delay: nat, h: History, log: seq<Staleness.Event>, clock: int,
                                    s: FsState, ops: seq<Op>)
    returns (log': seq<Staleness.Event>)
    requires Known(cfg, delay, h, log, clock, s) && RunOk(cfg, delay, clock, s, ops)
    ensures Known(cfg, delay, h + RunSeen(cfg, s, ops), log', RunEnd(cfg, clock, s, ops), Run(cfg, s, ops))
    decreases |ops|
  {
    hide Known, OpOk, Step, End, Seen;
    log' := log;
    if ops == [] {
      assert h + [] == h;
    } else {
      log' := StepKnown(cfg, delay, h, log, clock, s, ops[0]);
      var s1 := Step(cfg, s, ops[0]);
      log' := RunKnown(cfg, delay, h + Seen(cfg, s, ops[0]), log', End(cfg, clock, s, ops[0]), s1, ops[1..]);
      assert h + RunSeen(cfg, s, ops) == h + Seen(cfg, s, ops[0]) + RunSeen(cfg, s1, ops[1..]);
    }
  }

  lemma StartKnown(cfg: FsConfig, delay: nat, t: Tree)
    ensures Known(cfg, delay, [], [], -1, Start(t))
  {
  }

  /** For every run of a client's calls, with any evictions and expiries and any changes of the
      server by others in between: every byte that a read then returns was on the server, at its
      position of its file, at most the two times to live and the duration of a call before the
      read's lookup, or is a zero in a page between two positions that the file had then. */
  lemma ReadsAreRecent(cfg: FsConfig, delay: nat, t: Tree, ops: seq<Op>, path: Path, offset: nat, size: nat,
                       c: ReadChoice, i: nat)
    requires cfg.cache.useTtl && RunOk(cfg, delay, -1, Start(t), ops)
    requires ReadOk(cfg, delay, RunEnd(cfg, -1, Start(t), ops), Run(cfg, Start(t), ops), path, offset, size, c)
    ensures var s := Run(cfg, Start(t), ops);
            var h := RunSeen(cfg, Start(t), ops) + [Snapshot(c.miss.put.now, s.tree)];
            var r := ReadFile(cfg, s, path, offset, size, c).1;
            r.Ok? && i < |r.value| ==>
              Recent(h, path, c.get - cfg.cache.ttl - cfg.windowTtl - delay, cfg.cache.limits.pageSize, offset + i,
                     r.value[i])
  {
    hide Known, RunOk, ReadOk, Run, RunSeen, RunEnd, ReadFile, Recent;
    StartKnown(cfg, delay, t);
    var log := RunKnown(cfg, delay, [], [], -1, Start(t), ops);
    var h := RunSeen(cfg, Start(t), ops);
    assert [] + h == h;
    var log' := ReadFileKnown(cfg, delay, h, log, RunEnd(cfg, -1, Start(t), ops), Run(cfg, Start(t), ops), path, offset,
                              size, c);
  }
}
