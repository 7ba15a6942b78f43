/** The client's file system as it runs: the shared buffers, the cache and the server, and
    the calls that change them step by step. */
module FileSystem {
  import opened Bytes
  import opened PagedFile
  import opened Cache
  import opened RwBuffer
  import opened FsModel
  import opened CacheRecord
  import opened CallLoops
  import CachedFile
  import Freshness
  import Runs
  import Staleness
  import Storage

  /** A clock that never runs backwards. */
  class Clock {
    var time: nat

    constructor ()
      ensures time == 0
    {
      time := 0;
    }

    method Now() returns (now: nat)
      modifies this
      ensures old(time) <= now == time
    {
      var reading :| reading >= time;
      time := reading;
      now := reading;
    }
  }

  class FileSystem {
    const cfg: FsConfig
    const remote: Storage.Storage
    const clock: Clock
    const readBuffer: ReadBuffer
    const writeBuffer: WriteBuffer
    const cache: Cache?
    ghost var run: seq<Call>

    ghost function Repr(): set<object> {
      {this, remote, clock, readBuffer, readBuffer.buffer, writeBuffer, writeBuffer.buffer} +
      if cache == null then {} else {cache}
    }

    ghost predicate BuffersOk()
      reads readBuffer, writeBuffer
    {
      && readBuffer.Valid() && readBuffer.capacity == cfg.capacity && readBuffer.ttl == cfg.windowTtl
      && writeBuffer.Valid() && writeBuffer.capacity == cfg.capacity
      && readBuffer.buffer != writeBuffer.buffer
    }

    ghost predicate CacheOk()
      reads this, clock, cache
    {
      && (cfg.cached <==> cache != null)
      && (cache != null ==> cache.cfg == cfg.cache)
      && FilesOk(cfg.cache.limits, Cached())
      && Recorded(cfg.cache, Cached(), run, clock.time)
    }

    ghost predicate Valid()
      reads Repr()
    {
      BuffersOk() && CacheOk()
    }

    ghost function Cached(): Entries
      reads cache
    {
      if cache == null then map[] else cache.entries
    }

    ghost function State(): FsState
      reads Repr()
      requires Valid()
    {
      FsState(remote.tree, Cached(), readBuffer.Window(), writeBuffer.Contents())
    }

    constructor (cfg: FsConfig, remote: Storage.Storage)
      ensures Valid() && fresh(Repr() - {remote}) && this.cfg == cfg && this.remote == remote
      ensures State() == FsState(remote.tree, map[], ReadWindow(None, 0, [], 0), CLEAN)
    {
      var clk := new Clock();
      var rb := new ReadBuffer(cfg.capacity, cfg.windowTtl, 0);
      var wb := new WriteBuffer(cfg.capacity);
      var ch: Cache? := null;
      if cfg.cached {
        ch := new Cache(cfg.cache);
      }
      this.cfg, this.remote, clock, readBuffer, writeBuffer, cache, run := cfg, remote, clk, rb, wb, ch, [];
    }

    // ---- the cache, if there is one ----

    /** A lookup. Whatever it gives was stored under the path at most a time to live ago. */
    method CacheGet(path: Path) returns (hit: Option<CacheItem>, ghost now: nat)
      requires CacheOk()
      modifies this, clock, cache
      ensures old(clock.time) <= now == clock.time
      ensures CacheOk() && (Cached(), hit) == FsModel.CacheGet(cfg, old(Cached()), path, now)
      ensures hit.Some? ==> ItemOk(cfg.cache.limits, hit.value)
      ensures hit.Some? && cfg.cache.useTtl ==>
                Staleness.Sourced(Staleness.Log(old(run)), path, now - cfg.cache.ttl, cfg.cache.limits.pageSize,
                                  hit.value)
    {
      hide Staleness.Sourced, Recorded, FilesOk, ItemOk;
      hit, now := None, clock.time;
      if cache != null {
        var t := clock.Now();
        now := t;
        GetKeepsOk(cfg.cache, cache.entries, path, now);
        RecordedGet(cfg.cache, cache.entries, run, old(clock.time), path, now);
        hit := cache.Lookup(path, t);
        run := run + [Look(path, t)];
      }
    }

    method CachePut(path: Path, item: CacheItem, invalidate: bool) returns (ghost c: Choice)
      requires CacheOk() && ItemOk(cfg.cache.limits, item)
      modifies this, clock, cache
      ensures CacheOk() && Cached() == FsModel.CachePut(cfg, old(Cached()), path, item, invalidate, c)
      ensures old(clock.time) <= c.now == clock.time && OrderOk(item, c) && (item.FileItem? || c.order == [])
    {
      hide Recorded, FilesOk, ItemOk, Put, OrderOk, VictimOk;
      c := SomeChoice(item, clock.time);
      if cache != null {
        var now := clock.Now();
        c := cache.Store(path, item, invalidate, now);
        PutKeepsOk(cfg.cache, old(cache.entries), path, item, invalidate, c);
        RecordedPut(cfg.cache, old(cache.entries), run, old(clock.time), path, item, invalidate, c);
        run := run + [Keep(path, item, invalidate, c)];
      }
    }

    method CachePutNew(path: Path, item: CacheItem) returns (ghost c: Choice)
      requires CacheOk() && ItemOk(cfg.cache.limits, item)
      modifies this, clock, cache
      ensures old(clock.time) <= c.now == clock.time
      ensures CacheOk() && Cached() == FsModel.CachePutNew(cfg, old(Cached()), path, item, c)
    {
      hide Recorded, FilesOk, ItemOk, PutNew, VictimOk;
      c := Choice(clock.time, [], []);
      if cache != null && path != [] {
        var now := clock.Now();
        c := cache.StoreNew(path, item, now);
        PutNewKeepsOk(cfg.cache, old(cache.entries), path, item, c);
        RecordedPutNew(cfg.cache, old(cache.entries), run, old(clock.time), path, item, c);
        run := run + [KeepNew(path, item, c)];
      }
    }

    method CacheRemove(path: Path)
      requires CacheOk()
      modifies this, cache
      ensures CacheOk() && Cached() == FsModel.CacheRemove(cfg, old(Cached()), path)
    {
      hide Recorded, ItemOk, Ancestors;
      if cache != null {
        var removed := cache.Delete(path);
        RecordedRemove(cfg.cache, old(cache.entries), run, clock.time, path);
        run := run + [Drop({path} + Ancestors(path), clock.time)];
      }
    }

    /** Bytes of a file go into the cache as a file of their own. */
    method CacheWriteFile(path: Path, offset: nat, data: seq<byte>, invalidate: bool) returns (ghost c: Choice)
      requires CacheOk()
      modifies this, clock, cache
      ensures CacheOk() && Cached() == FsModel.CacheWrite(cfg, old(Cached()), path, offset, data, invalidate, c)
      ensures old(clock.time) <= c.now == clock.time && OrderOk(ChunkItem(cfg, path, offset, data), c)
    {
      hide Recorded, FilesOk, Put, OrderOk, PagedFile.WriteContent, FileOk;
      c := SomeChoice(ChunkItem(cfg, path, offset, data), clock.time);
      if cache != null && path != [] {
        var file := new CachedFile.File(cfg.cache.limits, None);
        file.WriteContent(offset, data);
        var pages := file.Value();
        c := CachePut(path, FileItem(LastName(path), None, pages), invalidate);
      }
    }

    method CachePutAttr(path: Path, attributes: Attributes) returns (ghost c: Choice)
      requires CacheOk()
      modifies this, clock, cache
      ensures old(clock.time) <= c.now == clock.time && c.order == []
      ensures CacheOk() && Cached() == FsModel.CacheAttr(cfg, old(Cached()), path, attributes, c)
    {
      hide Recorded, FilesOk, Put, OrderOk;
      c := Choice(clock.time, [], []);
      if cache != null && path != [] {
        c := CachePut(path, AttrItem(LastName(path), attributes), false);
        NoPagesNoOrder(AttrItem(LastName(path), attributes), c);
      }
    }

    // ---- the calls ----

    method GetAttributes(path: Path) returns (r: Result<Attributes>, ghost c: AttrChoice)
      requires Valid()
      modifies this, clock, cache
      ensures Runs.AttrOk(old(clock.time), c) && c.put.now == clock.time
      ensures Valid() && (State(), r) == FsModel.GetAttributes(cfg, old(State()), path, c)
      ensures Runs.Legal(cfg, old(clock.time), clock.time, old(State()), Runs.AttrOp(path, c))
    {
      hide CacheOk, FsModel.CacheGet, FsModel.CacheAttr, Staleness.Sourced;
      var hit, get := CacheGet(path);
      c := AttrChoice(get, Choice(get, [], []));
      if hit.Some? {
        if hit.value.attributes.Some? {
          return Ok(hit.value.attributes.value), c;
        }
      }
      r := remote.Attributes(path);
      if r.Err? {
        return;
      }
      ghost var put := CachePutAttr(path, r.value);
      c := c.(put := put);
    }

    /** The bytes that the cached pages have, if they have any. */
    method CachedRead(path: Path, offset: nat, size: nat) returns (data: seq<byte>, ghost now: nat)
      requires Valid()
      modifies this, clock, cache
      ensures Valid() && old(clock.time) <= now == clock.time
      ensures var (m, hit) := FsModel.CacheGet(cfg, old(State()).cache, path, now);
              State() == old(State()).(cache := m) && data == CachedBytes(cfg, hit, offset, size)
    {
      hide CacheOk, FsModel.CacheGet, Staleness.Sourced, FileOk, View, ReadRun;
      var hit, get := CacheGet(path);
      now := get;
      data := [];
      if hit.Some? {
        if hit.value.FileItem? {
          var file := new CachedFile.File.Copy(cfg.cache.limits, hit.value.attributes, hit.value.pages);
          data := file.Read(offset, size);
        }
      }
    }

    /** The cached pages answer first, then the read window, then the server. */
    method ReadFile(path: Path, offset: nat, size: nat) returns (r: Result<seq<byte>>, ghost c: ReadChoice)
      requires Valid()
      modifies this, clock, cache, readBuffer, readBuffer.buffer
      ensures Valid() && (State(), r) == FsModel.ReadFile(cfg, old(State()), path, offset, size, c)
      ensures Runs.Legal(cfg, old(clock.time), clock.time, old(State()), Runs.ReadOp(path, offset, size, c))
    {
      hide CacheOk, BuffersOk, FsModel.CacheGet, FsModel.GetAttributes, FsModel.ReadMiss, CachedBytes, OrderOk,
        Runs.Brought, ChunkItem;
      Freshness.AttributesKeepAll(cfg, State(), path);
      var attr, ac := GetAttributes(path);
      if attr.Ok? && offset >= attr.value.size {
        c := ReadChoice(ac, clock.time, NoMiss(cfg, old(State()), path, offset, size, clock.time));
        return Ok([]), c;
      }
      var data, get := CachedRead(path, offset, size);
      if data != [] {
        c := ReadChoice(ac, get, NoMiss(cfg, old(State()), path, offset, size, clock.time));
        Freshness.ReadMissHit(cfg, State(), path, offset, size, data, c.miss);
        return Ok(data), c;
      }
      ghost var s := State();
      Freshness.BroughtSame(cfg, old(State()), s, path, offset, size);
      ghost var miss;
      r, miss := ReadMiss(path, offset, size);
      c := ReadChoice(ac, get, miss);
    }

    /** The choices of a read that is answered before it misses. */
    ghost function NoMiss(cfg: FsConfig, s: FsState, path: Path, offset: nat, size: nat, now: nat): (c: MissChoice)
      ensures c == MissChoice(now, now, c.put) && c.put.now == now
      ensures OrderOk(ChunkItem(cfg, path, offset, Runs.Brought(cfg, s, path, offset, size, now)), c.put)
    {
      MissChoice(now, now, SomeChoice(ChunkItem(cfg, path, offset, Runs.Brought(cfg, s, path, offset, size, now)), now))
    }

    method ReadMiss(path: Path, offset: nat, size: nat) returns (r: Result<seq<byte>>, ghost c: MissChoice)
      requires Valid()
      modifies this, clock, cache, readBuffer, readBuffer.buffer
      ensures Valid() && (State(), r) == FsModel.ReadMiss(cfg, old(State()), path, offset, size, [], c)
      ensures old(clock.time) <= clock.time
      ensures Runs.MissTimes(clock.time - old(clock.time), old(clock.time), c) && c.put.now == clock.time
      ensures OrderOk(ChunkItem(cfg, path, offset, Runs.Brought(cfg, old(State()), path, offset, size, c.window)),
                      c.put)
    {
      hide CacheOk, FsModel.CacheWrite, WindowRead, WindowFill, OrderOk, ChunkItem;
      var now := WindowClock();
      c := NoMiss(cfg, State(), path, offset, size, now);
      var ahead := readBuffer.Read(path, offset, size, now);
      if ahead != [] {
        ghost var put := CacheWriteFile(path, offset, ahead, false);
        return Ok(ahead), c.(put := put);
      }
      r := remote.Read(path, offset, readBuffer.capacity);
      if r.Err? {
        return;
      }
      var data := r.value;
      now := WindowClock();
      c := c.(fill := now);
      readBuffer.Fill(path, offset, data, now);
      ghost var put := CacheWriteFile(path, offset, data, false);
      c := c.(put := put);
      r := Ok(data[..Min(|data|, size)]);
    }

    method WindowClock() returns (now: nat)
      requires CacheOk()
      modifies clock
      ensures CacheOk() && old(clock.time) <= now == clock.time
    {
      hide Recorded, FilesOk;
      now := clock.Now();
      RecordedLater(cfg.cache, Cached(), run, old(clock.time), now);
    }

    /** The locked section of a write: what has to be uploaded leaves the buffer. */
    method WriteSection(path: Path, offset: nat, data: seq<byte>) returns (uploads: seq<Upload>, written: nat)
      requires writeBuffer.Valid()
      modifies writeBuffer, writeBuffer.buffer
      ensures writeBuffer.Valid()
      ensures (writeBuffer.Contents(), uploads, written)
           == FsModel.WriteSection(writeBuffer.capacity, old(writeBuffer.Contents()), path, offset, data)
    {
      uploads := [];
      var appending := writeBuffer.Appending(path, offset);
      if !appending {
        var content := writeBuffer.GetContent();
        if content.data != [] {
          uploads := uploads + [UploadOf(content)];
          assert uploads == [UploadOf(content)];
        }
        writeBuffer.Clean();
      }
      written := writeBuffer.Write(path, offset, data);
      var full := writeBuffer.IsFull();
      if full {
        var content := writeBuffer.GetContent();
        uploads := uploads + [UploadOf(content)];
        writeBuffer.Clean();
      }
    }

    method UploadOne(u: Upload) returns (r: Result<()>, ghost c: Choice)
      requires Valid()
      modifies this, clock, cache, remote
      ensures Valid() && (State(), r) == FsModel.UploadOne(cfg, old(State()), u, c)
      ensures old(clock.time) <= c.now == clock.time && OrderOk(ChunkItem(cfg, u.path, u.offset, u.data), c)
    {
      hide CacheOk, FsModel.CacheWrite, OrderOk, ChunkItem;
      c := SomeChoice(ChunkItem(cfg, u.path, u.offset, u.data), clock.time);
      var sent := remote.Write(u.path, u.offset, u.data);
      if sent.Err? {
        return Err(sent.error), c;
      }
      c := CacheWriteFile(u.path, u.offset, u.data, true);
      r := Ok(());
    }

    /** The uploads one after the other, outside the lock; the first that fails ends it. */
    method UploadAll(uploads: seq<Upload>) returns (r: Result<()>, ghost cs: seq<Choice>)
      requires Valid()
      modifies this, clock, cache, remote
      ensures |cs| == |uploads| && UploadOrdersOk(cfg, uploads, cs)
      ensures old(clock.time) <= clock.time
      ensures Runs.UploadTimes(old(clock.time), cs) && Runs.UploadEnd(old(clock.time), cs) <= clock.time
      ensures Valid() && (State(), r) == FsModel.UploadAll(cfg, old(State()), uploads, cs)
    {
      hide CacheOk, BuffersOk, FsModel.UploadOne, FsModel.UploadAll, UploadOrdersOk, OrderOk, ChunkItem, Stamped,
        Runs.UploadTimes, Runs.UploadEnd;
      var i := 0;
      cs := SomeChoices(cfg, uploads, clock.time);
      ghost var s, start := State(), clock.time;
      NoUploadYet(cfg, s, uploads, cs);
      Runs.NoTimes(start);
      while i < |uploads|
        invariant 0 <= i <= |uploads| == |cs| && UploadOrdersOk(cfg, uploads, cs)
        invariant start <= clock.time
        invariant Runs.UploadTimes(start, cs[..i]) && Runs.UploadEnd(start, cs[..i]) <= clock.time
        invariant Valid() && FsModel.UploadAll(cfg, s, uploads[..i], cs[..i]) == (State(), Ok(()))
      {
        ghost var c;
        ghost var before := State();
        r, c := UploadOne(uploads[i]);
        StampedTimes(cfg, uploads, cs, i, c, start);
        StampedOrders(cfg, uploads, cs, i, c);
        StampedUpload(cfg, s, uploads, cs, i, before, c);
        cs := Stamped(cfg, uploads, cs, i, c);
        if r.Err? {
          return;
        }
        i := i + 1;
      }
      assert uploads[..i] == uploads && cs[..i] == cs;
      r := Ok(());
    }

    /** The choice of the upload at index `i`, and the choices behind it, stamped with its time. */
    ghost function Stamped(cfg: FsConfig, uploads: seq<Upload>, cs: seq<Choice>, i: nat, c: Choice): seq<Choice>
      requires i < |uploads| == |cs|
    {
      cs[..i] + [c] + SomeChoices(cfg, uploads[i + 1..], c.now)
    }

    lemma StampedTimes(cfg: FsConfig, uploads: seq<Upload>, cs: seq<Choice>, i: nat, c: Choice, start: nat)
      requires i < |uploads| == |cs| && start <= c.now
      requires Runs.UploadTimes(start, cs[..i]) && Runs.UploadEnd(start, cs[..i]) <= c.now
      ensures var stamped := Stamped(cfg, uploads, cs, i, c);
              && Runs.UploadTimes(start, stamped[..i + 1]) && Runs.UploadEnd(start, stamped[..i + 1]) == c.now
              && Runs.UploadTimes(start, stamped) && Runs.UploadEnd(start, stamped) == c.now
    {
      hide Runs.UploadTimes, Runs.UploadEnd;
      Runs.TimesNext(start, cs[..i], c, SomeChoices(cfg, uploads[i + 1..], c.now));
      assert Stamped(cfg, uploads, cs, i, c)[..i + 1] == cs[..i] + [c];
    }

    lemma StampedOrders(cfg: FsConfig, uploads: seq<Upload>, cs: seq<Choice>, i: nat, c: Choice)
      requires i < |uploads| == |cs| && UploadOrdersOk(cfg, uploads, cs)
      requires OrderOk(ChunkItem(cfg, uploads[i].path, uploads[i].offset, uploads[i].data), c)
      ensures |Stamped(cfg, uploads, cs, i, c)| == |cs| && UploadOrdersOk(cfg, uploads, Stamped(cfg, uploads, cs, i, c))
    {
      hide OrderOk, ChunkItem;
      var stamped, rest := Stamped(cfg, uploads, cs, i, c), SomeChoices(cfg, uploads[i + 1..], c.now);
      forall j | 0 <= j < |uploads|
        ensures OrderOk(ChunkItem(cfg, uploads[j].path, uploads[j].offset, uploads[j].data), stamped[j])
      {
        if j < i {
          assert stamped[j] == cs[j];
        } else if j > i {
          assert stamped[j] == rest[j - (i + 1)] && uploads[j] == uploads[i + 1..][j - (i + 1)];
        }
      }
    }

    lemma StampedUpload(cfg: FsConfig, s: FsState, uploads: seq<Upload>, cs: seq<Choice>, i: nat, s1: FsState,
                        c: Choice)
      requires i < |uploads| == |cs| && FsModel.UploadAll(cfg, s, uploads[..i], cs[..i]) == (s1, Ok(()))
      ensures var stamped := Stamped(cfg, uploads, cs, i, c);
              var (s2, r) := FsModel.UploadOne(cfg, s1, uploads[i], c);
              && |stamped| == |cs|
              && FsModel.UploadAll(cfg, s, uploads[..i + 1], stamped[..i + 1]) == (s2, r)
              && (if r.Err? then FsModel.UploadAll(cfg, s, uploads, stamped) == (s2, r) else r == Ok(()))
    {
      hide FsModel.UploadOne, FsModel.UploadAll;
      var stamped := Stamped(cfg, uploads, cs, i, c);
      assert stamped[..i] == cs[..i] && stamped[i := c] == stamped;
      UploadNext(cfg, s, uploads, stamped, i, s1, c);
    }

    method WriteFile(path: Path, offset: nat, data: seq<byte>) returns (r: Result<nat>, ghost c: WriteChoice)
      requires Valid()
      modifies this, clock, cache, remote, writeBuffer, writeBuffer.buffer
      ensures Valid() && (State(), r) == FsModel.WriteFile(cfg, old(State()), path, offset, data, c)
      ensures Runs.Legal(cfg, old(clock.time), clock.time, old(State()), Runs.WriteOp(path, offset, data, c))
    {
      hide CacheOk, FsModel.WriteSection, FsModel.UploadAll, UploadOrdersOk, Runs.UploadTimes, Runs.UploadEnd;
      var uploads, written := WriteSection(path, offset, data);
      AtMostTwo(cfg.capacity, old(State()).pending, path, offset, data);
      ghost var cs;
      var done;
      done, cs := UploadAll(uploads);
      c := WriteChoice(if |cs| > 0 then cs[0] else Choice(0, [], []), if |cs| > 1 then cs[1] else Choice(0, [], []));
      assert ChoicesFor(|uploads|, c) == cs;
      r := if done.Ok? then Ok(written) else Err(done.error);
    }

    method FlushWriteBuffer() returns (r: Result<()>, ghost c: Choice)
      requires Valid()
      modifies this, clock, cache, remote, writeBuffer
      ensures Valid() && (State(), r) == FsModel.Flush(cfg, old(State()), c)
      ensures Runs.Legal(cfg, old(clock.time), clock.time, old(State()), Runs.FlushOp(c))
    {
      hide CacheOk, FsModel.UploadOne, OrderOk, ChunkItem;
      var content := writeBuffer.GetContent();
      var u := UploadOf(content);
      if content.data == [] {
        return Ok(()), SomeChoice(ChunkItem(cfg, u.path, u.offset, u.data), clock.time);
      }
      writeBuffer.Clean();
      r, c := UploadOne(u);
    }

    method SetSize(path: Path, size: nat) returns (r: Result<Attributes>, ghost c: Choice)
      requires Valid()
      modifies this, clock, cache, remote
      ensures Valid() && (State(), r) == FsModel.SetSize(cfg, old(State()), path, size, c)
      ensures Runs.Legal(cfg, old(clock.time), clock.time, old(State()), Runs.SetSizeOp(path, size, c))
    {
      hide CacheOk, FsModel.CacheAttr;
      c := Choice(clock.time, [], []);
      r := remote.Resize(path, size);
      if r.Err? {
        return;
      }
      c := CachePutAttr(path, r.value);
    }

    method CreateFile(path: Path, offset: nat, data: seq<byte>) returns (r: Result<Attributes>, ghost c: Choice)
      requires Valid()
      modifies this, clock, cache, remote
      ensures Valid() && (State(), r) == FsModel.CreateFile(cfg, old(State()), path, offset, data, c)
      ensures Runs.Legal(cfg, old(clock.time), clock.time, old(State()), Runs.CreateOp(path, offset, data, c))
    {
      hide Recorded, FilesOk, FsModel.CachePutNew;
      c := Choice(clock.time, [], []);
      r := remote.Write(path, offset, data);
      if r.Err? {
        return;
      }
      c := CachePutNew(path, FileItem(LastName(path), Some(r.value), map[]));
    }

    method Mkdir(path: Path) returns (r: Result<Attributes>, ghost c: Choice)
      requires Valid()
      modifies this, clock, cache, remote
      ensures Valid() && (State(), r) == FsModel.Mkdir(cfg, old(State()), path, c)
      ensures Runs.Legal(cfg, old(clock.time), clock.time, old(State()), Runs.MkdirOp(path, c))
    {
      hide CacheOk, FsModel.CachePutNew;
      c := Choice(clock.time, [], []);
      r := remote.Mkdir(path);
      if r.Err? {
        return;
      }
      c := CachePutNew(path, DirectoryItem(LastName(path), Some(r.value), Some([])));
    }

    method CreateSymlink(path: Path, target: string) returns (r: Result<Attributes>, ghost c: Choice)
      requires Valid()
      modifies this, clock, cache, remote
      ensures Valid() && (State(), r) == FsModel.CreateSymlink(cfg, old(State()), path, target, c)
      ensures Runs.Legal(cfg, old(clock.time), clock.time, old(State()), Runs.SymlinkOp(path, target, c))
    {
      hide CacheOk, FsModel.CachePutNew;
      c := Choice(clock.time, [], []);
      r := remote.CreateSymlink(path, target);
      if r.Err? {
        return;
      }
      c := CachePutNew(path, SymlinkItem(LastName(path), Some(r.value), Some(target)));
    }

    method Remove(path: Path) returns (r: Result<()>)
      requires Valid()
      modifies this, cache, remote
      ensures Valid() && (State(), r) == FsModel.RemovePath(cfg, old(State()), path)
      ensures path != [] ==> Runs.Legal(cfg, old(clock.time), clock.time, old(State()), Runs.RemoveOp(path))
    {
      hide CacheOk, FsModel.CacheRemove;
      r := remote.Remove(path);
      if r.Ok? {
        CacheRemove(path);
      }
    }

    /** Looking up the children one by one; the first that is not known ends it. */
    method LookupChildren(dir: Path, names: seq<Name>) returns (items: Option<seq<ListItem>>, ghost nows: seq<nat>)
      requires CacheOk()
      modifies this, clock, cache
      ensures |nows| == |names|
      ensures old(clock.time) <= clock.time
      ensures Runs.Rising(old(clock.time), nows) && Runs.LastTime(old(clock.time), nows) <= clock.time
      ensures CacheOk() && (Cached(), items) == FsModel.LookupChildren(cfg, old(Cached()), dir, names, nows)
    {
      hide Recorded, FilesOk, FsModel.CacheGet, FsModel.LookupChildren, Staleness.Sourced, Runs.Rising, Runs.LastTime;
      var all, i := [], 0;
      nows := seq(|names|, _ => 0);
      ghost var m, start := Cached(), clock.time;
      NoChildYet(cfg, m, dir, names, nows);
      Runs.NoRising(start);
      while i < |names|
        invariant 0 <= i <= |names| == |nows|
        invariant start <= clock.time
        invariant Runs.Rising(start, nows[..i]) && Runs.LastTime(start, nows[..i]) <= clock.time
        invariant CacheOk() && FsModel.LookupChildren(cfg, m, dir, names[..i], nows[..i]) == (Cached(), Some(all))
      {
        ghost var before := Cached();
        var hit, now := CacheGet(dir + [names[i]]);
        Runs.RisingNext(start, nows[..i], now, |names| - i - 1);
        ghost var stamped := nows[..i] + [now] + seq(|names| - i - 1, _ => now);
        assert stamped[..i] == nows[..i] && stamped[i := now] == stamped && stamped[..i + 1] == nows[..i] + [now];
        nows := stamped;
        LookupNext(cfg, m, dir, names, nows, i, before, all, now);
        if hit.None? {
          return None, nows;
        }
        if hit.value.attributes.None? {
          return None, nows;
        }
        all := all + [ListItem(hit.value.name, KindOf(hit.value), hit.value.attributes.value)];
        i := i + 1;
      }
      assert names[..i] == names && nows[..i] == nows;
      items := Some(all);
    }

    method PutChildren(dir: Path, items: seq<ListItem>) returns (ghost cs: seq<Choice>)
      requires CacheOk()
      modifies this, clock, cache
      ensures |cs| == |items|
      ensures old(clock.time) <= clock.time
      ensures Runs.PutTimes(old(clock.time), cs) && Runs.UploadEnd(old(clock.time), cs) <= clock.time
      ensures CacheOk() && Cached() == FsModel.PutChildren(cfg, old(Cached()), dir, items, cs)
    {
      hide Recorded, FilesOk, FsModel.CachePut, FsModel.PutChildren, OrderOk, Runs.UploadTimes, Runs.UploadEnd;
      var i := 0;
      cs := seq(|items|, _ => Choice(0, [], []));
      ghost var m, start := Cached(), clock.time;
      NoPutYet(cfg, m, dir, items, cs);
      Runs.NoTimes(start);
      while i < |items|
        invariant 0 <= i <= |items| == |cs|
        invariant start <= clock.time
        invariant Runs.PutTimes(start, cs[..i]) && Runs.UploadEnd(start, cs[..i]) <= clock.time
        invariant CacheOk() && FsModel.PutChildren(cfg, m, dir, items[..i], cs[..i]) == Cached()
      {
        ghost var before := Cached();
        ghost var c := CachePut(dir + [items[i].name], AttrItem(items[i].name, items[i].attributes), false);
        NoPagesNoOrder(AttrItem(items[i].name, items[i].attributes), c);
        PutNext(cfg, m, dir, items, cs, i, before, c);
        Runs.TimesNext(start, cs[..i], c, []);
        assert cs[i := c][..i + 1] == cs[..i] + [c];
        cs := cs[i := c];
        i := i + 1;
      }
      assert items[..i] == items && cs[..i] == cs;
    }

    /** The entries for the directory itself and its parent, in front of the others. */
    method WithDots(path: Path, items: seq<ListItem>)
      returns (r: Result<seq<ListItem>>, ghost dot: AttrChoice, ghost dotdot: AttrChoice)
      requires Valid()
      modifies this, clock, cache
      ensures Valid() && Runs.DotsOk(old(clock.time), dot, dotdot) && dotdot.put.now == clock.time
      ensures (State(), r) == FsModel.WithDots(cfg, old(State()), path, items, dot, dotdot)
    {
      hide CacheOk, BuffersOk, FsModel.GetAttributes;
      var self;
      self, dot := GetAttributes(path);
      dotdot := AttrChoice(clock.time, Choice(clock.time, [], []));
      if self.Err? {
        return Err(self.error), dot, dotdot;
      }
      var parent;
      parent, dotdot := GetAttributes(ParentOrRoot(path));
      if parent.Err? {
        return Err(parent.error), dot, dotdot;
      }
      r := Ok([ListItem(".", KindDirectory, self.value), ListItem("..", KindDirectory, parent.value)] + items);
    }

    method ReaddirMiss(path: Path) returns (r: Result<seq<ListItem>>, ghost c: ReaddirChoice)
      requires Valid()
      modifies this, clock, cache
      ensures |c.puts| == |c.listing|
      ensures ListingChosen(old(State()).tree, path, c)
      ensures old(clock.time) <= clock.time && Runs.ListTimes(old(clock.time), c) && c.dotdot.put.now == clock.time
      ensures Valid() && (State(), r) == FsModel.ReaddirMiss(cfg, old(State()), path, c)
    {
      hide CacheOk, BuffersOk, FsModel.GetAttributes, FsModel.PutChildren, FsModel.WithDots, FsModel.CachePut,
        Storage.IsListing, OrderOk;
      c := Stamps([], AttrChoice(clock.time, Choice(clock.time, [], [])));
      var names := remote.List(path);
      if names.Err? {
        return Err(names.error), c;
      }
      var elements := ServerItems(remote.tree, path, names.value);
      var attr;
      ghost var at;
      attr, at := GetAttributes(path);
      c := Stamps(names.value, at);
      if attr.Err? {
        return Err(attr.error), c;
      }
      ghost var put := CachePut(path, DirectoryItem(LastName(path), Some(attr.value), Some(names.value)), false);
      ghost var puts := PutChildren(path, elements);
      c := c.(put := put, puts := puts);
      ghost var dot, dotdot;
      r, dot, dotdot := WithDots(path, elements);
      c := c.(dot := dot, dotdot := dotdot);
    }

    /** The choices of a listing that ends after the attributes of the directory. */
    ghost function Stamps(names: seq<Name>, self: AttrChoice): (c: ReaddirChoice)
      ensures c.listing == names && |c.puts| == |names| && c.self == self && c.dotdot.put.now == self.put.now
      ensures forall start: nat :: Runs.AttrOk(start, self) ==> Runs.ListTimes(start, c)
    {
      var now := self.put.now;
      var none := Choice(now, [], []);
      var at := AttrChoice(now, none);
      ReaddirChoice(now, [], self, at, at, names, none, seq(|names|, _ => none))
    }

    /** A cached listing with all its children answers; otherwise the server lists, and the
        directory and its children are put into the cache. */
    method Readdir(path: Path) returns (r: Result<seq<ListItem>>, ghost c: ReaddirChoice)
      requires Valid()
      modifies this, clock, cache
      ensures |c.puts| == |c.listing|
      ensures ListingChosen(old(State()).tree, path, c)
      ensures Valid() && (State(), r) == FsModel.Readdir(cfg, old(State()), path, c)
      ensures Runs.Legal(cfg, old(clock.time), clock.time, old(State()), Runs.ReaddirOp(path, c))
    {
      hide CacheOk, BuffersOk, FsModel.CacheGet, FsModel.LookupChildren, FsModel.WithDots, FsModel.ReaddirMiss,
        Staleness.Sourced, Storage.IsListing;
      var hit, get := CacheGet(path);
      ghost var nows := [];
      if hit.Some? {
        if hit.value.DirectoryItem? {
          if hit.value.children.Some? {
            var items, times := LookupChildren(path, hit.value.children.value);
            nows := times;
            if items.Some? {
              c := SomeListing(remote.tree, path, clock.time).(get := get, children := nows);
              ghost var dot, dotdot;
              r, dot, dotdot := WithDots(path, items.value);
              c := c.(dot := dot, dotdot := dotdot);
              return;
            }
          }
        }
      }
      ghost var s := State();
      r, c := ReaddirMiss(path);
      MissIgnores(cfg, s, path, c, get, nows);
      c := c.(get := get, children := nows);
    }

    lemma MissIgnores(cfg: FsConfig, s: FsState, path: Path, c: ReaddirChoice, get: nat, nows: seq<nat>)
      requires |c.puts| == |c.listing|
      ensures FsModel.ReaddirMiss(cfg, s, path, c.(get := get, children := nows)) ==
              FsModel.ReaddirMiss(cfg, s, path, c)
    {
    }
  }
}
