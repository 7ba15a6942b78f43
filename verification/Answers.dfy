/** What every call of the client answers, said of the server's tree alone: when it succeeds,
    which error it gives otherwise, and what it does to the server. */
module Answers {
  import opened Bytes
  import opened PagedFile
  import opened Cache
  import opened RwBuffer
  import opened FsModel
  import opened Runs
  import opened WriteBack
  import CallLoops
  import Storage

  // ---- the server's answers ----

  /** Some directory of the tree holds, or could hold, an entry of this path. */
  ghost predicate HasPlace(t: Tree, path: Path) {
    exists dir: Path, name: Name :: path == dir + [name] && dir in t && t[dir] == Storage.Dir
  }

  lemma PlaceIff(t: Tree, path: Path)
    ensures Storage.InDir(t, path) <==> HasPlace(t, path)
  {
    if Storage.InDir(t, path) {
      assert path == path[..|path| - 1] + [path[|path| - 1]];
    }
    if HasPlace(t, path) {
      var dir: Path, name: Name :| path == dir + [name] && dir in t && t[dir] == Storage.Dir;
      assert path[..|path| - 1] == dir;
    }
  }

  /** Bytes can be written there: into a file, or into a new one in a directory. */
  ghost predicate Writable(t: Tree, path: Path) {
    if path in t then t[path].File? else HasPlace(t, path)
  }

  /** Why bytes cannot be written there. */
  function WhyNot(t: Tree, path: Path): Error {
    if path !in t then NotFound else if t[path].Dir? then IsADirectory else InvalidInput
  }

  ghost predicate IsEmptyDir(t: Tree, path: Path) {
    path in t && t[path].Dir? && forall name: Name :: path + [name] !in t
  }

  lemma NamesIff(t: Tree, dir: Path, name: Name)
    ensures name in Storage.Names(t, dir) <==> dir + [name] in t
  {
    if dir + [name] in t {
      assert Storage.Up(dir + [name]) == dir && Storage.Last(dir + [name]) == name;
    }
    if name in Storage.Names(t, dir) {
      var p :| p in t && p != [] && Storage.Up(p) == dir && Storage.Last(p) == name;
      assert p == dir + [name];
    }
  }

  lemma NoNamesIff(t: Tree, dir: Path)
    ensures Storage.Names(t, dir) == {} <==> forall name: Name :: dir + [name] !in t
  {
    forall name: Name ensures name in Storage.Names(t, dir) <==> dir + [name] in t {
      NamesIff(t, dir, name);
    }
  }

  /** A write reaches the server exactly if its path can be written; then the bytes can be read
      back, and nothing else has changed. */
  lemma WriteReachesIff(t: Tree, path: Path, offset: nat, data: seq<byte>)
    ensures var r := Storage.WriteFile(t, path, offset, data);
            && (r.Ok? <==> Writable(t, path))
            && (r.Err? ==> r.error == WhyNot(t, path))
            && (r.Ok? ==>
                  && Storage.ReadFile(r.value, path, offset, |data|) == Ok(data)
                  && r.value.Keys == t.Keys + {path} && r.value - {path} == t - {path})
  {
    PlaceIff(t, path);
    var r := Storage.WriteFile(t, path, offset, data);
    if r.Ok? {
      assert ReadAt(r.value[path].content, offset, |data|) == data;
    }
  }

  /** An upload before another one neither makes nor breaks its place. */
  lemma StillWritable(t: Tree, path: Path, offset: nat, data: seq<byte>, other: Path)
    requires Writable(t, path)
    ensures Writable(Storage.WriteFile(t, path, offset, data).value, other) <==>
            Writable(t, other)
  {
    PlaceIff(t, path);
    PlaceIff(t, other);
    PlaceIff(Storage.WriteFile(t, path, offset, data).value, other);
  }

  // ---- lookups and reads ----

  /** What attributes say about a node. */
  predicate Describes(a: Attributes, n: Storage.Node) {
    match n
    case Dir => a.kind == KindDirectory
    case File(content) => a.kind == KindFile && a.size == |content|
    case Link(target) => a.kind == KindSymlink && a.size == |target|
  }

  /** A lookup of what is there succeeds; one that the cache cannot answer describes what is there. */
  lemma LookupAnswers(cfg: FsConfig, s: FsState, path: Path, c: AttrChoice)
    ensures var r := GetAttributes(cfg, s, path, c).1;
            && (path in s.tree ==> r.Ok?)
            && (path !in s.cache || !cfg.cached ==>
                  if path in s.tree then Describes(r.value, s.tree[path]) else r == Err(NotFound))
  {
  }

  lemma NoPagesNoBytes(cfg: FsConfig, hit: Option<CacheItem>, offset: nat, size: nat)
    requires hit.Some? && hit.value.FileItem? ==> hit.value.pages == map[]
    ensures CachedBytes(cfg, hit, offset, size) == []
  {
    hide ReadRun;
    if hit.Some? && hit.value.FileItem? {
      assert offset !in View(hit.value.pages, cfg.cache.limits.pageSize);
      ReadRunUnique(View(hit.value.pages, cfg.cache.limits.pageSize), offset, size, []);
    }
  }

  /** Nothing is cached of the path and the window holds another file. */
  predicate Unknown(cfg: FsConfig, s: FsState, path: Path) {
    (path !in s.cache || !cfg.cached) && s.window.path != Some(path)
  }

  lemma LookupBringsNoPages(cfg: FsConfig, s: FsState, path: Path, c: AttrChoice, now: nat)
    requires path !in s.cache || !cfg.cached
    ensures var hit := CacheGet(cfg, GetAttributes(cfg, s, path, c).0.cache, path, now).1;
            hit.Some? && hit.value.FileItem? ==> hit.value.pages == map[]
  {
  }

  lemma ServerRange(file: seq<byte>, offset: nat, size: nat, capacity: nat)
    ensures var data := ReadAt(file, offset, capacity);
            data[..Min(|data|, size)] == ReadAt(file, offset, Min(size, capacity))
  {
  }

  lemma MissAnswers(cfg: FsConfig, s: FsState, path: Path, offset: nat, size: nat, cachedBytes: seq<byte>,
                    c: MissChoice)
    requires |cachedBytes| <= size
    ensures var r := ReadMiss(cfg, s, path, offset, size, cachedBytes, c).1;
            && (path in s.tree && s.tree[path].File? ==> r.Ok? && |r.value| <= size)
            && (cachedBytes == [] && s.window.path != Some(path) ==>
                  && (path in s.tree && s.tree[path].File? ==>
                        r == Storage.ReadFile(s.tree, path, offset, Min(size, cfg.capacity)))
                  && (path !in s.tree ==> r == Err(NotFound)))
  {
    hide CacheWrite, ReadAt;
    if path in s.tree && s.tree[path].File? {
      ServerRange(s.tree[path].content, offset, size, cfg.capacity);
    }
  }

  lemma CachedAtMost(cfg: FsConfig, hit: Option<CacheItem>, offset: nat, size: nat)
    ensures |CachedBytes(cfg, hit, offset, size)| <= size
  {
    hide View;
  }

  /** A read of a file that is there succeeds, whatever is cached; one of which nothing is cached
      gives the server's bytes from any offset on, as many as the buffer holds. */
  lemma ReadAnswers(cfg: FsConfig, s: FsState, path: Path, offset: nat, size: nat, c: ReadChoice)
    ensures var r := ReadFile(cfg, s, path, offset, size, c).1;
            && (path in s.tree && s.tree[path].File? ==> r.Ok? && |r.value| <= size)
            && (Unknown(cfg, s, path) ==>
                  && (path in s.tree && s.tree[path].File? ==>
                        r == Storage.ReadFile(s.tree, path, offset, Min(size, cfg.capacity)))
                  && (path !in s.tree ==> r == Err(NotFound)))
  {
    hide GetAttributes, ReadMiss, CachedBytes, CacheGet, ReadRun;
    LookupAnswers(cfg, s, path, c.attr);
    AttributesKeep(cfg, s, path, c.attr);
    var (s1, attr) := GetAttributes(cfg, s, path, c.attr);
    var (m, hit) := CacheGet(cfg, s1.cache, path, c.get);
    CachedAtMost(cfg, hit, offset, size);
    MissAnswers(cfg, s1.(cache := m), path, offset, size, CachedBytes(cfg, hit, offset, size), c.miss);
    if Unknown(cfg, s, path) {
      LookupBringsNoPages(cfg, s, path, c.attr, c.get);
      NoPagesNoBytes(cfg, hit, offset, size);
    }
  }

  /** The window changes only when the server is asked: then it holds what the server answered, as
      much as it has room for, from the moment it was filled. */
  lemma ReadFillsWindow(cfg: FsConfig, s: FsState, path: Path, offset: nat, size: nat, c: ReadChoice)
    ensures var w := ReadFile(cfg, s, path, offset, size, c).0.window;
            w == s.window ||
            (&& path in s.tree && s.tree[path].File?
             && WindowRead(s.window, cfg.windowTtl, path, offset, size, c.miss.window) == []
             && w == ReadWindow(Some(path), offset, ReadAt(s.tree[path].content, offset, cfg.capacity), c.miss.fill))
  {
    hide GetAttributes, CachedBytes, CacheGet, CacheWrite, WindowRead;
    AttributesKeep(cfg, s, path, c.attr);
    if path in s.tree && s.tree[path].File? {
      var data := ReadAt(s.tree[path].content, offset, cfg.capacity);
      assert data[..Min(|data|, cfg.capacity)] == data;
    }
  }

  // ---- writes and flushes ----

  /** A flush succeeds exactly if there is nothing to upload or it can be written; afterwards
      nothing is pending, and the server has the bytes, or is as it was. */
  lemma FlushAnswers(cfg: FsConfig, s: FsState, c: Choice)
    ensures var (s', r) := Flush(cfg, s, c);
            var u := UploadOf(s.pending);
            && (r == Ok(()) <==> s.pending.data == [] || Writable(s.tree, u.path))
            && s'.pending.data == [] && s'.window == s.window
            && (r.Err? ==> r.error == WhyNot(s.tree, u.path) && s'.tree == s.tree)
            && (r.Ok? && s.pending.data != [] ==> Storage.ReadFile(s'.tree, u.path, u.offset, |u.data|) == Ok(u.data))
  {
    hide CacheWrite;
    var u := UploadOf(s.pending);
    WriteReachesIff(s.tree, u.path, u.offset, u.data);
  }

  lemma UploadAnswers(cfg: FsConfig, s: FsState, u: Upload, c: Choice)
    ensures var (s', r) := UploadOne(cfg, s, u, c);
            && (r == Ok(()) <==> Writable(s.tree, u.path)) && (r.Ok? ==> r == Ok(()))
            && (r.Ok? ==> forall q: Path :: Writable(s'.tree, q) <==> Writable(s.tree, q))
            && (r.Err? ==> s' == s)
  {
    hide CacheWrite;
    WriteReachesIff(s.tree, u.path, u.offset, u.data);
    if Writable(s.tree, u.path) {
      forall q: Path ensures Writable(UploadOne(cfg, s, u, c).0.tree, q) <==> Writable(s.tree, q) {
        StillWritable(s.tree, u.path, u.offset, u.data, q);
      }
    }
  }

  lemma {:induction false} UploadsAnswer(cfg: FsConfig, s: FsState, uploads: seq<Upload>, cs: seq<Choice>)
    requires |cs| == |uploads|
    ensures var r := UploadAll(cfg, s, uploads, cs).1;
            && (r == Ok(()) <==> forall u :: u in uploads ==> Writable(s.tree, u.path))
            && (r.Ok? ==> r == Ok(()))
    decreases |uploads|
  {
    hide UploadOne, Writable;
    if uploads != [] {
      UploadAnswers(cfg, s, uploads[0], cs[0]);
      var (s1, r) := UploadOne(cfg, s, uploads[0], cs[0]);
      assert uploads == [uploads[0]] + uploads[1..];
      if r.Ok? {
        UploadsAnswer(cfg, s1, uploads[1..], cs[1..]);
      } else {
        assert uploads[0] in uploads;
      }
    }
  }

  /** The new bytes come right behind the pending ones. */
  predicate Continues(b: Pending, path: Path, offset: nat) {
    b.path == Some(path) && offset == b.offset + |b.data|
  }

  /** How many of the bytes there is room for. */
  function Room(capacity: nat, b: Pending, path: Path, offset: nat): nat
    requires |b.data| <= capacity
  {
    if Continues(b, path, offset) then capacity - |b.data| else capacity
  }

  lemma SectionUploads(capacity: nat, b: Pending, path: Path, offset: nat, data: seq<byte>)
    requires PendingOk(capacity, b)
    ensures var (_, uploads, written) := WriteSection(capacity, b, path, offset, data);
            var waiting := !Continues(b, path, offset) && b.data != [];
            var fills := |data| >= Room(capacity, b, path, offset);
            && |uploads| == (if waiting then 1 else 0) + (if fills then 1 else 0)
            && (waiting ==> uploads[0].path == b.path.value)
            && (fills ==> uploads[|uploads| - 1].path == path)
            && written == Min(|data|, Room(capacity, b, path, offset))
  {
  }

  /** What a write has to upload can be written: pending bytes that it does not continue, and its
      own `n` bytes if they fill the buffer. */
  ghost predicate WriteGoes(capacity: nat, t: Tree, b: Pending, path: Path, offset: nat, n: nat)
    requires PendingOk(capacity, b)
  {
    && (!Continues(b, path, offset) && b.data != [] ==> Writable(t, b.path.value))
    && (n >= Room(capacity, b, path, offset) ==> Writable(t, path))
  }

  /** A write succeeds exactly if what it has to upload can be written, and takes as many bytes as
      there is room for. */
  lemma WriteAnswers(cfg: FsConfig, s: FsState, path: Path, offset: nat, data: seq<byte>, c: WriteChoice)
    requires PendingOk(cfg.capacity, s.pending)
    ensures var r := WriteFile(cfg, s, path, offset, data, c).1;
            && (r.Ok? <==> WriteGoes(cfg.capacity, s.tree, s.pending, path, offset, |data|))
            && (r.Ok? ==> r.value == Min(|data|, Room(cfg.capacity, s.pending, path, offset)))
  {
    hide UploadAll, Writable, WriteSection, Room;
    var (b', uploads, _) := WriteSection(cfg.capacity, s.pending, path, offset, data);
    SectionUploads(cfg.capacity, s.pending, path, offset, data);
    SectionShape(cfg.capacity, s.pending, path, offset, data);
    UploadsAnswer(cfg, s.(pending := b'), uploads, ChoicesFor(|uploads|, c));
    assert uploads != [] ==> uploads[0] in uploads && uploads[|uploads| - 1] in uploads;
    assert forall u :: u in uploads ==> u == uploads[0] || u == uploads[|uploads| - 1];
  }

  /** What a write leaves, also when it fails: the buffer holds the taken bytes, behind those they
      continue, or nothing if they filled it; the pending bytes that they do not continue have
      gone to the server, or are lost. */
  lemma WriteLeaves(cfg: FsConfig, s: FsState, path: Path, offset: nat, data: seq<byte>, c: WriteChoice)
    requires PendingOk(cfg.capacity, s.pending)
    ensures var (s', r) := WriteFile(cfg, s, path, offset, data, c);
            var b, fills := s.pending, |data| >= Room(cfg.capacity, s.pending, path, offset);
            && s'.window == s.window
            && s'.pending == (if fills then CLEAN
                              else if Continues(b, path, offset) then b.(data := b.data + data)
                              else Pending(Some(path), offset, data))
            && (r.Err? ==>
                  s'.tree == if fills && !Continues(b, path, offset) && b.data != [] && Writable(s.tree, b.path.value)
                             then Apply(s.tree, UploadOf(b)) else s.tree)
  {
    hide UploadOne, WriteSection, Writable, Apply, Room;
    var b := s.pending;
    SectionUploads(cfg.capacity, b, path, offset, data);
    SectionLeaves(cfg.capacity, b, path, offset, data);
    var (b', uploads, _) := WriteSection(cfg.capacity, b, path, offset, data);
    var s1, cs := s.(pending := b'), ChoicesFor(|uploads|, c);
    if |uploads| == 1 {
      assert uploads == [uploads[0]] && cs == [cs[0]];
      CallLoops.OnlyUpload(cfg, s1, uploads[0], cs[0]);
      OneUploadLeaves(cfg, s1, uploads[0], cs[0]);
    } else if |uploads| == 2 {
      assert uploads == [uploads[0], uploads[1]] && cs == [cs[0], cs[1]];
      OneUploadLeaves(cfg, s1, uploads[0], cs[0]);
      var (s2, r) := UploadOne(cfg, s1, uploads[0], cs[0]);
      CallLoops.OnlyUpload(cfg, s2, uploads[1], cs[1]);
      OneUploadLeaves(cfg, s2, uploads[1], cs[1]);
      assert uploads[1..] == [uploads[1]] && cs[1..] == [cs[1]];
    }
  }

  lemma OneUploadLeaves(cfg: FsConfig, s: FsState, u: Upload, c: Choice)
    ensures var (s', r) := UploadOne(cfg, s, u, c);
            && s'.pending == s.pending && s'.window == s.window
            && (r.Ok? <==> Writable(s.tree, u.path)) && (r.Err? ==> s' == s)
            && (r.Ok? && u.data != [] ==> s'.tree == Apply(s.tree, u))
  {
    hide CacheWrite;
    UploadAnswers(cfg, s, u, c);
  }

  lemma SectionLeaves(capacity: nat, b: Pending, path: Path, offset: nat, data: seq<byte>)
    requires PendingOk(capacity, b)
    ensures var (b', uploads, _) := WriteSection(capacity, b, path, offset, data);
            var fills := |data| >= Room(capacity, b, path, offset);
            && b' == (if fills then CLEAN
                      else if Continues(b, path, offset) then b.(data := b.data + data)
                      else Pending(Some(path), offset, data))
            && (!Continues(b, path, offset) && b.data != [] ==> |uploads| > 0 && uploads[0] == UploadOf(b))
  {
    assert |data| < Room(capacity, b, path, offset) ==> data[..|data|] == data;
  }

  // ---- listings ----

  lemma DotsAnswer(cfg: FsConfig, s: FsState, path: Path, items: seq<ListItem>, self: AttrChoice, up: AttrChoice)
    ensures var r := WithDots(cfg, s, path, items, self, up).1;
            && (r.Ok? ==> DotsFirst(r.value) && r.value[2..] == items)
            && (path in s.tree && ParentOrRoot(path) in s.tree ==> r.Ok?)
            && WithDots(cfg, s, path, items, self, up).0.window == s.window
  {
    hide GetAttributes;
    LookupAnswers(cfg, s, path, self);
    AttributesKeep(cfg, s, path, self);
    AttributesKeep(cfg, GetAttributes(cfg, s, path, self).0, ParentOrRoot(path), up);
    LookupAnswers(cfg, GetAttributes(cfg, s, path, self).0, ParentOrRoot(path), up);
  }

  predicate DotsFirst(items: seq<ListItem>) {
    && |items| >= 2 && items[0].name == "." && items[1].name == ".."
    && items[0].kind == KindDirectory && items[1].kind == KindDirectory
  }

  lemma MissedListing(cfg: FsConfig, s: FsState, path: Path, c: ReaddirChoice)
    requires |c.puts| == |c.listing|
    ensures var r := ReaddirMiss(cfg, s, path, c).1;
            && (r.Ok? ==> DotsFirst(r.value) && r.value[2..] == ServerItems(s.tree, path, c.listing))
            && (path !in s.tree ==> r == Err(NotFound))
            && (path in s.tree && !s.tree[path].Dir? ==> r == Err(NotADirectory))
            && (path in s.tree && s.tree[path].Dir? && ParentOrRoot(path) in s.tree ==> r.Ok?)
            && ReaddirMiss(cfg, s, path, c).0.window == s.window
  {
    hide GetAttributes, WithDots, PutChildren, CachePut, DotsFirst;
    if path in s.tree && s.tree[path].Dir? {
      LookupAnswers(cfg, s, path, c.self);
      AttributesKeep(cfg, s, path, c.self);
      var (s1, attr) := GetAttributes(cfg, s, path, c.self);
      var dir := DirectoryItem(LastName(path), Some(attr.value), Some(c.listing));
      var items := ServerItems(s.tree, path, c.listing);
      var m1 := CachePut(cfg, s1.cache, path, dir, false, c.put);
      DotsAnswer(cfg, s1.(cache := PutChildren(cfg, m1, path, items, c.puts)), path, items, c.dot, c.dotdot);
    }
  }

  /** A listing of a directory that is there succeeds, whatever is cached, and gives the two dot
      entries first; one that the cache cannot answer goes on with what the server listed, or
      says that nothing or no directory is there. */
  lemma ReaddirAnswers(cfg: FsConfig, s: FsState, path: Path, c: ReaddirChoice)
    requires |c.puts| == |c.listing|
    ensures var r := Readdir(cfg, s, path, c).1;
            && (r.Ok? ==> DotsFirst(r.value))
            && (path in s.tree && s.tree[path].Dir? && ParentOrRoot(path) in s.tree ==> r.Ok?)
            && (path !in s.cache || !cfg.cached ==>
                  && (r.Ok? ==> r.value[2..] == ServerItems(s.tree, path, c.listing))
                  && (path !in s.tree ==> r == Err(NotFound))
                  && (path in s.tree && !s.tree[path].Dir? ==> r == Err(NotADirectory)))
            && Readdir(cfg, s, path, c).0.window == s.window
  {
    hide WithDots, ReaddirMiss, DotsFirst, LookupChildren;
    var (m, hit) := CacheGet(cfg, s.cache, path, c.get);
    var (m1, items) := CachedListing(cfg, m, path, hit, c.children);
    if items.Some? {
      DotsAnswer(cfg, s.(cache := m1), path, items.value, c.dot, c.dotdot);
    } else {
      MissedListing(cfg, s.(cache := m1), path, c);
    }
  }

  // ---- creating, resizing, removing ----

  /** The tree of a call that succeeded: one path more, or another node there. */
  predicate Became(t: Tree, t': Tree, path: Path, n: Storage.Node) {
    t'.Keys == t.Keys + {path} && t'[path] == n && t' - {path} == t - {path}
  }

  /** A file is created, or written again, exactly if its path can be written. */
  lemma CreateAnswers(cfg: FsConfig, s: FsState, path: Path, offset: nat, data: seq<byte>, c: Choice)
    ensures var (s', r) := CreateFile(cfg, s, path, offset, data, c);
            && (r.Ok? <==> Writable(s.tree, path))
            && (r.Ok? ==> path in s'.tree && Describes(r.value, s'.tree[path]) && s'.tree[path].File?
                          && Storage.ReadFile(s'.tree, path, offset, |data|) == Ok(data)
                          && s'.tree - {path} == s.tree - {path})
            && (r.Err? ==> s' == s && r.error == WhyNot(s.tree, path))
            && s'.window == s.window && s'.pending == s.pending
  {
    hide CachePutNew;
    WriteReachesIff(s.tree, path, offset, data);
  }

  lemma MkdirAnswers(cfg: FsConfig, s: FsState, path: Path, c: Choice)
    ensures var (s', r) := Mkdir(cfg, s, path, c);
            && (r.Ok? <==> path !in s.tree && HasPlace(s.tree, path))
            && (r.Ok? ==> Became(s.tree, s'.tree, path, Storage.Dir) && Describes(r.value, Storage.Dir))
            && (r.Err? ==> s' == s && r.error == if path in s.tree then AlreadyExists else NotFound)
            && s'.window == s.window && s'.pending == s.pending
  {
    hide CachePutNew;
    PlaceIff(s.tree, path);
  }

  lemma SymlinkAnswers(cfg: FsConfig, s: FsState, path: Path, target: string, c: Choice)
    ensures var (s', r) := CreateSymlink(cfg, s, path, target, c);
            && (r.Ok? <==> path !in s.tree && HasPlace(s.tree, path))
            && (r.Ok? ==>
                Became(s.tree, s'.tree, path, Storage.Link(target)) && Describes(r.value, Storage.Link(target)))
            && (r.Err? ==> s' == s && r.error == if path in s.tree then AlreadyExists else NotFound)
            && s'.window == s.window && s'.pending == s.pending
  {
    hide CachePutNew;
    PlaceIff(s.tree, path);
  }

  /** Emptying or resizing a file changes no place. */
  lemma ResizedWritable(t: Tree, path: Path, size: nat, other: Path)
    requires path in t && t[path].File?
    ensures Writable(Storage.SetSize(t, path, size).value, other) <==> Writable(t, other)
  {
    PlaceIff(t, other);
    PlaceIff(Storage.SetSize(t, path, size).value, other);
  }

  /** A size is set exactly for a file, and the answer says the new size. */
  lemma SetSizeAnswers(cfg: FsConfig, s: FsState, path: Path, size: nat, c: Choice)
    ensures var (s', r) := SetSize(cfg, s, path, size, c);
            && (r.Ok? <==> path in s.tree && s.tree[path].File?)
            && (r.Ok? ==> r.value == Attributes(size, KindFile)
                          && Became(s.tree, s'.tree, path, Storage.File(Storage.Content(s'.tree, path)))
                          && |Storage.Content(s'.tree, path)| == size)
            && (r.Err? ==> s' == s && r.error == WhyNot(s.tree, path))
            && s'.window == s.window && s'.pending == s.pending
  {
    hide CacheAttr;
  }

  /** Files, links and empty directories are removed, and then looking them up finds nothing; the
      entries of all paths but this one and those above it stay cached as they were. */
  lemma RemoveAnswers(cfg: FsConfig, s: FsState, path: Path, c: AttrChoice)
    ensures var (s', r) := RemovePath(cfg, s, path);
            && (r == Ok(()) <==> path in s.tree && (s.tree[path].Dir? ==> IsEmptyDir(s.tree, path)))
            && (r.Ok? ==> s'.tree == s.tree - {path} && GetAttributes(cfg, s', path, c).1 == Err(NotFound))
            && (r.Err? ==> s' == s && r.error == if path in s.tree then DirectoryNotEmpty else NotFound)
            && s'.window == s.window && s'.pending == s.pending
            && forall q :: q in s.cache && !(q <= path) ==> q in s'.cache && s'.cache[q] == s.cache[q]
  {
    hide Ancestors;
    NoNamesIff(s.tree, path);
    AncestorsArePrefixes(path);
  }
}
