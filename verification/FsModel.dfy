/** The client's protocol over the cache, the two buffers and the server: what every call
    does to this state, as functions of the state and of the choices nobody makes. */
module FsModel {
  import opened Bytes
  import opened PagedFile
  import opened Cache
  import opened RwBuffer
  import Storage

  type Tree = Storage.Tree

  datatype FsConfig = FsConfig(cache: CacheConfig, cached: bool, capacity: nat, windowTtl: nat)

  datatype FsState = FsState(tree: Tree, cache: Entries, window: ReadWindow, pending: Pending)

  datatype ListItem = ListItem(name: Name, kind: Kind, attributes: Attributes)

  function LastName(path: Path): Name {
    if path == [] then "" else Storage.Last(path)
  }

  function ParentOrRoot(path: Path): Path {
    if path == [] then [] else Storage.Up(path)
  }

  // ---- cache helpers ----

  function CacheGet(cfg: FsConfig, m: Entries, path: Path, now: nat): (Entries, Option<CacheItem>) {
    if cfg.cached then Get(cfg.cache, m, path, now) else (m, None)
  }

  function CachePut(cfg: FsConfig, m: Entries, path: Path, item: CacheItem, invalidate: bool, c: Choice): Entries {
    if cfg.cached then Put(cfg.cache, m, path, item, invalidate, c) else m
  }

  function CachePutNew(cfg: FsConfig, m: Entries, path: Path, item: CacheItem, c: Choice): Entries {
    if cfg.cached && path != [] then PutNew(cfg.cache, m, path, item, c) else m
  }

  function CacheRemove(cfg: FsConfig, m: Entries, path: Path): Entries {
    if cfg.cached then Remove(m, path) else m
  }

  function AttrItem(name: Name, a: Attributes): CacheItem {
    match a.kind
    case KindDirectory => DirectoryItem(name, Some(a), None)
    case KindFile => FileItem(name, Some(a), map[])
    case KindSymlink => SymlinkItem(name, Some(a), None)
  }

  function ChunkItem(cfg: FsConfig, path: Path, offset: nat, data: seq<byte>): CacheItem {
    FileItem(LastName(path), None, WriteContent(map[], cfg.cache.limits, offset, data))
  }

  function CacheAttr(cfg: FsConfig, m: Entries, path: Path, a: Attributes, c: Choice): Entries {
    if path == [] then m else CachePut(cfg, m, path, AttrItem(LastName(path), a), false, c)
  }

  /** Bytes of a file put under its path, as a file of their own that is merged. */
  function CacheWrite(cfg: FsConfig, m: Entries, path: Path, offset: nat, data: seq<byte>, invalidate: bool, c: Choice):
    Entries {
    if path == [] then m else CachePut(cfg, m, path, ChunkItem(cfg, path, offset, data), invalidate, c)
  }

  function ItemAttributes(item: Option<CacheItem>): Option<Attributes> {
    if item.Some? then item.value.attributes else None
  }

  // ---- get_attributes ----

  datatype AttrChoice = AttrChoice(get: nat, put: Choice)

  function GetAttributes(cfg: FsConfig, s: FsState, path: Path, c: AttrChoice): (FsState, Result<Attributes>) {
    var (m, hit) := CacheGet(cfg, s.cache, path, c.get);
    if ItemAttributes(hit).Some? then (s.(cache := m), Ok(hit.value.attributes.value))
    else match Storage.GetAttributes(s.tree, path)
      case Err(e) => (s.(cache := m), Err(e))
      case Ok(a) => (s.(cache := CacheAttr(cfg, m, path, a, c.put)), Ok(a))
  }

  // ---- read_file ----

  datatype MissChoice = MissChoice(window: nat, fill: nat, put: Choice)

  datatype ReadChoice = ReadChoice(attr: AttrChoice, get: nat, miss: MissChoice)

  ghost function CachedBytes(cfg: FsConfig, hit: Option<CacheItem>, offset: nat, size: nat): seq<byte> {
    if hit.Some? && hit.value.FileItem? then ReadRun(View(hit.value.pages, cfg.cache.limits.pageSize), offset, size)
    else []
  }

  /** The cached pages answer first, then the read window, then the server; what the window
      or the server answers is put into the cache. */
  ghost function ReadFile(cfg: FsConfig, s: FsState, path: Path, offset: nat, size: nat, c: ReadChoice):
    (FsState, Result<seq<byte>>) {
    var (s1, attr) := GetAttributes(cfg, s, path, c.attr);
    if attr.Ok? && offset >= attr.value.size then (s1, Ok([]))
    else
      var (m, hit) := CacheGet(cfg, s1.cache, path, c.get);
      ReadMiss(cfg, s1.(cache := m), path, offset, size, CachedBytes(cfg, hit, offset, size), c.miss)
  }

  function ReadMiss(cfg: FsConfig, s: FsState, path: Path, offset: nat, size: nat, cachedBytes: seq<byte>,
                    c: MissChoice): (FsState, Result<seq<byte>>) {
    if cachedBytes != [] then (s, Ok(cachedBytes))
    else
      var ahead := WindowRead(s.window, cfg.windowTtl, path, offset, size, c.window);
      if ahead != [] then (s.(cache := CacheWrite(cfg, s.cache, path, offset, ahead, false, c.put)), Ok(ahead))
      else match Storage.ReadFile(s.tree, path, offset, cfg.capacity)
        case Err(e) => (s, Err(e))
        case Ok(data) =>
          (s.(window := WindowFill(cfg.capacity, path, offset, data, c.fill),
              cache := CacheWrite(cfg, s.cache, path, offset, data, false, c.put)),
           Ok(data[..Min(|data|, size)]))
  }

  // ---- write_file and flush ----

  datatype Upload = Upload(path: Path, offset: nat, data: seq<byte>)

  function UploadOf(b: Pending): Upload {
    Upload(if b.path.Some? then b.path.value else [], b.offset, b.data)
  }

  /** The locked section of a write: the new buffer, what is to be uploaded after the lock
      is released, in this order, and how many bytes were taken. */
  function WriteSection(capacity: nat, b: Pending, path: Path, offset: nat, data: seq<byte>):
    (Pending, seq<Upload>, nat)
    requires |b.data| <= capacity
  {
    var appending := IsAppending(b, path, offset);
    var first := if !appending && b.data != [] then [UploadOf(b)] else [];
    var (b1, written) := Buffered(capacity, if appending then b else CLEAN, path, offset, data);
    if |b1.data| >= capacity then (CLEAN, first + [UploadOf(b1)], written) else (b1, first, written)
  }

  /** One upload: a write on the server, then the same bytes into the cache. */
  function UploadOne(cfg: FsConfig, s: FsState, u: Upload, c: Choice): (FsState, Result<()>) {
    match Storage.WriteFile(s.tree, u.path, u.offset, u.data)
    case Err(e) => (s, Err(e))
    case Ok(t) => (s.(tree := t, cache := CacheWrite(cfg, s.cache, u.path, u.offset, u.data, true, c)), Ok(()))
  }

  function UploadAll(cfg: FsConfig, s: FsState, uploads: seq<Upload>, cs: seq<Choice>): (FsState, Result<()>)
    requires |cs| == |uploads|
    decreases |uploads|
  {
    if uploads == [] then (s, Ok(()))
    else
      var (s1, r) := UploadOne(cfg, s, uploads[0], cs[0]);
      if r.Err? then (s1, r) else UploadAll(cfg, s1, uploads[1..], cs[1..])
  }

  /** The iteration orders behind the uploads are orders of the uploaded pages. */
  ghost predicate UploadOrdersOk(cfg: FsConfig, uploads: seq<Upload>, cs: seq<Choice>)
    requires |cs| == |uploads|
  {
    forall i :: 0 <= i < |uploads| ==>
                  OrderOk(ChunkItem(cfg, uploads[i].path, uploads[i].offset, uploads[i].data), cs[i])
  }

  /** At most two uploads follow a write. */
  datatype WriteChoice = WriteChoice(first: Choice, second: Choice)

  function ChoicesFor(n: nat, c: WriteChoice): seq<Choice>
    requires n <= 2
  {
    [c.first, c.second][..n]
  }

  function WriteFile(cfg: FsConfig, s: FsState, path: Path, offset: nat, data: seq<byte>, c: WriteChoice):
    (FsState, Result<nat>)
    requires |s.pending.data| <= cfg.capacity
  {
    var (b, uploads, written) := WriteSection(cfg.capacity, s.pending, path, offset, data);
    var (s1, r) := UploadAll(cfg, s.(pending := b), uploads, ChoicesFor(|uploads|, c));
    (s1, if r.Ok? then Ok(written) else Err(r.error))
  }

  function Flush(cfg: FsConfig, s: FsState, c: Choice): (FsState, Result<()>) {
    if s.pending.data == [] then (s, Ok(()))
    else UploadOne(cfg, s.(pending := CLEAN), UploadOf(s.pending), c)
  }

  // ---- set_attributes ----

  /** Setting the size of a file; the attributes that come back are cached, pages stay. */
  function SetSize(cfg: FsConfig, s: FsState, path: Path, size: nat, c: Choice): (FsState, Result<Attributes>) {
    match Storage.SetSize(s.tree, path, size)
    case Err(e) => (s, Err(e))
    case Ok(t) =>
      var a := Storage.AttrOf(t[path]);
      (s.(tree := t, cache := CacheAttr(cfg, s.cache, path, a, c)), Ok(a))
  }

  // ---- create, mkdir, symlink, remove ----

  function CreateFile(cfg: FsConfig, s: FsState, path: Path, offset: nat, data: seq<byte>, c: Choice):
    (FsState, Result<Attributes>) {
    match Storage.WriteFile(s.tree, path, offset, data)
    case Err(e) => (s, Err(e))
    case Ok(t) =>
      var a := Storage.AttrOf(t[path]);
      (s.(tree := t, cache := CachePutNew(cfg, s.cache, path, FileItem(LastName(path), Some(a), map[]), c)), Ok(a))
  }

  function Mkdir(cfg: FsConfig, s: FsState, path: Path, c: Choice): (FsState, Result<Attributes>) {
    match Storage.MakeDir(s.tree, path)
    case Err(e) => (s, Err(e))
    case Ok(t) =>
      var a := Storage.AttrOf(Storage.Dir);
      (s.(tree := t, cache := CachePutNew(cfg, s.cache, path, DirectoryItem(LastName(path), Some(a), Some([])), c)),
       Ok(a))
  }

  function CreateSymlink(cfg: FsConfig, s: FsState, path: Path, target: string, c: Choice):
    (FsState, Result<Attributes>) {
    match Storage.MakeLink(s.tree, path, target)
    case Err(e) => (s, Err(e))
    case Ok(t) =>
      var a := Storage.AttrOf(Storage.Link(target));
      (s.(tree := t, cache := CachePutNew(cfg, s.cache, path, SymlinkItem(LastName(path), Some(a), Some(target)), c)),
       Ok(a))
  }

  function RemovePath(cfg: FsConfig, s: FsState, path: Path): (FsState, Result<()>) {
    match Storage.Delete(s.tree, path)
    case Err(e) => (s, Err(e))
    case Ok(t) => (s.(tree := t, cache := CacheRemove(cfg, s.cache, path)), Ok(()))
  }

  // ---- readdir ----

  function ItemNames(items: seq<ListItem>): seq<Name> {
    seq(|items|, i requires 0 <= i < |items| => items[i].name)
  }

  function KindOf(item: CacheItem): Kind {
    match item
    case FileItem(_, _, _) => KindFile
    case DirectoryItem(_, _, _) => KindDirectory
    case SymlinkItem(_, _, _) => KindSymlink
  }

  /** Looking up the children one by one; a missing child or missing attributes give it up. */
  function LookupChildren(cfg: FsConfig, m: Entries, dir: Path, names: seq<Name>, nows: seq<nat>):
    (Entries, Option<seq<ListItem>>)
    requires |nows| == |names|
  {
    if names == [] then (m, Some([]))
    else
      var (m1, hit) := CacheGet(cfg, m, dir + [names[0]], nows[0]);
      if ItemAttributes(hit).None? then (m1, None)
      else
        var item := ListItem(hit.value.name, KindOf(hit.value), hit.value.attributes.value);
        var (m2, rest) := LookupChildren(cfg, m1, dir, names[1..], nows[1..]);
        (m2, if rest.Some? then Some([item] + rest.value) else None)
  }

  function ServerItem(t: Tree, dir: Path, name: Name): ListItem {
    var a := if dir + [name] in t then Storage.AttrOf(t[dir + [name]]) else Attributes(0, KindFile);
    ListItem(name, a.kind, a)
  }

  function ServerItems(t: Tree, dir: Path, names: seq<Name>): seq<ListItem> {
    seq(|names|, i requires 0 <= i < |names| => ServerItem(t, dir, names[i]))
  }

  function PutChildren(cfg: FsConfig, m: Entries, dir: Path, items: seq<ListItem>, cs: seq<Choice>): Entries
    requires |cs| == |items|
    decreases |items|
  {
    if items == [] then m
    else
      var child := AttrItem(items[0].name, items[0].attributes);
      PutChildren(cfg, CachePut(cfg, m, dir + [items[0].name], child, false, cs[0]), dir, items[1..], cs[1..])
  }

  datatype ReaddirChoice = ReaddirChoice(get: nat, children: seq<nat>, self: AttrChoice, dot: AttrChoice,
                                         dotdot: AttrChoice, listing: seq<Name>, put: Choice, puts: seq<Choice>)

  /** The server lists what it has. */
  ghost predicate ListingChosen(t: Tree, path: Path, c: ReaddirChoice) {
    path in t && t[path].Dir? ==> Storage.IsListing(t, path, c.listing)
  }

  /** The entries for the directory itself and its parent, in front of the others. */
  function WithDots(cfg: FsConfig, s: FsState, path: Path, items: seq<ListItem>, self: AttrChoice, up: AttrChoice):
    (FsState, Result<seq<ListItem>>) {
    var (s1, dot) := GetAttributes(cfg, s, path, self);
    if dot.Err? then (s1, Err(dot.error))
    else
      var (s2, dotdot) := GetAttributes(cfg, s1, ParentOrRoot(path), up);
      if dotdot.Err? then (s2, Err(dotdot.error))
      else (s2, Ok([ListItem(".", KindDirectory, dot.value), ListItem("..", KindDirectory, dotdot.value)] + items))
  }

  function ReaddirMiss(cfg: FsConfig, s: FsState, path: Path, c: ReaddirChoice): (FsState, Result<seq<ListItem>>)
    requires |c.puts| == |c.listing|
  {
    if path !in s.tree then (s, Err(NotFound))
    else if !s.tree[path].Dir? then (s, Err(NotADirectory))
    else
      var items := ServerItems(s.tree, path, c.listing);
      var (s1, attr) := GetAttributes(cfg, s, path, c.self);
      if attr.Err? then (s1, Err(attr.error))
      else
        var m1 := CachePut(cfg, s1.cache, path, DirectoryItem(LastName(path), Some(attr.value), Some(c.listing)), false,
                           c.put);
        WithDots(cfg, s1.(cache := PutChildren(cfg, m1, path, items, c.puts)), path, items, c.dot, c.dotdot)
  }

  /** The listing that the cached directory and its cached children give, if they give one. */
  function CachedListing(cfg: FsConfig, m: Entries, path: Path, hit: Option<CacheItem>, nows: seq<nat>):
    (Entries, Option<seq<ListItem>>) {
    if hit.Some? && hit.value.DirectoryItem? && hit.value.children.Some? && |nows| == |hit.value.children.value| then
      LookupChildren(cfg, m, path, hit.value.children.value, nows)
    else (m, None)
  }

  function Readdir(cfg: FsConfig, s: FsState, path: Path, c: ReaddirChoice): (FsState, Result<seq<ListItem>>)
    requires |c.puts| == |c.listing|
  {
    var (m, hit) := CacheGet(cfg, s.cache, path, c.get);
    var (m1, items) := CachedListing(cfg, m, path, hit, c.children);
    if items.Some? then WithDots(cfg, s.(cache := m1), path, items.value, c.dot, c.dotdot)
    else ReaddirMiss(cfg, s.(cache := m1), path, c)
  }
}
