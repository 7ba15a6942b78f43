/** Directory listings in the cache stay exactly the server's through every run of the
    calls that create, remove, list and look up, with any evictions and expiries. */
module Listing {
  import opened Bytes
  import opened PagedFile
  import opened PageMerge
  import opened Cache
  import opened FsModel
  import opened Runs
  import Storage

  /** A cached item has the kind and name of what the server holds at its path, and if it
      knows its children they are exactly the server's names. */
  ghost predicate ItemCoherent(t: Tree, q: Path, item: CacheItem) {
    && q in t
    && KindOf(item) == Storage.AttrOf(t[q]).kind
    && item.name == LastName(q)
    && (item.DirectoryItem? && item.children.Some? ==> Storage.IsListing(t, q, item.children.value))
  }

  ghost predicate EntriesCoherent(t: Tree, m: Entries) {
    forall q :: q in m ==> ItemCoherent(t, q, m[q].item)
  }

  ghost predicate Coherent(cfg: FsConfig, s: FsState) {
    && Storage.WellFormed(s.tree)
    && EntriesCoherent(s.tree, s.cache)
    && (!cfg.cached ==> s.cache == map[])
  }

  // ---- the cache operations on a fixed tree ----

  lemma UpdateCoherent(lim: Limits, t: Tree, q: Path, was: CacheItem, item: CacheItem, order: seq<nat>)
    requires ItemCoherent(t, q, was) && ItemCoherent(t, q, item)
    ensures ItemCoherent(t, q, UpdateItem(lim, was, item, order))
  {
    hide PageMerge.Merge, Storage.IsListing;
  }

  lemma PutCoherent(cfg: FsConfig, t: Tree, m: Entries, key: Path, item: CacheItem, invalidate: bool, c: Choice)
    requires EntriesCoherent(t, m) && ItemCoherent(t, key, item)
    ensures EntriesCoherent(t, CachePut(cfg, m, key, item, invalidate, c))
  {
    hide Put, UpdateItem, Storage.IsListing;
    if cfg.cached {
      if key in m {
        UpdateCoherent(cfg.cache.limits, t, key, m[key].item, item, c.order);
      }
      forall q | q in Put(cfg.cache, m, key, item, invalidate, c)
        ensures ItemCoherent(t, q, Put(cfg.cache, m, key, item, invalidate, c)[q].item)
      {
        PutMeaning(cfg.cache, m, key, item, invalidate, c, q);
      }
    }
  }

  lemma GetCoherent(cfg: FsConfig, t: Tree, m: Entries, key: Path, now: nat)
    requires EntriesCoherent(t, m)
    ensures var (m', hit) := CacheGet(cfg, m, key, now);
            && EntriesCoherent(t, m')
            && (hit.Some? ==> ItemCoherent(t, key, hit.value))
  {
    hide ItemCoherent;
  }

  lemma InsertCoherent(cfg: FsConfig, t: Tree, m: Entries, key: Path, item: CacheItem, c: Choice)
    requires EntriesCoherent(t, m - Ancestors(key) - {key}) && ItemCoherent(t, key, item)
    ensures EntriesCoherent(t, PutNew(cfg.cache, m, key, item, c))
  {
    hide ItemCoherent, Ancestors;
    var room := MakeRoom(cfg.cache, m - Ancestors(key), c.victim);
    forall q | q in room && q != key ensures ItemCoherent(t, q, room[q].item) {
      assert q in m - Ancestors(key) - {key};
    }
  }

  lemma AttrItemCoherent(t: Tree, q: Path)
    requires q in t
    ensures ItemCoherent(t, q, AttrItem(LastName(q), Storage.AttrOf(t[q])))
  {
  }

  // ---- growing and shrinking the tree ----

  lemma NamesElsewhere(t: Tree, t': Tree, p: Path, d: Path)
    requires p != [] && d != Storage.Up(p) && forall q :: q != p ==> (q in t <==> q in t')
    ensures Storage.Names(t', d) == Storage.Names(t, d)
  {
  }

  /** What was coherent stays so away from a changed path and its parent. */
  lemma ElsewhereCoherent(t: Tree, t': Tree, p: Path, q: Path, item: CacheItem)
    requires ItemCoherent(t, q, item) && p != [] && q != p && q != Storage.Up(p)
    requires forall x :: x != p ==> (x in t <==> x in t') && (x in t ==> t[x] == t'[x])
    ensures ItemCoherent(t', q, item)
  {
    NamesElsewhere(t, t', p, q);
  }

  lemma ChangedEntries(t: Tree, t': Tree, m: Entries, p: Path)
    requires EntriesCoherent(t, m) && p != []
    requires forall x :: x != p ==> (x in t <==> x in t') && (x in t ==> t[x] == t'[x])
    ensures EntriesCoherent(t', m - Ancestors(p) - {p})
  {
    hide ItemCoherent, Ancestors;
    AncestorsArePrefixes(p);
    assert Storage.Up(p) < p;
    forall q | q in m - Ancestors(p) - {p} ensures ItemCoherent(t', q, m[q].item) {
      ElsewhereCoherent(t, t', p, q, m[q].item);
    }
  }

  lemma AddKeepsWellFormed(t: Tree, p: Path, n: Storage.Node)
    requires Storage.WellFormed(t) && Storage.InDir(t, p)
    requires p in t ==> !t[p].Dir? || n.Dir?
    ensures Storage.WellFormed(t[p := n])
  {
    var t' := t[p := n];
    forall q | q in t' && q != [] ensures Storage.InDir(t', q) {
      if q != p {
        assert Storage.InDir(t, q);
      }
    }
  }

  lemma NameListed(t: Tree, q: Path)
    requires q in t && q != []
    ensures Storage.Last(q) in Storage.Names(t, Storage.Up(q))
  {
  }

  lemma DeleteKeepsWellFormed(t: Tree, p: Path)
    requires Storage.WellFormed(t) && p != [] && p in t && (t[p].Dir? ==> Storage.Names(t, p) == {})
    ensures Storage.WellFormed(t - {p})
  {
    forall q | q in t && q != p && q != [] ensures Storage.Up(q) != p {
      assert Storage.InDir(t, q);
      NameListed(t, q);
    }
  }

  lemma NoNamesBelowNothing(t: Tree, p: Path, n: Storage.Node)
    requires Storage.WellFormed(t) && p !in t
    ensures Storage.Names(t[p := n], p) == {}
  {
    forall q | q in t[p := n] && q != [] ensures Storage.Up(q) != p {
      if q != p {
        assert Storage.InDir(t, q);
      }
    }
  }

  // ---- the calls ----

  lemma AddCoherent(cfg: FsConfig, s: FsState, p: Path, n: Storage.Node, item: CacheItem, c: Choice)
    requires Coherent(cfg, s) && Storage.InDir(s.tree, p) && (p in s.tree ==> s.tree[p].File? && n.File?)
    requires ItemCoherent(s.tree[p := n], p, item)
    ensures Coherent(cfg, s.(tree := s.tree[p := n], cache := CachePutNew(cfg, s.cache, p, item, c)))
  {
    hide ItemCoherent, PutNew;
    AddKeepsWellFormed(s.tree, p, n);
    ChangedEntries(s.tree, s.tree[p := n], s.cache, p);
    InsertCoherent(cfg, s.tree[p := n], s.cache, p, item, c);
  }

  lemma CreateFileCoherent(cfg: FsConfig, s: FsState, path: Path, offset: nat, data: seq<byte>, c: Choice)
    requires Coherent(cfg, s)
    ensures Coherent(cfg, CreateFile(cfg, s, path, offset, data, c).0)
  {
    hide EntriesCoherent, CachePutNew;
    var r := Storage.WriteFile(s.tree, path, offset, data);
    if r.Ok? {
      var n := r.value[path];
      assert path in s.tree && path != [] ==> Storage.InDir(s.tree, path);
      AddCoherent(cfg, s, path, n, FileItem(LastName(path), Some(Storage.AttrOf(n)), map[]), c);
    }
  }

  lemma MkdirCoherent(cfg: FsConfig, s: FsState, path: Path, c: Choice)
    requires Coherent(cfg, s)
    ensures Coherent(cfg, Mkdir(cfg, s, path, c).0)
  {
    hide EntriesCoherent, CachePutNew;
    if Storage.MakeDir(s.tree, path).Ok? {
      NoNamesBelowNothing(s.tree, path, Storage.Dir);
      AddCoherent(cfg, s, path, Storage.Dir, DirectoryItem(LastName(path), Some(Storage.AttrOf(Storage.Dir)), Some([])),
                  c);
    }
  }

  lemma CreateSymlinkCoherent(cfg: FsConfig, s: FsState, path: Path, target: string, c: Choice)
    requires Coherent(cfg, s)
    ensures Coherent(cfg, CreateSymlink(cfg, s, path, target, c).0)
  {
    hide EntriesCoherent, CachePutNew;
    if Storage.MakeLink(s.tree, path, target).Ok? {
      var n := Storage.Link(target);
      AddCoherent(cfg, s, path, n, SymlinkItem(LastName(path), Some(Storage.AttrOf(n)), Some(target)), c);
    }
  }

  lemma RemoveCoherent(cfg: FsConfig, s: FsState, path: Path)
    requires Coherent(cfg, s) && path != []
    ensures Coherent(cfg, RemovePath(cfg, s, path).0)
  {
    hide ItemCoherent, Storage.Names, Ancestors;
    if Storage.Delete(s.tree, path).Ok? {
      DeleteKeepsWellFormed(s.tree, path);
      ChangedEntries(s.tree, s.tree - {path}, s.cache, path);
      assert s.cache - {path} - Ancestors(path) == s.cache - Ancestors(path) - {path};
    }
  }

  lemma GetAttributesCoherent(cfg: FsConfig, s: FsState, path: Path, c: AttrChoice)
    requires Coherent(cfg, s)
    ensures var (s', r) := GetAttributes(cfg, s, path, c);
            Coherent(cfg, s') && s'.tree == s.tree && (path in s.tree ==> r.Ok?)
  {
    hide ItemCoherent, Put;
    GetCoherent(cfg, s.tree, s.cache, path, c.get);
    if path in s.tree && path != [] {
      var (m, _) := CacheGet(cfg, s.cache, path, c.get);
      AttrItemCoherent(s.tree, path);
      PutCoherent(cfg, s.tree, m, path, AttrItem(LastName(path), Storage.AttrOf(s.tree[path])), false, c.put);
    }
  }

  // ---- readdir ----

  /** The server's children, each once, each with the server's kind. */
  ghost predicate ExactListing(t: Tree, dir: Path, items: seq<ListItem>) {
    && Storage.IsListing(t, dir, ItemNames(items))
    && KindsRight(t, dir, items)
  }

  ghost predicate KindsRight(t: Tree, dir: Path, items: seq<ListItem>) {
    forall i :: 0 <= i < |items| ==>
                  dir + [items[i].name] in t && items[i].kind == Storage.AttrOf(t[dir + [items[i].name]]).kind
  }

  /** The entry of the directory itself and that of its parent come first, with their kinds. */
  ghost predicate DotsRight(t: Tree, dir: Path, items: seq<ListItem>) {
    && |items| >= 2 && items[0].name == "." && items[1].name == ".."
    && dir in t && items[0].kind == Storage.AttrOf(t[dir]).kind
    && ParentOrRoot(dir) in t && items[1].kind == Storage.AttrOf(t[ParentOrRoot(dir)]).kind
  }

  lemma ParentIsDir(t: Tree, path: Path)
    requires Storage.WellFormed(t) && path in t && t[path].Dir?
    ensures ParentOrRoot(path) in t && t[ParentOrRoot(path)].Dir?
  {
    if path != [] {
      assert Storage.InDir(t, path);
    }
  }

  lemma {:induction false} LookupCoherent(cfg: FsConfig, t: Tree, m: Entries, dir: Path, names: seq<Name>,
                                          nows: seq<nat>)
    requires |nows| == |names| && EntriesCoherent(t, m)
    ensures var (m', items) := LookupChildren(cfg, m, dir, names, nows);
            && EntriesCoherent(t, m')
            && (items.Some? ==> ItemNames(items.value) == names && KindsRight(t, dir, items.value))
    decreases |names|
  {
    hide EntriesCoherent, CacheGet;
    if names != [] {
      GetCoherent(cfg, t, m, dir + [names[0]], nows[0]);
      var (m1, hit) := CacheGet(cfg, m, dir + [names[0]], nows[0]);
      if ItemAttributes(hit).Some? {
        assert hit.value.name == names[0];
        LookupCoherent(cfg, t, m1, dir, names[1..], nows[1..]);
        var (m2, rest) := LookupChildren(cfg, m1, dir, names[1..], nows[1..]);
        if rest.Some? {
          var item := ListItem(hit.value.name, KindOf(hit.value), hit.value.attributes.value);
          assert ItemNames([item] + rest.value) == [item.name] + ItemNames(rest.value);
        }
      }
    }
  }

  lemma WithDotsCoherent(cfg: FsConfig, s: FsState, path: Path, items: seq<ListItem>, self: AttrChoice, up: AttrChoice)
    requires Coherent(cfg, s) && path in s.tree && s.tree[path].Dir?
    ensures var (s', r) := WithDots(cfg, s, path, items, self, up);
            && Coherent(cfg, s') && s'.tree == s.tree
            && r.Ok? && |r.value| >= 2 && r.value[2..] == items
            && DotsRight(s.tree, path, r.value)
  {
    hide GetAttributes, EntriesCoherent, Storage.WellFormed;
    ParentIsDir(s.tree, path);
    GetAttributesCoherent(cfg, s, path, self);
    GetAttributesCoherent(cfg, GetAttributes(cfg, s, path, self).0, ParentOrRoot(path), up);
  }

  lemma {:induction false} PutChildrenCoherent(cfg: FsConfig, t: Tree, m: Entries, dir: Path, items: seq<ListItem>,
                                               cs: seq<Choice>)
    requires |cs| == |items| && EntriesCoherent(t, m)
    requires forall i :: 0 <= i < |items| ==>
                           dir + [items[i].name] in t && items[i].attributes == Storage.AttrOf(t[dir + [items[i].name]])
    ensures EntriesCoherent(t, PutChildren(cfg, m, dir, items, cs))
    ensures !cfg.cached ==> PutChildren(cfg, m, dir, items, cs) == m
    decreases |items|
  {
    hide EntriesCoherent, ItemCoherent, Put;
    if items != [] {
      var child := dir + [items[0].name];
      AttrItemCoherent(t, child);
      PutCoherent(cfg, t, m, child, AttrItem(items[0].name, items[0].attributes), false, cs[0]);
      PutChildrenCoherent(cfg, t, CachePut(cfg, m, child, AttrItem(items[0].name, items[0].attributes), false, cs[0]),
                          dir, items[1..], cs[1..]);
    }
  }

  lemma ListedChildren(t: Tree, dir: Path, names: seq<Name>)
    requires Storage.IsListing(t, dir, names)
    ensures ExactListing(t, dir, ServerItems(t, dir, names))
    ensures var items := ServerItems(t, dir, names);
            forall i :: 0 <= i < |items| ==>
              dir + [items[i].name] in t && items[i].attributes == Storage.AttrOf(t[dir + [items[i].name]])
  {
    var items := ServerItems(t, dir, names);
    assert ItemNames(items) == names;
    forall i | 0 <= i < |items| ensures dir + [names[i]] in t {
      assert names[i] in (set n | n in names);
      assert names[i] in Storage.Names(t, dir);
      var p :| p in t && p != [] && Storage.Up(p) == dir && Storage.Last(p) == names[i];
      assert p == dir + [names[i]];
    }
  }

  lemma ReaddirMissCoherent(cfg: FsConfig, s: FsState, path: Path, c: ReaddirChoice)
    requires Coherent(cfg, s) && |c.puts| == |c.listing|
    requires path in s.tree && s.tree[path].Dir? ==> Storage.IsListing(s.tree, path, c.listing)
    ensures var (s', r) := ReaddirMiss(cfg, s, path, c);
            && Coherent(cfg, s') && s'.tree == s.tree
            && (r.Ok? <==> path in s.tree && s.tree[path].Dir?)
            && (r.Ok? ==> DotsRight(s.tree, path, r.value) && ExactListing(s.tree, path, r.value[2..]))
  {
    hide GetAttributes, PutChildren, WithDots, EntriesCoherent, ExactListing, DotsRight, Put, Storage.IsListing;
    if path in s.tree && s.tree[path].Dir? {
      var items := ServerItems(s.tree, path, c.listing);
      ListedChildren(s.tree, path, c.listing);
      GetAttributesCoherent(cfg, s, path, c.self);
      var (s1, attr) := GetAttributes(cfg, s, path, c.self);
      var dir := DirectoryItem(LastName(path), Some(attr.value), Some(c.listing));
      PutCoherent(cfg, s.tree, s1.cache, path, dir, false, c.put);
      var m1 := CachePut(cfg, s1.cache, path, dir, false, c.put);
      PutChildrenCoherent(cfg, s.tree, m1, path, items, c.puts);
      WithDotsCoherent(cfg, s1.(cache := PutChildren(cfg, m1, path, items, c.puts)), path, items, c.dot, c.dotdot);
    }
  }

  lemma CachedListingCoherent(cfg: FsConfig, t: Tree, m: Entries, path: Path, hit: Option<CacheItem>, nows: seq<nat>)
    requires EntriesCoherent(t, m) && (hit.Some? ==> ItemCoherent(t, path, hit.value))
    ensures var (m', items) := CachedListing(cfg, m, path, hit, nows);
            && EntriesCoherent(t, m') && (!cfg.cached && m == map[] ==> m' == map[])
            && (items.Some? ==> path in t && t[path].Dir? && ExactListing(t, path, items.value))
  {
    hide LookupChildren, Storage.IsListing, EntriesCoherent;
    if hit.Some? && hit.value.DirectoryItem? && hit.value.children.Some? && |nows| == |hit.value.children.value| {
      LookupCoherent(cfg, t, m, path, hit.value.children.value, nows);
      LookupUncached(cfg, m, path, hit.value.children.value, nows);
    }
  }

  lemma LookupUncached(cfg: FsConfig, m: Entries, dir: Path, names: seq<Name>, nows: seq<nat>)
    requires |nows| == |names|
    ensures !cfg.cached ==> LookupChildren(cfg, m, dir, names, nows).0 == m
  {
  }

  /** Whether the cache answers or the server, with any evictions and expiries in between, a
      readdir gives the two dot entries and then exactly the server's listing. */
  lemma ReaddirExact(cfg: FsConfig, s: FsState, path: Path, c: ReaddirChoice)
    requires Coherent(cfg, s) && |c.puts| == |c.listing|
    requires path in s.tree && s.tree[path].Dir? ==> Storage.IsListing(s.tree, path, c.listing)
    ensures var (s', r) := Readdir(cfg, s, path, c);
            && Coherent(cfg, s') && s'.tree == s.tree
            && (r.Ok? <==> path in s.tree && s.tree[path].Dir?)
            && (r.Ok? ==> DotsRight(s.tree, path, r.value) && ExactListing(s.tree, path, r.value[2..]))
  {
    hide WithDots, ReaddirMiss, CachedListing, EntriesCoherent, ExactListing, ItemCoherent, DotsRight,
      Storage.IsListing, CacheGet;
    GetCoherent(cfg, s.tree, s.cache, path, c.get);
    GetUncached(cfg, s.cache, path, c.get);
    var (m, hit) := CacheGet(cfg, s.cache, path, c.get);
    CachedListingCoherent(cfg, s.tree, m, path, hit, c.children);
    var (m1, items) := CachedListing(cfg, m, path, hit, c.children);
    if items.Some? {
      WithDotsCoherent(cfg, s.(cache := m1), path, items.value, c.dot, c.dotdot);
    } else {
      ReaddirMissCoherent(cfg, s.(cache := m1), path, c);
    }
  }

  lemma GetUncached(cfg: FsConfig, m: Entries, path: Path, now: nat)
    ensures !cfg.cached ==> CacheGet(cfg, m, path, now).0 == m
  {
  }

  // ---- whole runs ----

  /** The calls that create, remove, list and look up; the front end never removes the root, and
      the server lists what it has. */
  ghost predicate ListingOp(s: FsState, op: Op) {
    match op
    case CreateOp(_, _, _, _) => true
    case MkdirOp(_, _) => true
    case SymlinkOp(_, _, _) => true
    case RemoveOp(path) => path != []
    case ReaddirOp(path, c) => ListingChosen(s.tree, path, c)
    case AttrOp(_, _) => true
    case DropOp(_) => true
    case _ => false
  }

  ghost predicate ListingRun(cfg: FsConfig, s: FsState, ops: seq<Op>)
    decreases |ops|
  {
    ops == [] || (ListingOp(s, ops[0]) && ListingRun(cfg, Step(cfg, s, ops[0]), ops[1..]))
  }

  lemma StepCoherent(cfg: FsConfig, s: FsState, op: Op)
    requires Coherent(cfg, s) && ListingOp(s, op)
    ensures Coherent(cfg, Step(cfg, s, op))
  {
    hide CreateFile, Mkdir, CreateSymlink, RemovePath, Readdir, GetAttributes, ItemCoherent, Storage.IsListing;
    match op
    case CreateOp(path, offset, data, c) => CreateFileCoherent(cfg, s, path, offset, data, c);
    case MkdirOp(path, c) => MkdirCoherent(cfg, s, path, c);
    case SymlinkOp(path, target, c) => CreateSymlinkCoherent(cfg, s, path, target, c);
    case RemoveOp(path) => RemoveCoherent(cfg, s, path);
    case ReaddirOp(path, c) =>
      if |c.puts| == |c.listing| {
        ReaddirExact(cfg, s, path, c);
      }
    case AttrOp(path, c) => GetAttributesCoherent(cfg, s, path, c);
    case DropOp(keys) =>
  }

  lemma StartCoherent(cfg: FsConfig, t: Tree)
    requires Storage.WellFormed(t)
    ensures Coherent(cfg, Start(t))
  {
  }

  /** In every run, every cached directory whose children are known lists exactly the
      server's names. */
  lemma {:induction false} ListingCoherence(cfg: FsConfig, s: FsState, ops: seq<Op>)
    requires Coherent(cfg, s) && ListingRun(cfg, s, ops)
    ensures Coherent(cfg, Run(cfg, s, ops))
    decreases |ops|
  {
    hide Step, ListingOp, Coherent;
    if ops != [] {
      StepCoherent(cfg, s, ops[0]);
      ListingCoherence(cfg, Step(cfg, s, ops[0]), ops[1..]);
    }
  }

  /** After any such run of a client that knew nothing, a readdir gives the two dot entries and
      then exactly the server's listing, and the run can go on. */
  lemma ListingsExactFromStart(cfg: FsConfig, t: Tree, ops: seq<Op>, path: Path, c: ReaddirChoice)
    requires Storage.WellFormed(t) && ListingRun(cfg, Start(t), ops)
    requires |c.puts| == |c.listing| && ListingChosen(Run(cfg, Start(t), ops).tree, path, c)
    ensures var s := Run(cfg, Start(t), ops);
            var (s', r) := Readdir(cfg, s, path, c);
            && Coherent(cfg, s') && s'.tree == s.tree
            && (r.Ok? <==> path in s.tree && s.tree[path].Dir?)
            && (r.Ok? ==> DotsRight(s.tree, path, r.value) && ExactListing(s.tree, path, r.value[2..]))
  {
    hide Run, ListingRun, Coherent, Readdir, ExactListing, Storage.WellFormed, Storage.IsListing;
    StartCoherent(cfg, t);
    ListingCoherence(cfg, Start(t), ops);
    ReaddirExact(cfg, Run(cfg, Start(t), ops), path, c);
  }

  // ---- where coherence ends: uploads that create ----

  predicate ListingKnown(m: Entries, dir: Path) {
    dir in m && m[dir].item.DirectoryItem? && m[dir].item.children.Some?
  }

  lemma ChunkItemCoherent(cfg: FsConfig, t: Tree, u: Upload)
    requires u.path in t && t[u.path].File?
    ensures ItemCoherent(t, u.path, ChunkItem(cfg, u.path, u.offset, u.data))
  {
    hide WriteContent;
  }

  lemma UploadShape(cfg: FsConfig, s: FsState, u: Upload, c: Choice)
    requires Coherent(cfg, s) && Storage.WriteFile(s.tree, u.path, u.offset, u.data).Ok?
    ensures var s' := UploadOne(cfg, s, u, c).0;
            && u.path != [] && u.path in s'.tree && s'.tree[u.path].File?
            && (u.path in s.tree ==> s.tree[u.path].File?)
            && (forall x :: x != u.path ==>
                (x in s.tree <==> x in s'.tree) && (x in s.tree ==> s.tree[x] == s'.tree[x]))
            && Storage.WellFormed(s'.tree)
            && s'.cache == CachePut(cfg, s.cache, u.path, ChunkItem(cfg, u.path, u.offset, u.data), true, c)
  {
    hide EntriesCoherent, Put, WriteContent;
    var t := Storage.WriteFile(s.tree, u.path, u.offset, u.data).value;
    assert u.path in s.tree ==> u.path == [] || Storage.InDir(s.tree, u.path);
    AddKeepsWellFormed(s.tree, u.path, t[u.path]);
  }

  /** Every entry behind an upload is coherent, except perhaps the directory's. */
  lemma UploadElsewhere(cfg: FsConfig, s: FsState, u: Upload, c: Choice, q: Path)
    requires Coherent(cfg, s) && Storage.WriteFile(s.tree, u.path, u.offset, u.data).Ok?
    requires var s' := UploadOne(cfg, s, u, c).0;
             && q in s'.cache && u.path != []
             && (u.path in s.tree || q != Storage.Up(u.path) || !ListingKnown(s'.cache, q))
    ensures var s' := UploadOne(cfg, s, u, c).0; ItemCoherent(s'.tree, q, s'.cache[q].item)
  {
    hide Put, UpdateItem, Storage.IsListing, Storage.WellFormed, ItemCoherent, ChunkItem;
    UploadShape(cfg, s, u, c);
    var s' := UploadOne(cfg, s, u, c).0;
    var item := ChunkItem(cfg, u.path, u.offset, u.data);
    if cfg.cached {
      PutMeaning(cfg.cache, s.cache, u.path, item, true, c, q);
    }
    if q != u.path {
      WriteElsewhere(s.tree, s'.tree, u.path, q, s.cache[q].item);
    } else {
      UploadAtPath(cfg, s, u, c);
    }
  }

  lemma UploadAtPath(cfg: FsConfig, s: FsState, u: Upload, c: Choice)
    requires Coherent(cfg, s) && Storage.WriteFile(s.tree, u.path, u.offset, u.data).Ok?
    ensures var s' := UploadOne(cfg, s, u, c).0;
            u.path in s'.cache ==> ItemCoherent(s'.tree, u.path, s'.cache[u.path].item)
  {
    hide Put, UpdateItem, Storage.IsListing, Storage.WellFormed, ChunkItem, ItemCoherent;
    UploadShape(cfg, s, u, c);
    var s', item := UploadOne(cfg, s, u, c).0, ChunkItem(cfg, u.path, u.offset, u.data);
    ChunkItemCoherent(cfg, s'.tree, u);
    if cfg.cached && u.path in s'.cache {
      PutMeaning(cfg.cache, s.cache, u.path, item, true, c, u.path);
      if u.path in s.cache {
        WriteElsewhere(s.tree, s'.tree, u.path, u.path, s.cache[u.path].item);
        UpdateCoherent(cfg.cache.limits, s'.tree, u.path, s.cache[u.path].item, item, c.order);
        ForgottenCoherent(s'.tree, u.path, UpdateItem(cfg.cache.limits, s.cache[u.path].item, item, c.order));
      }
    }
  }

  lemma ForgottenCoherent(t: Tree, q: Path, item: CacheItem)
    requires ItemCoherent(t, q, item)
    ensures ItemCoherent(t, q, item.(attributes := None))
  {
  }

  /** A whole upload touches none of the cached ancestors of its path. It keeps the cache
      coherent exactly if the file was there already, or the cache knows no listing of its
      directory when the upload is over. */
  lemma UploadCoherentIff(cfg: FsConfig, s: FsState, u: Upload, c: Choice)
    requires Coherent(cfg, s) && Storage.WriteFile(s.tree, u.path, u.offset, u.data).Ok?
    ensures var s' := UploadOne(cfg, s, u, c).0;
            Coherent(cfg, s') <==> u.path in s.tree || !ListingKnown(s'.cache, Storage.Up(u.path))
  {
    hide UploadOne, Storage.WellFormed, ItemCoherent, CachePut, ChunkItem, ListingKnown;
    UploadShape(cfg, s, u, c);
    UncachedStays(cfg, s, u, c);
    var s', up := UploadOne(cfg, s, u, c).0, Storage.Up(u.path);
    if u.path in s.tree || !ListingKnown(s'.cache, up) {
      forall q | q in s'.cache ensures ItemCoherent(s'.tree, q, s'.cache[q].item) {
        UploadElsewhere(cfg, s, u, c, q);
      }
    } else {
      StaleListing(cfg, s, u, c);
    }
  }

  lemma UncachedStays(cfg: FsConfig, s: FsState, u: Upload, c: Choice)
    ensures !cfg.cached ==> UploadOne(cfg, s, u, c).0.cache == s.cache
  {
  }

  lemma StaleListing(cfg: FsConfig, s: FsState, u: Upload, c: Choice)
    requires Coherent(cfg, s) && Storage.WriteFile(s.tree, u.path, u.offset, u.data).Ok?
    requires u.path != [] && u.path !in s.tree && ListingKnown(UploadOne(cfg, s, u, c).0.cache, Storage.Up(u.path))
    ensures !Coherent(cfg, UploadOne(cfg, s, u, c).0)
  {
    hide Put, UpdateItem, Storage.WellFormed, ChunkItem;
    UploadShape(cfg, s, u, c);
    var s', up := UploadOne(cfg, s, u, c).0, Storage.Up(u.path);
    assert up != u.path by {
      assert |up| != |u.path|;
    }
    if cfg.cached {
      PutMeaning(cfg.cache, s.cache, u.path, ChunkItem(cfg, u.path, u.offset, u.data), true, c, up);
    }
    var names := s'.cache[up].item.children.value;
    NewName(s.tree, s'.tree, u.path);
    assert Storage.IsListing(s.tree, up, names);
    assert !Storage.IsListing(s'.tree, up, names);
    assert !ItemCoherent(s'.tree, up, s'.cache[up].item);
  }

  lemma NewName(t: Tree, t': Tree, p: Path)
    requires p != [] && p !in t && p in t'
    ensures Storage.Last(p) in Storage.Names(t', Storage.Up(p)) && Storage.Last(p) !in Storage.Names(t, Storage.Up(p))
  {
    forall q | q in t && q != [] && Storage.Up(q) == Storage.Up(p) ensures Storage.Last(q) != Storage.Last(p) {
      assert q == Storage.Up(q) + [Storage.Last(q)] && p == Storage.Up(p) + [Storage.Last(p)];
    }
  }

  lemma WriteElsewhere(t: Tree, t': Tree, p: Path, q: Path, item: CacheItem)
    requires ItemCoherent(t, q, item) && p != [] && p in t' && t'[p].File?
    requires forall x :: x != p ==> (x in t <==> x in t') && (x in t ==> t[x] == t'[x])
    requires p in t ==> t[p].File?
    requires p in t || q != Storage.Up(p) || !item.DirectoryItem? || item.children.None?
    ensures ItemCoherent(t', q, item)
  {
    if q != Storage.Up(p) {
      NamesElsewhere(t, t', p, q);
    } else if p in t {
      assert t'.Keys == t.Keys;
      assert Storage.Names(t', q) == Storage.Names(t, q);
    }
  }
}
