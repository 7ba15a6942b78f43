/** The server's file tree and the operations its storage layer offers. */
module Storage {
  import opened Bytes

  datatype Node = Dir | File(content: seq<byte>) | Link(target: string)

  type Tree = map<Path, Node>

  function Up(path: Path): Path
    requires path != []
  {
    path[..|path| - 1]
  }

  function Last(path: Path): Name
    requires path != []
  {
    path[|path| - 1]
  }

  /** The path can stand in the tree: its parent is there and is a directory. */
  predicate InDir(t: Tree, path: Path) {
    path != [] && Up(path) in t && t[Up(path)].Dir?
  }

  ghost predicate WellFormed(t: Tree) {
    && [] in t && t[[]].Dir?
    && forall p :: p in t && p != [] ==> InDir(t, p)
  }

  function Content(t: Tree, path: Path): seq<byte> {
    if path in t && t[path].File? then t[path].content else []
  }

  function AttrOf(n: Node): Attributes {
    match n
    case Dir => Attributes(0, KindDirectory)
    case File(c) => Attributes(|c|, KindFile)
    case Link(target) => Attributes(|target|, KindSymlink)
  }

  /** The names in a directory. */
  function Names(t: Tree, dir: Path): set<Name> {
    set p | p in t && p != [] && Up(p) == dir :: Last(p)
  }

  // ---- what the operations do to the tree ----

  function ReadFile(t: Tree, path: Path, offset: nat, size: nat): (r: Result<seq<byte>>)
    ensures r.Ok? <==> path in t && t[path].File?
    ensures r.Ok? ==>
              && |r.value| == Max(0, Min(size, |t[path].content| - offset))
              && forall i :: 0 <= i < |r.value| ==> r.value[i] == t[path].content[offset + i]
  {
    if path !in t then Err(NotFound)
    else match t[path]
      case File(c) => Ok(ReadAt(c, offset, size))
      case Dir => Err(IsADirectory)
      case Link(_) => Err(InvalidInput)
  }

  /** A write opens the file, creating it if it is missing, seeks and writes. */
  function WriteFile(t: Tree, path: Path, offset: nat, data: seq<byte>): Result<Tree> {
    if path in t then
      match t[path]
      case File(c) => Ok(t[path := File(WriteAt(c, offset, data))])
      case Dir => Err(IsADirectory)
      case Link(_) => Err(InvalidInput)
    else if InDir(t, path) then Ok(t[path := File(WriteAt([], offset, data))])
    else Err(NotFound)
  }

  /** Cutting a file, or filling it up with zeros, to a size. */
  function SetSize(t: Tree, path: Path, size: nat): (r: Result<Tree>)
    ensures r.Ok? <==> path in t && t[path].File?
    ensures r.Ok? ==>
              && r.value.Keys == t.Keys && r.value[path].File? && |r.value[path].content| == size
              && (forall q :: q in t && q != path ==> r.value[q] == t[q])
              && forall i :: 0 <= i < size ==>
                 r.value[path].content[i] == if i < |t[path].content| then t[path].content[i] else 0
  {
    if path !in t then Err(NotFound)
    else match t[path]
      case File(c) => Ok(t[path := File(if size <= |c| then c[..size] else c + Zeros(size - |c|))])
      case Dir => Err(IsADirectory)
      case Link(_) => Err(InvalidInput)
  }

  function MakeDir(t: Tree, path: Path): Result<Tree> {
    if path in t then Err(AlreadyExists)
    else if InDir(t, path) then Ok(t[path := Dir])
    else Err(NotFound)
  }

  function MakeLink(t: Tree, path: Path, target: string): Result<Tree> {
    if path in t then Err(AlreadyExists)
    else if InDir(t, path) then Ok(t[path := Link(target)])
    else Err(NotFound)
  }

  function Delete(t: Tree, path: Path): Result<Tree> {
    if path !in t then Err(NotFound)
    else if t[path].Dir? && Names(t, path) != {} then Err(DirectoryNotEmpty)
    else Ok(t - {path})
  }

  function GetAttributes(t: Tree, path: Path): Result<Attributes> {
    if path in t then Ok(AttrOf(t[path])) else Err(NotFound)
  }

  /** A listing gives every name of the directory once, in an order nothing promises. */
  ghost predicate IsListing(t: Tree, dir: Path, names: seq<Name>) {
    ListsExactly(names, Names(t, dir))
  }

  ghost predicate ListsExactly(names: seq<Name>, all: set<Name>) {
    && (forall i, j :: 0 <= i < j < |names| ==> names[i] != names[j])
    && (set n | n in names) == all
  }

  lemma ListNothing()
    ensures ListsExactly([], {})
  {
  }

  lemma ListOneMore(names: seq<Name>, all: set<Name>, n: Name)
    requires ListsExactly(names, all) && n !in all
    ensures ListsExactly(names + [n], all + {n})
  {
    assert n !in names;
    assert (names + [n])[|names|] == n;
    forall x | x in names ensures x in names + [n] {
    }
  }

  lemma ListedArePresent(t: Tree, dir: Path, names: seq<Name>, n: Name)
    requires IsListing(t, dir, names) && n in names
    ensures dir + [n] in t
  {
    assert n in (set x | x in names);
    assert n in Names(t, dir);
    var p :| p in t && p != [] && Up(p) == dir && Last(p) == n;
    assert p == dir + [n];
  }

  // ---- rename ----

  /** `path` is `top` or lies below it. */
  predicate Under(top: Path, path: Path) {
    top <= path
  }

  /** Where a path goes when the subtree `from` becomes the subtree `to`. */
  function Rebase(from: Path, to: Path, path: Path): Path
    requires Under(from, path)
  {
    to + path[|from|..]
  }

  /** The tree with the subtree `from` moved to `to`, replacing what was there. */
  function Move(t: Tree, from: Path, to: Path): Tree {
    (map p | p in t && !Under(from, p) && !Under(to, p) :: t[p]) +
    (map q | q in (set p | p in t && Under(from, p) :: Rebase(from, to, p)) && Under(to, q) && Rebase(to, from, q) in t
      :: t[Rebase(to, from, q)])
  }

  /** The rename of the operating system. */
  function Rename(t: Tree, from: Path, to: Path): Result<Tree> {
    if from !in t then Err(NotFound)
    else if from == to then Ok(t)
    else if Under(from, to) then Err(InvalidInput)
    else if !InDir(t, to) then Err(NotFound)
    else if to in t && t[to].Dir? && !t[from].Dir? then Err(IsADirectory)
    else if to in t && !t[to].Dir? && t[from].Dir? then Err(NotADirectory)
    else if to in t && t[to].Dir? && Names(t, to) != {} then Err(DirectoryNotEmpty)
    else Ok(Move(t, from, to))
  }

  /** The index of the last dot, or -1. */
  function LastDot(name: Name): (r: int)
    ensures -1 <= r < |name|
    ensures r >= 0 ==> name[r] == '.' && forall i :: r < i < |name| ==> name[i] != '.'
    ensures r == -1 ==> forall i :: 0 <= i < |name| ==> name[i] != '.'
  {
    if name == [] then -1
    else if name[|name| - 1] == '.' then |name| - 1
    else LastDot(name[..|name| - 1])
  }

  /** The file stem, a dot and the extension ".swap_tmp". */
  function TempName(name: Name): Name {
    (if LastDot(name) <= 0 then name else name[..LastDot(name)]) + "." + ".swap_tmp"
  }

  function TempPath(path: Path): Path
    requires path != []
  {
    Up(path) + [TempName(Last(path))]
  }

  /** The tree that the three renames leave, also when one of them fails. */
  function ExchangeLeaves(t: Tree, a: Path, b: Path): Tree
    requires a != []
  {
    var tmp := TempPath(a);
    match Rename(t, a, tmp)
    case Err(_) => t
    case Ok(t1) =>
      match Rename(t1, b, a)
      case Err(_) => t1
      case Ok(t2) => if Rename(t2, tmp, b).Ok? then Rename(t2, tmp, b).value else t2
  }

  function RenameExchange(t: Tree, a: Path, b: Path): Result<Tree>
    requires a != []
  {
    var tmp := TempPath(a);
    match Rename(t, a, tmp)
    case Err(e) => Err(e)
    case Ok(t1) =>
      match Rename(t1, b, a)
      case Err(e) => Err(e)
      case Ok(t2) => Rename(t2, tmp, b)
  }

  /** The elements of a set in the order of a hash map's iterator. */
  method SomeListing(all: set<Name>) returns (names: seq<Name>)
    ensures ListsExactly(names, all)
  {
    hide ListsExactly;
    ListNothing();
    names := [];
    var left := all;
    ghost var done := {};
    while left != {}
      invariant done !! left && done + left == all && ListsExactly(names, done)
      decreases |left|
    {
      var n :| n in left;
      ListOneMore(names, done, n);
      names, left, done := names + [n], left - {n}, done + {n};
    }
  }

  // ---- the storage itself ----

  class Storage {
    var tree: Tree

    constructor ()
      ensures tree == map[[] := Dir]
    {
      tree := map[[] := Dir];
    }

    method Read(path: Path, offset: nat, size: nat) returns (r: Result<seq<byte>>)
      ensures r == ReadFile(tree, path, offset, size)
    {
      r := ReadFile(tree, path, offset, size);
    }

    method Write(path: Path, offset: nat, data: seq<byte>) returns (r: Result<Attributes>)
      modifies this
      ensures match WriteFile(old(tree), path, offset, data)
              case Ok(t) => tree == t && r == Ok(AttrOf(t[path]))
              case Err(e) => tree == old(tree) && r == Err(e)
    {
      if path in tree {
        if tree[path].Dir? {
          return Err(IsADirectory);
        }
        if tree[path].Link? {
          return Err(InvalidInput);
        }
      } else if !InDir(tree, path) {
        return Err(NotFound);
      }
      tree := tree[path := File(WriteAt(Content(tree, path), offset, data))];
      r := Ok(AttrOf(tree[path]));
    }

    method Resize(path: Path, size: nat) returns (r: Result<Attributes>)
      modifies this
      ensures match SetSize(old(tree), path, size)
              case Ok(t) => tree == t && r == Ok(AttrOf(t[path]))
              case Err(e) => tree == old(tree) && r == Err(e)
    {
      match SetSize(tree, path, size)
      case Ok(t) =>
        tree := t;
        r := Ok(AttrOf(t[path]));
      case Err(e) =>
        r := Err(e);
    }

    method Mkdir(path: Path) returns (r: Result<Attributes>)
      modifies this
      ensures match MakeDir(old(tree), path)
              case Ok(t) => tree == t && r == Ok(AttrOf(t[path]))
              case Err(e) => tree == old(tree) && r == Err(e)
    {
      if path in tree {
        return Err(AlreadyExists);
      }
      if !InDir(tree, path) {
        return Err(NotFound);
      }
      tree := tree[path := Dir];
      r := Ok(AttrOf(Dir));
    }

    method CreateSymlink(path: Path, target: string) returns (r: Result<Attributes>)
      modifies this
      ensures match MakeLink(old(tree), path, target)
              case Ok(t) => tree == t && r == Ok(AttrOf(t[path]))
              case Err(e) => tree == old(tree) && r == Err(e)
    {
      if path in tree {
        return Err(AlreadyExists);
      }
      if !InDir(tree, path) {
        return Err(NotFound);
      }
      tree := tree[path := Link(target)];
      r := Ok(AttrOf(Link(target)));
    }

    method Remove(path: Path) returns (r: Result<()>)
      modifies this
      ensures match Delete(old(tree), path)
              case Ok(t) => tree == t && r == Ok(())
              case Err(e) => tree == old(tree) && r == Err(e)
    {
      if path !in tree {
        return Err(NotFound);
      }
      if tree[path].Dir? && Names(tree, path) != {} {
        return Err(DirectoryNotEmpty);
      }
      tree := tree - {path};
      r := Ok(());
    }

    method Attributes(path: Path) returns (r: Result<Attributes>)
      ensures r == GetAttributes(tree, path)
    {
      r := GetAttributes(tree, path);
    }

    /** The names of a directory in the order of the file system and a hash map. */
    method List(path: Path) returns (r: Result<seq<Name>>)
      ensures path !in tree ==> r == Err(NotFound)
      ensures path in tree && !tree[path].Dir? ==> r == Err(NotADirectory)
      ensures path in tree && tree[path].Dir? ==> r.Ok? && IsListing(tree, path, r.value)
    {
      if path !in tree {
        return Err(NotFound);
      }
      if !tree[path].Dir? {
        return Err(NotADirectory);
      }
      var names := SomeListing(Names(tree, path));
      r := Ok(names);
    }

    /** Three renames through a temporary name; the first that fails ends it. */
    method Exchange(a: Path, b: Path) returns (r: Result<()>)
      requires a != []
      modifies this
      ensures match RenameExchange(old(tree), a, b)
              case Ok(t) => tree == t && r == Ok(())
              case Err(e) => tree == ExchangeLeaves(old(tree), a, b) && r == Err(e)
    {
      var tmp := TempPath(a);
      r := RenamePath(a, tmp);
      if r.Err? {
        return;
      }
      r := RenamePath(b, a);
      if r.Err? {
        return;
      }
      r := RenamePath(tmp, b);
    }

    method RenamePath(from: Path, to: Path) returns (r: Result<()>)
      modifies this
      ensures match Rename(old(tree), from, to)
              case Ok(t) => tree == t && r == Ok(())
              case Err(e) => tree == old(tree) && r == Err(e)
    {
      match Rename(tree, from, to)
      case Ok(t) =>
        tree := t;
        r := Ok(());
      case Err(e) =>
        r := Err(e);
    }
  }
}
