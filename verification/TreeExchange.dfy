/** The exchange of two subtrees by three renames. */
module TreeExchange {
  import opened Bytes
  import opened Storage

  predicate Unrelated(a: Path, b: Path) {
    !Under(a, b) && !Under(b, a)
  }

  /** Paths below `a` trade places with paths below `b`, all others stay. */
  function SwapPath(a: Path, b: Path, p: Path): Path {
    if Under(a, p) then Rebase(a, b, p) else if Under(b, p) then Rebase(b, a, p) else p
  }

  function Swap(t: Tree, a: Path, b: Path): Tree {
    map q | q in (set p | p in t :: SwapPath(a, b, p)) && SwapPath(a, b, q) in t :: t[SwapPath(a, b, q)]
  }

  lemma UnderUp(a: Path, p: Path)
    requires p != []
    ensures Under(a, Up(p)) ==> Under(a, p)
    ensures Under(a, p) && a != p ==> Under(a, Up(p))
  {
  }

  lemma UnderBoth(a: Path, b: Path, p: Path)
    requires Under(a, p) && Under(b, p)
    ensures !Unrelated(a, b)
  {
    if |a| <= |b| {
      assert b[..|a|] == p[..|a|] == a;
    } else {
      assert a[..|b|] == p[..|b|] == b;
    }
  }

  lemma SwapPathTwice(a: Path, b: Path, p: Path)
    requires Unrelated(a, b)
    ensures SwapPath(a, b, SwapPath(a, b, p)) == p
  {
    if Under(a, p) {
      assert p == a + p[|a|..];
      if Under(a, b + p[|a|..]) {
        UnderBoth(a, b, b + p[|a|..]);
      }
    } else if Under(b, p) {
      assert p == b + p[|b|..];
    }
  }

  lemma SwapAt(t: Tree, a: Path, b: Path, q: Path)
    requires Unrelated(a, b)
    ensures q in Swap(t, a, b) <==> SwapPath(a, b, q) in t
    ensures q in Swap(t, a, b) ==> Swap(t, a, b)[q] == t[SwapPath(a, b, q)]
  {
    SwapPathTwice(a, b, q);
  }

  lemma SwapTwice(t: Tree, a: Path, b: Path)
    requires Unrelated(a, b)
    ensures Swap(Swap(t, a, b), a, b) == t
  {
    hide Swap, SwapPath;
    forall q
      ensures q in Swap(Swap(t, a, b), a, b) <==> q in t
      ensures q in t ==> Swap(Swap(t, a, b), a, b)[q] == t[q]
    {
      SwapAt(Swap(t, a, b), a, b, q);
      SwapAt(t, a, b, SwapPath(a, b, q));
      SwapPathTwice(a, b, q);
    }
  }

  lemma MoveAt(t: Tree, from: Path, to: Path, q: Path)
    ensures q in Move(t, from, to) <==>
            if Under(to, q) then Rebase(to, from, q) in t else !Under(from, q) && q in t
    ensures q in Move(t, from, to) ==>
              Move(t, from, to)[q] == t[if Under(to, q) then Rebase(to, from, q) else q]
  {
    if Under(to, q) {
      var p := Rebase(to, from, q);
      assert Under(from, p) && p[|from|..] == q[|to|..] && Rebase(from, to, p) == q;
    }
  }

  /** Three moves through an empty place are the swap. */
  lemma ThreeMoves(t: Tree, a: Path, b: Path, c: Path)
    requires Unrelated(a, b) && Unrelated(a, c) && Unrelated(b, c)
    requires forall p :: p in t ==> !Under(c, p)
    ensures Move(Move(Move(t, a, c), b, a), c, b) == Swap(t, a, b)
  {
    hide Move, Swap;
    var t3 := Move(Move(Move(t, a, c), b, a), c, b);
    forall q
      ensures q in t3 <==> q in Swap(t, a, b)
      ensures q in t3 ==> t3[q] == Swap(t, a, b)[q]
    {
      ThreeMovesAt(t, a, b, c, q);
    }
  }

  lemma Disjoint(a: Path, b: Path, p: Path)
    requires Unrelated(a, b)
    ensures !(Under(a, p) && Under(b, p))
  {
    if Under(a, p) && Under(b, p) {
      UnderBoth(a, b, p);
    }
  }

  lemma ThreeMovesAt(t: Tree, a: Path, b: Path, c: Path, q: Path)
    requires Unrelated(a, b) && Unrelated(a, c) && Unrelated(b, c)
    requires forall p :: p in t ==> !Under(c, p)
    ensures var t3 := Move(Move(Move(t, a, c), b, a), c, b);
            && (q in t3 <==> q in Swap(t, a, b))
            && (q in t3 ==> t3[q] == Swap(t, a, b)[q])
  {
    hide Move, Swap;
    var t1 := Move(t, a, c);
    var t2 := Move(t1, b, a);
    SwapAt(t, a, b, q);
    MoveAt(t2, c, b, q);
    Disjoint(a, b, q);
    Disjoint(a, c, q);
    Disjoint(b, c, q);
    if Under(b, q) {
      var q2 := c + q[|b|..];
      Disjoint(a, c, q2);
      Disjoint(b, c, q2);
      MoveAt(t1, b, a, q2);
      MoveAt(t, a, c, q2);
      assert q2[|c|..] == q[|b|..];
    } else {
      MoveAt(t1, b, a, q);
      if Under(a, q) {
        var q1 := b + q[|a|..];
        Disjoint(a, b, q1);
        Disjoint(b, c, q1);
        MoveAt(t, a, c, q1);
      } else {
        MoveAt(t, a, c, q);
      }
    }
  }

  // ---- the temporary name ----

  lemma TempNameDiffers(name: Name)
    ensures TempName(name) != name
  {
    var dot := LastDot(name);
    if dot > 0 {
      assert TempName(name)[dot + 1] == '.';
    }
  }

  lemma TempUnrelated(t: Tree, a: Path, b: Path)
    requires WellFormed(t) && a in t && b in t && a != [] && b != [] && Unrelated(a, b)
    ensures Unrelated(a, TempPath(a)) && (!Under(b, TempPath(a)) || b == TempPath(a))
    ensures TempPath(a) !in t ==> Unrelated(b, TempPath(a)) && forall p :: p in t ==> !Under(TempPath(a), p)
  {
    var c := TempPath(a);
    TempNameDiffers(Last(a));
    assert Last(c) == TempName(Last(a)) && Up(c) == Up(a);
    UnderUp(b, c);
    UnderUp(b, a);
    if c !in t {
      forall p | p in t ensures !Under(c, p) {
        if Under(c, p) {
          AncestorsPresent(t, p, c);
        }
      }
    }
  }

  /** In a well-formed tree every ancestor of a path is there. */
  lemma {:induction false} AncestorsPresent(t: Tree, p: Path, top: Path)
    requires WellFormed(t) && p in t && Under(top, p)
    ensures top in t
    decreases |p|
  {
    if top != p {
      assert top <= Up(p);
      AncestorsPresent(t, Up(p), top);
    }
  }

  // ---- the theorem ----

  lemma ExchangeSucceeds(t: Tree, a: Path, b: Path)
    requires WellFormed(t) && a in t && b in t && a != [] && b != [] && Unrelated(a, b)
    requires TempPath(a) !in t
    ensures RenameExchange(t, a, b) == Ok(Swap(t, a, b))
  {
    hide Move, Swap, TempName;
    var c := TempPath(a);
    TempUnrelated(t, a, b);
    TempNameDiffers(Last(a));
    assert Up(c) == Up(a) && !Under(a, Up(a)) && !Under(b, Up(b)) && !Under(c, Up(c));
    UnderUp(a, b);
    UnderUp(c, b);
    UnderUp(b, a);
    var t1 := Move(t, a, c);
    var t2 := Move(t1, b, a);
    MoveAt(t, a, c, a);
    MoveAt(t, a, c, b);
    MoveAt(t, a, c, c);
    MoveAt(t, a, c, Up(a));
    MoveAt(t, a, c, Up(b));
    MoveAt(t1, b, a, b);
    MoveAt(t1, b, a, c);
    MoveAt(t1, b, a, Up(b));
    assert c[|c|..] == [] && a + [] == a;
    assert Rename(t, a, c) == Ok(t1);
    assert Rename(t1, b, a) == Ok(t2);
    assert Rename(t2, c, b) == Ok(Move(t2, c, b));
    ThreeMoves(t, a, b, c);
  }

  lemma ExchangeFails(t: Tree, a: Path, b: Path)
    requires WellFormed(t) && a in t && b in t && a != [] && b != [] && Unrelated(a, b)
    requires TempPath(a) in t
    ensures RenameExchange(t, a, b) != Ok(Swap(t, a, b))
  {
    hide Move, Swap, TempName;
    var c := TempPath(a);
    TempUnrelated(t, a, b);
    TempNameDiffers(Last(a));
    var r1 := Rename(t, a, c);
    if r1.Ok? {
      var r2 := Rename(r1.value, b, a);
      if r2.Ok? {
        if b == c {
          MoveAt(r1.value, b, a, b);
        } else {
          MoveAt(r2.value, c, b, c);
          SwapAt(t, a, b, c);
        }
      }
    }
  }

  /** For two existing paths, neither above the other, the exchange swaps the two whole
      subtrees and keeps every other path exactly if the temporary name is not in use. */
  lemma ExchangeIff(t: Tree, a: Path, b: Path)
    requires WellFormed(t) && a in t && b in t && a != [] && b != [] && Unrelated(a, b)
    ensures RenameExchange(t, a, b) == Ok(Swap(t, a, b)) <==> TempPath(a) !in t
  {
    if TempPath(a) in t {
      ExchangeFails(t, a, b);
    } else {
      ExchangeSucceeds(t, a, b);
    }
  }

  lemma SwapWellFormed(t: Tree, a: Path, b: Path)
    requires WellFormed(t) && a in t && b in t && a != [] && b != [] && Unrelated(a, b)
    ensures WellFormed(Swap(t, a, b))
  {
    hide Swap;
    SwapAt(t, a, b, []);
    forall p | p in Swap(t, a, b) && p != [] ensures InDir(Swap(t, a, b), p) {
      SwapAt(t, a, b, p);
      SwapAt(t, a, b, Up(p));
      SwapUp(a, b, p);
      Disjoint(a, b, p);
    }
  }

  /** The parent of a swapped path is the swapped parent, except at the two tops. */
  lemma SwapUp(a: Path, b: Path, p: Path)
    requires Unrelated(a, b) && p != []
    ensures p != a && p != b ==> SwapPath(a, b, p) != [] && Up(SwapPath(a, b, p)) == SwapPath(a, b, Up(p))
    ensures p == a || p == b ==> SwapPath(a, b, Up(p)) == Up(p)
  {
    UnderUp(a, p);
    UnderUp(b, p);
    if p != a && Under(a, p) {
      assert Up(p)[|a|..] == p[|a|..][..|p| - |a| - 1];
    } else if p != b && Under(b, p) {
      assert Up(p)[|b|..] == p[|b|..][..|p| - |b| - 1];
    }
  }

  /** Exchanging twice restores the tree. */
  lemma ExchangeTwice(t: Tree, a: Path, b: Path)
    requires WellFormed(t) && a in t && b in t && a != [] && b != [] && Unrelated(a, b)
    requires TempPath(a) !in t
    ensures var once := RenameExchange(t, a, b);
            once.Ok? && RenameExchange(once.value, a, b) == Ok(t)
  {
    hide Swap, RenameExchange, TempPath;
    ExchangeSucceeds(t, a, b);
    SwapWellFormed(t, a, b);
    SwapAt(t, a, b, a);
    SwapAt(t, a, b, b);
    assert a[|a|..] == [] && b[|b|..] == [] && a + [] == a && b + [] == b;
    TempUnrelated(t, a, b);
    SwapAt(t, a, b, TempPath(a));
    ExchangeSucceeds(Swap(t, a, b), a, b);
    SwapTwice(t, a, b);
  }

  /** The exchange is not one step. If the second path is missing it fails and leaves the whole
      first subtree under the temporary name; if the first is missing it changes nothing. */
  lemma ExchangeWithMissing(t: Tree, a: Path, b: Path)
    requires WellFormed(t) && a != [] && b !in t && TempPath(a) !in t && !Under(TempPath(a), b)
    ensures RenameExchange(t, a, b) == Err(NotFound)
    ensures ExchangeLeaves(t, a, b) == if a in t then Move(t, a, TempPath(a)) else t
  {
    hide Move;
    if a in t {
      TempNameDiffers(Last(a));
      assert Last(TempPath(a)) == TempName(Last(a)) && Up(TempPath(a)) == Up(a);
      MoveAt(t, a, TempPath(a), b);
    }
  }

  /** What a rename cannot replace: a node of the other kind, or a directory with entries. */
  ghost predicate Blocks(t: Tree, from: Path, to: Path)
    requires from in t
  {
    to in t && (t[to].Dir? != t[from].Dir? || (t[to].Dir? && exists name: Name :: to + [name] in t))
  }

  lemma HasNamesIff(t: Tree, dir: Path)
    ensures Names(t, dir) != {} <==> exists name: Name :: dir + [name] in t
  {
    if Names(t, dir) != {} {
      var name :| name in Names(t, dir);
      var p :| p in t && p != [] && Up(p) == dir && Last(p) == name;
      assert p == dir + [name];
    }
    if exists name: Name :: dir + [name] in t {
      var name: Name :| dir + [name] in t;
      assert Up(dir + [name]) == dir && Last(dir + [name]) == name;
      assert name in Names(t, dir);
    }
  }

  /** The first rename of an exchange is refused exactly if what has the temporary name blocks it;
      then the exchange is refused and nothing has changed. */
  lemma BlockedIff(t: Tree, a: Path, b: Path)
    requires WellFormed(t) && a != [] && a in t
    ensures Rename(t, a, TempPath(a)).Err? <==> Blocks(t, a, TempPath(a))
    ensures Blocks(t, a, TempPath(a)) ==> RenameExchange(t, a, b).Err? && ExchangeLeaves(t, a, b) == t
  {
    hide Move, Names;
    TempNameDiffers(Last(a));
    assert Last(TempPath(a)) == TempName(Last(a)) && Up(TempPath(a)) == Up(a);
    assert InDir(t, a);
    HasNamesIff(t, TempPath(a));
  }

  // ---- what the temporary name is ----

  lemma DotAt(name: Name, i: nat)
    requires i < |name| && name[i] == '.' && forall j :: i < j < |name| ==> name[j] != '.'
    ensures LastDot(name) == i
  {
  }

  /** A name with an extension behind a stem gives up the extension; any other name, one that only
      starts with a dot among them, stays. Names that differ in their extension only share their
      temporary name. */
  lemma TempNameIs(stem: Name, extension: Name)
    requires stem != "" && '.' !in extension
    ensures TempName(stem + "." + extension) == stem + "..swap_tmp"
    ensures '.' !in stem[1..] ==> TempName(stem) == stem + "..swap_tmp"
  {
    DotAt(stem + "." + extension, |stem|);
    assert (stem + "." + extension)[..|stem|] == stem;
    assert stem + "." + ".swap_tmp" == stem + "..swap_tmp";
    assert LastDot(stem) > 0 ==> stem[1..][LastDot(stem) - 1] == '.';
  }
}
