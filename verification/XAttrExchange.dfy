/** The exchange of two paths' extended attributes by three updates. */
module XAttrExchange {
  import opened Bytes
  import opened Database

  function SwapName(path1: string, path2: string, p: string): string {
    if p == path1 then path2 else if p == path2 then path1 else p
  }

  /** Every row of one path under the other path, all other rows unchanged. */
  function Swap(x: XAttrs, path1: string, path2: string): XAttrs {
    map k | k in (set j | j in x :: (SwapName(path1, path2, j.0), j.1)) && (SwapName(path1, path2, k.0), k.1) in x
      :: x[(SwapName(path1, path2, k.0), k.1)]
  }

  predicate Unused(x: XAttrs, path: string) {
    forall k :: k in x ==> k.0 != path
  }

  lemma SwapAt(x: XAttrs, path1: string, path2: string, k: (string, string))
    ensures k in Swap(x, path1, path2) <==> (SwapName(path1, path2, k.0), k.1) in x
    ensures k in Swap(x, path1, path2) ==> Swap(x, path1, path2)[k] == x[(SwapName(path1, path2, k.0), k.1)]
  {
    if (SwapName(path1, path2, k.0), k.1) in x {
      var j := (SwapName(path1, path2, k.0), k.1);
      assert j in x && (SwapName(path1, path2, j.0), j.1) == k;
    }
  }

  lemma MoveAt(x: XAttrs, to: string, from: string, k: (string, string))
    requires to != from
    ensures k in MovePath(x, to, from) <==>
            (k.0 != from && k in x) || (k.0 == to && (from, k.1) in x)
    ensures k in MovePath(x, to, from) ==>
              MovePath(x, to, from)[k] == if k.0 == to && (from, k.1) in x then x[(from, k.1)] else x[k]
  {
    if k.0 == to && (from, k.1) in x {
      var j := (from, k.1);
      assert j in x && j.0 == from && (to, j.1) == k;
    }
  }

  /** With the target path unused the update cannot break the key. */
  lemma UpdateToUnused(x: XAttrs, to: string, from: string)
    requires Unused(x, to) && to != from
    ensures UpdatePath(x, to, from) == Ok(MovePath(x, to, from))
    ensures Unused(MovePath(x, to, from), from)
  {
    hide MovePath;
    forall k | k in MovePath(x, to, from) ensures k.0 != from {
      MoveAt(x, to, from, k);
    }
  }

  lemma ExchangeSucceeds(x: XAttrs, path1: string, path2: string)
    requires path1 != MARKER && path2 != MARKER && Unused(x, MARKER)
    ensures ExchangePaths(x, path1, path2) == Ok(Swap(x, path1, path2))
  {
    hide MovePath, Swap, UpdatePath;
    UpdateToUnused(x, MARKER, path1);
    var x1 := MovePath(x, MARKER, path1);
    if path1 == path2 {
      SamePath(x1, path1);
    } else {
      UpdateToUnused(x1, path1, path2);
    }
    var x2 := if path1 == path2 then x1 else MovePath(x1, path1, path2);
    UpdateToUnused(x2, path2, MARKER);
    var x3 := MovePath(x2, path2, MARKER);
    forall k
      ensures k in x3 <==> k in Swap(x, path1, path2)
      ensures k in x3 ==> x3[k] == Swap(x, path1, path2)[k]
    {
      SwapAt(x, path1, path2, k);
      MoveAt(x2, path2, MARKER, k);
      MoveAt(x, MARKER, path1, k);
      MoveAt(x, MARKER, path1, (MARKER, k.1));
      MoveAt(x, MARKER, path1, (path2, k.1));
      if path1 != path2 {
        MoveAt(x1, path1, path2, k);
        MoveAt(x1, path1, path2, (MARKER, k.1));
      }
    }
    assert x3 == Swap(x, path1, path2);
  }

  lemma SamePath(x: XAttrs, path: string)
    ensures UpdatePath(x, path, path) == Ok(x)
  {
  }

  lemma ExchangeFails(x: XAttrs, path1: string, path2: string)
    requires path1 != MARKER && path2 != MARKER && !Unused(x, MARKER)
    ensures ExchangePaths(x, path1, path2) != Ok(Swap(x, path1, path2))
  {
    hide MovePath, Swap;
    var k :| k in x && k.0 == MARKER;
    SwapAt(x, path1, path2, k);
    var r := ExchangePaths(x, path1, path2);
    if r.Ok? {
      var x2 := UpdatePath(UpdatePath(x, MARKER, path1).value, path1, path2).value;
      MoveAt(x2, path2, MARKER, k);
    }
  }

  /** The three updates swap the rows of the two paths and keep all others, also when the two
      paths are the same, exactly if no row stands at the marker path. */
  lemma ExchangeIff(x: XAttrs, path1: string, path2: string)
    requires path1 != MARKER && path2 != MARKER
    ensures ExchangePaths(x, path1, path2) == Ok(Swap(x, path1, path2)) <==> Unused(x, MARKER)
  {
    if Unused(x, MARKER) {
      ExchangeSucceeds(x, path1, path2);
    } else {
      ExchangeFails(x, path1, path2);
    }
  }

  /** Exchanging twice restores the table. */
  lemma ExchangeTwice(x: XAttrs, path1: string, path2: string)
    requires path1 != MARKER && path2 != MARKER && Unused(x, MARKER)
    ensures var once := ExchangePaths(x, path1, path2);
            once.Ok? && ExchangePaths(once.value, path1, path2) == Ok(x)
  {
    hide Swap, ExchangePaths;
    ExchangeSucceeds(x, path1, path2);
    var y := Swap(x, path1, path2);
    forall k | k in y ensures k.0 != MARKER {
      SwapAt(x, path1, path2, k);
    }
    ExchangeSucceeds(y, path1, path2);
    forall k
      ensures k in Swap(y, path1, path2) <==> k in x
      ensures k in x ==> Swap(y, path1, path2)[k] == x[k]
    {
      SwapAt(y, path1, path2, k);
      SwapAt(x, path1, path2, (SwapName(path1, path2, k.0), k.1));
    }
    assert Swap(y, path1, path2) == x;
  }

  /** The exchange fails only at its first update, and then nothing has changed. */
  lemma FailureKeepsAll(x: XAttrs, path1: string, path2: string)
    requires path1 != MARKER && path2 != MARKER && ExchangePaths(x, path1, path2).Err?
    ensures ExchangeLeaves(x, path1, path2) == x
  {
    hide MovePath;
    if UpdatePath(x, MARKER, path1).Ok? {
      var x1 := UpdatePath(x, MARKER, path1).value;
      forall k | k in x1 ensures k.0 != path1 {
        MoveAt(x, MARKER, path1, k);
      }
      var x2 := UpdatePath(x1, path1, path2).value;
      forall k | k in x2 ensures k.0 != path2 {
        if path1 != path2 {
          MoveAt(x1, path1, path2, k);
        }
      }
    }
  }

  /** The exchange is refused exactly if the first path and the marker path both have an attribute
      of one name, and then nothing has changed. */
  lemma ExchangeRefusedIff(x: XAttrs, path1: string, path2: string)
    requires path1 != "__tmp_exchange__" && path2 != "__tmp_exchange__"
    ensures ExchangePaths(x, path1, path2).Err? <==> SharedName(x, path1, "__tmp_exchange__")
    ensures ExchangePaths(x, path1, path2).Err? ==>
              ExchangePaths(x, path1, path2) == Err(AlreadyExists) && ExchangeLeaves(x, path1, path2) == x
  {
    hide MovePath;
    FirstUpdate(x, path1);
    if UpdatePath(x, MARKER, path1).Ok? {
      var x1 := UpdatePath(x, MARKER, path1).value;
      forall k | k in x1 ensures k.0 != path1 {
        MoveAt(x, MARKER, path1, k);
      }
      var x2 := UpdatePath(x1, path1, path2).value;
      forall k | k in x2 ensures k.0 != path2 {
        if path1 != path2 {
          MoveAt(x1, path1, path2, k);
        }
      }
    }
  }

  /** Both paths have a row of one attribute name. */
  ghost predicate SharedName(x: XAttrs, a: string, b: string) {
    exists name: string :: (a, name) in x && (b, name) in x
  }

  lemma FirstUpdate(x: XAttrs, path: string)
    requires path != MARKER
    ensures UpdatePath(x, MARKER, path).Err? <==> SharedName(x, path, "__tmp_exchange__")
    ensures UpdatePath(x, MARKER, path).Err? ==> UpdatePath(x, MARKER, path) == Err(AlreadyExists)
  {
    hide MovePath;
    if UpdatePath(x, MARKER, path).Err? {
      var k :| k in x && k.0 == path && (MARKER, k.1) in x;
      assert (path, k.1) in x && (MARKER, k.1) in x;
    }
  }
}
