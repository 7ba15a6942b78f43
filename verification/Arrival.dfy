/** Where the order of deliveries matters and where it does not: bytes that no other write
    contradicts arrive, whatever the interleaving. */
module Arrival {
  import opened Bytes
  import opened RwBuffer
  import opened FsModel
  import opened WriteBack
  import opened Interleaving
  import Storage

  predicate Covers(u: Upload, p: Path, i: nat) {
    u.path == p && u.offset <= i < u.offset + |u.data|
  }

  /** Two uploads put different bytes at one position. */
  predicate Conflict(a: Upload, b: Upload) {
    a.path == b.path &&
    exists i :: 0 <= i < |a.data| && Covers(b, a.path, a.offset + i) && a.data[i] != b.data[a.offset + i - b.offset]
  }

  lemma {:induction false} PlacedAt(path: Path, offset: nat, data: seq<byte>, p: Path, i: nat, b: byte)
    ensures (p, i, b) in Place(path, offset, data) <==>
            p == path && offset <= i < offset + |data| && data[i - offset] == b
    decreases |data|
  {
    hide Place;
    PlaceUnfold(path, offset, data);
    if data != [] {
      PlacedAt(path, offset + 1, data[1..], p, i, b);
    }
  }

  lemma ApplyAt(t: Tree, u: Upload, p: Path, i: nat)
    ensures var c, c' := Storage.Content(t, p), Storage.Content(Apply(t, u), p);
            && |c| <= |c'|
            && (Covers(u, p, i) ==> i < |c'| && c'[i] == u.data[i - u.offset])
            && (!Covers(u, p, i) && i < |c| ==> c'[i] == c[i])
  {
  }

  /** A byte that no later upload covers stays. */
  lemma {:induction false} ByteStays(t: Tree, us: seq<Upload>, p: Path, i: nat)
    requires i < |Storage.Content(t, p)| && forall u :: u in us ==> !Covers(u, p, i)
    ensures i < |Storage.Content(ApplyAll(t, us), p)|
    ensures Storage.Content(ApplyAll(t, us), p)[i] == Storage.Content(t, p)[i]
    decreases |us|
  {
    hide Apply, Covers;
    if us != [] {
      assert us[0] in us && forall u :: u in us[1..] ==> u in us;
      ApplyAt(t, us[0], p, i);
      ByteStays(Apply(t, us[0]), us[1..], p, i);
    }
  }

  /** Whatever the order of the uploads, a byte that none of them contradicts is there after them. */
  lemma {:induction false} ByteArrives(t: Tree, us: seq<Upload>, p: Path, i: nat, b: byte)
    requires (p, i, b) in BytesOfAll(us) && forall c :: (p, i, c) in BytesOfAll(us) ==> c == b
    ensures i < |Storage.Content(ApplyAll(t, us), p)| && Storage.Content(ApplyAll(t, us), p)[i] == b
    decreases |us|
  {
    hide Apply, Place, Storage.Content;
    var u, rest := us[0], us[1..];
    assert BytesOfAll(us) == BytesOf(u) + BytesOfAll(rest);
    if (p, i, b) in BytesOfAll(rest) {
      assert forall c :: (p, i, c) in BytesOfAll(rest) ==> (p, i, c) in BytesOfAll(us);
      ByteArrives(Apply(t, u), rest, p, i, b);
    } else {
      assert (p, i, b) in BytesOf(u);
      PlacedAt(u.path, u.offset, u.data, p, i, b);
      ApplyAt(t, u, p, i);
      forall v | v in rest ensures !Covers(v, p, i) {
        CoveredIsPlaced(rest, v, p, i);
      }
      ByteStays(Apply(t, u), rest, p, i);
    }
  }

  lemma {:induction false} CoveredIsPlaced(us: seq<Upload>, u: Upload, p: Path, i: nat)
    requires u in us
    ensures Covers(u, p, i) ==> (p, i, u.data[i - u.offset]) in BytesOfAll(us)
    decreases |us|
  {
    hide Place;
    assert BytesOfAll(us) == BytesOf(us[0]) + BytesOfAll(us[1..]);
    if Covers(u, p, i) {
      PlacedAt(u.path, u.offset, u.data, p, i, u.data[i - u.offset]);
      if u != us[0] {
        assert u in us[1..];
        CoveredIsPlaced(us[1..], u, p, i);
      }
    }
  }

  /** For every interleaving of any number of writing and flushing tasks: once all is quiet,
      every accepted byte that no other accepted byte contradicts is on the server, at its
      position of its file. */
  lemma WritesArrive(capacity: nat, s: System, run: seq<Action>, t: Tree, p: Path, i: nat, b: byte)
    requires s.buffer == CLEAN && s.delivered == [] && s.accepted == multiset{} && capacity > 0
    requires forall us :: us in s.tasks ==> us == []
    requires var s' := After(capacity, s, run);
             && s'.buffer.data == [] && (forall us :: us in s'.tasks ==> us == [])
             && (p, i, b) in s'.accepted && forall c :: (p, i, c) in s'.accepted ==> c == b
    ensures var after := Storage.Content(ApplyAll(t, After(capacity, s, run).delivered), p);
            i < |after| && after[i] == b
  {
    hide After, ApplyAll, BytesOfAll, Storage.Content;
    QuietMeansDelivered(capacity, s, run);
    ByteArrives(t, After(capacity, s, run).delivered, p, i, b);
  }

  /** Two uploads may be delivered in either order exactly if they do not put different bytes
      at one position. */
  lemma EitherOrderIff(t: Tree, a: Upload, b: Upload)
    requires a.data != [] && b.data != []
    ensures Apply(Apply(t, a), b) == Apply(Apply(t, b), a) <==> !Conflict(a, b)
  {
    hide Apply, Conflict, WriteAt;
    var c := Storage.Content(t, a.path);
    if a.path != b.path {
      OtherPath(t, a, b);
    } else {
      SamePath(t, a, b);
      SamePath(t, b, a);
      var ab := WriteAt(WriteAt(c, a.offset, a.data), b.offset, b.data);
      var ba := WriteAt(WriteAt(c, b.offset, b.data), a.offset, a.data);
      if Conflict(a, b) {
        OtherWay(c, a, b, ab, ba);
        assert t[a.path := Storage.File(ab)][a.path] != t[a.path := Storage.File(ba)][a.path];
      } else {
        SameEitherWay(c, a, b, ab, ba);
      }
    }
  }

  lemma OtherPath(t: Tree, a: Upload, b: Upload)
    requires a.path != b.path
    ensures Apply(Apply(t, a), b) == Apply(Apply(t, b), a) && !Conflict(a, b)
  {
    hide WriteAt;
    assert Apply(Apply(t, a), b) == Apply(Apply(t, b), a);
  }

  lemma SamePath(t: Tree, a: Upload, b: Upload)
    requires a.path == b.path && a.data != [] && b.data != []
    ensures Apply(Apply(t, a), b) ==
            t[a.path := Storage.File(WriteAt(WriteAt(Storage.Content(t, a.path), a.offset, a.data), b.offset, b.data))]
  {
    hide WriteAt;
  }

  lemma OtherWay(c: seq<byte>, a: Upload, b: Upload, ab: seq<byte>, ba: seq<byte>)
    requires Conflict(a, b)
    requires ab == WriteAt(WriteAt(c, a.offset, a.data), b.offset, b.data)
    requires ba == WriteAt(WriteAt(c, b.offset, b.data), a.offset, a.data)
    ensures ab != ba
  {
    var i :| 0 <= i < |a.data| && Covers(b, a.path, a.offset + i) && a.data[i] != b.data[a.offset + i - b.offset];
    assert ab[a.offset + i] != ba[a.offset + i];
  }

  lemma SameEitherWay(c: seq<byte>, a: Upload, b: Upload, ab: seq<byte>, ba: seq<byte>)
    requires a.path == b.path && !Conflict(a, b) && a.data != [] && b.data != []
    requires ab == WriteAt(WriteAt(c, a.offset, a.data), b.offset, b.data)
    requires ba == WriteAt(WriteAt(c, b.offset, b.data), a.offset, a.data)
    ensures ab == ba
  {
    forall i | 0 <= i < |ab| ensures ab[i] == ba[i] {
      if Covers(a, a.path, i) && Covers(b, a.path, i) {
        assert Covers(b, a.path, a.offset + (i - a.offset));
      }
    }
  }

  // ---- any number of deliveries ----

  ghost predicate NoConflicts(us: seq<Upload>) {
    forall a, b :: a in us && b in us ==> !Conflict(a, b)
  }

  /** Every order of the uploads has the same result. */
  ghost predicate OrderFree(t: Tree, us: seq<Upload>) {
    forall vs: seq<Upload> :: multiset(vs) == multiset(us) ==> ApplyAll(t, vs) == ApplyAll(t, us)
  }

  lemma {:induction false} MoveToFront(t: Tree, before: seq<Upload>, u: Upload)
    requires u.data != [] && forall v :: v in before ==> v.data != [] && !Conflict(v, u)
    ensures ApplyAll(t, before + [u]) == ApplyAll(t, [u] + before)
    decreases |before|
  {
    hide Apply, Conflict;
    if before == [] {
      assert before + [u] == [u] + before;
    } else {
      var v, rest := before[0], before[1..];
      assert v in before && forall w :: w in rest ==> w in before;
      assert (before + [u])[0] == v && (before + [u])[1..] == rest + [u];
      MoveToFront(Apply(t, v), rest, u);
      assert ([u] + rest)[0] == u && ([u] + rest)[1..] == rest;
      assert ([u] + before)[0] == u && ([u] + before)[1..] == before;
      EitherOrderIff(t, v, u);
    }
  }

  lemma IndexOf(us: seq<Upload>, u: Upload) returns (k: nat)
    requires u in us
    ensures k < |us| && us[k] == u
    ensures multiset(us) == multiset{u} + multiset(us[..k] + us[k + 1..])
  {
    k :| 0 <= k < |us| && us[k] == u;
    assert us == us[..k] + [u] + us[k + 1..];
  }

  lemma Cancel(u: Upload, a: multiset<Upload>, b: multiset<Upload>)
    requires multiset{u} + a == multiset{u} + b
    ensures a == b
  {
    forall x: Upload ensures a[x] == b[x] {
      assert (multiset{u} + a)[x] == (multiset{u} + b)[x];
    }
  }

  /** Where the first upload of one order stands in another. */
  lemma FindFirst(us: seq<Upload>, vs: seq<Upload>) returns (before: seq<Upload>, after: seq<Upload>)
    requires multiset(us) == multiset(vs) && us != []
    ensures vs == before + [us[0]] + after && multiset(us[1..]) == multiset(before + after)
    ensures forall v :: v in before ==> v in us
  {
    var u, rest := us[0], us[1..];
    assert us == [u] + rest && u in multiset(us);
    var k := IndexOf(vs, u);
    before, after := vs[..k], vs[k + 1..];
    assert multiset([u] + rest) == multiset{u} + multiset(rest);
    Cancel(u, multiset(rest), multiset(before + after));
    forall v | v in before ensures v in us {
      assert v in multiset(before + after);
    }
  }

  lemma FirstOutOfMiddle(t: Tree, before: seq<Upload>, u: Upload, after: seq<Upload>)
    requires u.data != [] && forall v :: v in before ==> v.data != [] && !Conflict(v, u)
    ensures ApplyAll(t, before + [u] + after) == ApplyAll(Apply(t, u), before + after)
  {
    hide Apply, Conflict;
    MoveToFront(t, before, u);
    ApplyAllJoin(t, before + [u], after);
    ApplyAllJoin(t, [u] + before, after);
    assert [u] + before + after == [u] + (before + after);
    assert ([u] + (before + after))[0] == u && ([u] + (before + after))[1..] == before + after;
  }

  lemma {:induction false} SameInEveryOrder(t: Tree, us: seq<Upload>, vs: seq<Upload>)
    requires multiset(us) == multiset(vs) && NoConflicts(us) && forall u :: u in us ==> u.data != []
    ensures ApplyAll(t, us) == ApplyAll(t, vs)
    decreases |us|
  {
    hide Apply, Conflict;
    assert |us| == |multiset(us)| == |vs|;
    if us != [] {
      var before, after := FindFirst(us, vs);
      FirstOutOfMiddle(t, before, us[0], after);
      assert forall v :: v in us[1..] ==> v in us;
      SameInEveryOrder(Apply(t, us[0]), us[1..], before + after);
    }
  }

  lemma WithoutTwo(us: seq<Upload>, a: Upload, b: Upload) returns (rest: seq<Upload>)
    requires a in us && b in us && a != b
    ensures multiset(rest + [a, b]) == multiset(us) && multiset(rest + [b, a]) == multiset(us)
  {
    var k := IndexOf(us, a);
    var fewer := us[..k] + us[k + 1..];
    StillThere(us, a, b, fewer);
    var j := IndexOf(fewer, b);
    rest := fewer[..j] + fewer[j + 1..];
    TwoBehind(us, fewer, rest, a, b);
  }

  lemma StillThere(us: seq<Upload>, a: Upload, b: Upload, fewer: seq<Upload>)
    requires b in us && a != b && multiset(us) == multiset{a} + multiset(fewer)
    ensures b in fewer
  {
    assert b in multiset(us);
    assert (multiset{a} + multiset(fewer))[b] == multiset(fewer)[b];
  }

  lemma TwoBehind(us: seq<Upload>, fewer: seq<Upload>, rest: seq<Upload>, a: Upload, b: Upload)
    requires multiset(us) == multiset{a} + multiset(fewer) && multiset(fewer) == multiset{b} + multiset(rest)
    ensures multiset(rest + [a, b]) == multiset(us) && multiset(rest + [b, a]) == multiset(us)
  {
    assert multiset(rest + [a, b]) == multiset(rest) + multiset([a, b]);
    assert multiset(rest + [b, a]) == multiset(rest) + multiset([b, a]);
  }

  lemma ConflictShows(t: Tree, us: seq<Upload>, a: Upload, b: Upload)
    requires a in us && b in us && Conflict(a, b) && a.data != [] && b.data != []
    ensures !OrderFree(t, us)
  {
    hide Apply, ApplyAll;
    assert a != b;
    var rest := WithoutTwo(us, a, b);
    ApplyAllJoin(t, rest, [a, b]);
    ApplyAllJoin(t, rest, [b, a]);
    ApplyTwo(ApplyAll(t, rest), a, b);
    ApplyTwo(ApplyAll(t, rest), b, a);
    EitherOrderIff(ApplyAll(t, rest), a, b);
  }

  /** Any number of uploads may be delivered in every order exactly if no two of them put
      different bytes at one position. */
  lemma EveryOrderIff(t: Tree, us: seq<Upload>)
    requires forall u :: u in us ==> u.data != []
    ensures OrderFree(t, us) <==> NoConflicts(us)
  {
    hide Apply, Conflict;
    if NoConflicts(us) {
      forall vs: seq<Upload> | multiset(vs) == multiset(us) ensures ApplyAll(t, vs) == ApplyAll(t, us) {
        SameInEveryOrder(t, us, vs);
      }
    } else {
      var a, b :| a in us && b in us && Conflict(a, b);
      ConflictShows(t, us, a, b);
    }
  }

  ghost predicate AllFilled(capacity: nat, s: System) {
    && PendingOk(capacity, s.buffer)
    && (forall i, u :: 0 <= i < |s.tasks| && u in s.tasks[i] ==> u.data != [])
    && (forall u :: u in s.delivered ==> u.data != [])
  }

  lemma StepFilled(capacity: nat, s: System, a: Action)
    requires AllFilled(capacity, s) && Enabled(s, a)
    ensures AllFilled(capacity, Next(capacity, s, a))
  {
    hide WriteSection, Place;
    if a.Write? {
      SectionShape(capacity, s.buffer, a.path, a.offset, a.data);
    }
  }

  lemma {:induction false} RunFilled(capacity: nat, s: System, run: seq<Action>)
    requires AllFilled(capacity, s)
    ensures AllFilled(capacity, After(capacity, s, run))
    decreases |run|
  {
    hide Next;
    if run != [] {
      if Enabled(s, run[0]) {
        StepFilled(capacity, s, run[0]);
        RunFilled(capacity, Next(capacity, s, run[0]), run[1..]);
      } else {
        RunFilled(capacity, s, run[1..]);
      }
    }
  }

  /** For every interleaving of any number of tasks: what has been delivered could have been
      delivered in every order with the same result exactly if no two of the deliveries put
      different bytes at one position. */
  lemma DeliveredOrderIff(capacity: nat, s: System, run: seq<Action>, t: Tree)
    requires s.buffer == CLEAN && s.delivered == [] && capacity > 0
    requires forall us :: us in s.tasks ==> us == []
    ensures var us := After(capacity, s, run).delivered;
            OrderFree(t, us) <==> NoConflicts(us)
  {
    hide After, OrderFree, NoConflicts;
    forall i | 0 <= i < |s.tasks| ensures s.tasks[i] == [] {
      assert s.tasks[i] in s.tasks;
    }
    RunFilled(capacity, s, run);
    EveryOrderIff(t, After(capacity, s, run).delivered);
  }
}
