/** The write-coalescing buffer loses nothing: the server overlaid with the pending bytes is
    always the server with every accepted prefix applied in the order of the calls. */
module WriteBack {
  import opened Bytes
  import opened Cache
  import opened RwBuffer
  import opened FsModel
  import opened Runs
  import Storage

  // ---- the reference: writes applied directly ----

  /** A positioned write applied to the tree at once; writing nothing changes nothing. */
  function Apply(t: Tree, u: Upload): Tree {
    if u.data == [] then t else t[u.path := Storage.File(WriteAt(Storage.Content(t, u.path), u.offset, u.data))]
  }

  function ApplyAll(t: Tree, us: seq<Upload>): Tree
    decreases |us|
  {
    if us == [] then t else ApplyAll(Apply(t, us[0]), us[1..])
  }

  /** The tree as it will be once the buffer is uploaded. */
  function Overlaid(t: Tree, b: Pending): Tree {
    Apply(t, UploadOf(b))
  }

  /** Between calls the buffer is never full and knows whose bytes it holds. */
  predicate PendingOk(capacity: nat, b: Pending) {
    |b.data| < capacity && (b.data != [] ==> b.path.Some?)
  }

  lemma ApplyJoin(t: Tree, path: Path, offset: nat, a: seq<byte>, b: seq<byte>)
    ensures Apply(Apply(t, Upload(path, offset, a)), Upload(path, offset + |a|, b)) ==
            Apply(t, Upload(path, offset, a + b))
  {
    WriteAtJoin(Storage.Content(t, path), offset, a, b);
    assert a == [] ==> a + b == b;
    assert b == [] ==> a + b == a;
  }

  lemma ApplyTwo(t: Tree, a: Upload, b: Upload)
    ensures ApplyAll(t, [a]) == Apply(t, a) && ApplyAll(t, [a, b]) == Apply(Apply(t, a), b)
  {
    assert [a, b][1..] == [b] && [b][1..] == [];
    assert ApplyAll(Apply(t, a), [b]) == Apply(Apply(t, a), b);
  }

  /** One locked section leaves room in the buffer, takes at least one byte if it is given
      any, and hands out at most two uploads, none empty and none over the capacity. */
  lemma SectionShape(capacity: nat, b: Pending, path: Path, offset: nat, data: seq<byte>)
    requires PendingOk(capacity, b)
    ensures var (b', uploads, written) := WriteSection(capacity, b, path, offset, data);
            && PendingOk(capacity, b')
            && written <= |data| && (data != [] ==> written > 0)
            && |uploads| <= 2
            && (forall u :: u in uploads ==> 0 < |u.data| <= capacity)
  {
  }

  /** One locked section: the uploads it hands out and the buffer it leaves are together the
      old buffer and the accepted prefix, in this order. */
  lemma SectionConserves(capacity: nat, b: Pending, path: Path, offset: nat, data: seq<byte>, t: Tree)
    requires PendingOk(capacity, b)
    ensures var (b', uploads, written) := WriteSection(capacity, b, path, offset, data);
            && written <= |data|
            && Overlaid(ApplyAll(t, uploads), b') == Apply(Overlaid(t, b), Upload(path, offset, data[..written]))
  {
    hide Apply;
    var (b', uploads, written) := WriteSection(capacity, b, path, offset, data);
    var waiting := UploadOf(b);
    NothingApplied(Overlaid(t, b));
    NothingApplied(t);
    if IsAppending(b, path, offset) {
      var joined := Upload(path, b.offset, b.data + data[..written]);
      ApplyJoin(t, path, b.offset, b.data, data[..written]);
      ApplyTwo(t, joined, joined);
      NothingApplied(ApplyAll(t, [joined]));
    } else {
      var started := Upload(path, offset, data[..written]);
      ApplyTwo(t, waiting, started);
      ApplyTwo(t, started, started);
      NothingApplied(ApplyAll(t, uploads));
      assert [waiting] + [started] == [waiting, started];
    }
  }

  lemma NothingApplied(t: Tree)
    ensures forall u: Upload :: u.data == [] ==> Apply(t, u) == t
  {
  }

  /** Successful uploads do to the server exactly what the direct writes do. */
  lemma {:induction false} UploadsApply(cfg: FsConfig, s: FsState, uploads: seq<Upload>, cs: seq<Choice>)
    requires |cs| == |uploads| && forall u :: u in uploads ==> u.data != []
    ensures var (s', r) := UploadAll(cfg, s, uploads, cs);
            && s'.pending == s.pending && s'.window == s.window
            && (r.Ok? ==> s'.tree == ApplyAll(s.tree, uploads))
    decreases |uploads|
  {
    hide CacheWrite;
    if uploads != [] {
      UploadApplies(cfg, s, uploads[0], cs[0]);
      UploadsApply(cfg, UploadOne(cfg, s, uploads[0], cs[0]).0, uploads[1..], cs[1..]);
    }
  }

  lemma UploadApplies(cfg: FsConfig, s: FsState, u: Upload, c: Choice)
    requires u.data != []
    ensures var (s', r) := UploadOne(cfg, s, u, c);
            && s'.pending == s.pending && s'.window == s.window
            && s'.tree == if r.Ok? then Apply(s.tree, u) else s.tree
  {
    hide CacheWrite;
  }

  // ---- one call ----

  lemma WriteConserves(cfg: FsConfig, s: FsState, path: Path, offset: nat, data: seq<byte>, c: WriteChoice)
    requires PendingOk(cfg.capacity, s.pending)
    ensures var (s', r) := WriteFile(cfg, s, path, offset, data, c);
            && PendingOk(cfg.capacity, s'.pending)
            && (r.Ok? ==>
                  && r.value <= |data|
                  && Overlaid(s'.tree, s'.pending) ==
                     Apply(Overlaid(s.tree, s.pending), Upload(path, offset, data[..r.value])))
  {
    hide Apply, ApplyAll, UploadAll, WriteSection;
    SectionShape(cfg.capacity, s.pending, path, offset, data);
    SectionConserves(cfg.capacity, s.pending, path, offset, data, s.tree);
    var (b, uploads, written) := WriteSection(cfg.capacity, s.pending, path, offset, data);
    UploadsApply(cfg, s.(pending := b), uploads, ChoicesFor(|uploads|, c));
  }

  lemma FlushConserves(cfg: FsConfig, s: FsState, c: Choice)
    requires PendingOk(cfg.capacity, s.pending)
    ensures var (s', r) := Flush(cfg, s, c);
            && PendingOk(cfg.capacity, s'.pending)
            && (r.Ok? ==> s'.pending.data == [] && s'.tree == Overlaid(s.tree, s.pending))
  {
    hide UploadOne;
    if s.pending.data != [] {
      UploadApplies(cfg, s.(pending := CLEAN), UploadOf(s.pending), c);
    }
  }

  // ---- whole runs ----

  /** The call only reads the server, or it writes or flushes and its uploads succeed. */
  ghost predicate Succeeds(cfg: FsConfig, s: FsState, op: Op) {
    match op
    case WriteOp(path, offset, data, c) =>
      |s.pending.data| <= cfg.capacity && WriteFile(cfg, s, path, offset, data, c).1.Ok?
    case FlushOp(c) => Flush(cfg, s, c).1.Ok?
    case _ => op.ReadOp? || op.AttrOp? || op.ReaddirOp? || op.DropOp?
  }

  /** What the call accepts. */
  ghost function AcceptedBy(cfg: FsConfig, s: FsState, op: Op): seq<Upload>
    requires Succeeds(cfg, s, op)
  {
    match op
    case WriteOp(path, offset, data, c) =>
      [Upload(path, offset, data[..Min(WriteFile(cfg, s, path, offset, data, c).1.value, |data|)])]
    case _ => []
  }

  ghost predicate AllSucceed(cfg: FsConfig, s: FsState, ops: seq<Op>)
    decreases |ops|
  {
    ops == [] || (Succeeds(cfg, s, ops[0]) && AllSucceed(cfg, Step(cfg, s, ops[0]), ops[1..]))
  }

  /** What the calls accept, in their order. */
  ghost function Log(cfg: FsConfig, s: FsState, ops: seq<Op>): seq<Upload>
    requires AllSucceed(cfg, s, ops)
    decreases |ops|
  {
    if ops == [] then [] else AcceptedBy(cfg, s, ops[0]) + Log(cfg, Step(cfg, s, ops[0]), ops[1..])
  }

  lemma {:induction false} ApplyAllJoin(t: Tree, us: seq<Upload>, more: seq<Upload>)
    ensures ApplyAll(t, us + more) == ApplyAll(ApplyAll(t, us), more)
    decreases |us|
  {
    hide Apply;
    if us == [] {
      assert us + more == more;
    } else {
      assert (us + more)[1..] == us[1..] + more;
      ApplyAllJoin(Apply(t, us[0]), us[1..], more);
    }
  }

  lemma StepConserves(cfg: FsConfig, s: FsState, op: Op)
    requires PendingOk(cfg.capacity, s.pending) && Succeeds(cfg, s, op)
    ensures var s' := Step(cfg, s, op);
            && PendingOk(cfg.capacity, s'.pending)
            && Overlaid(s'.tree, s'.pending) == ApplyAll(Overlaid(s.tree, s.pending), AcceptedBy(cfg, s, op))
  {
    hide WriteFile, Flush, Apply;
    match op
    case WriteOp(path, offset, data, c) =>
      WriteConserves(cfg, s, path, offset, data, c);
      var u := Upload(path, offset, data[..WriteFile(cfg, s, path, offset, data, c).1.value]);
      ApplyTwo(Overlaid(s.tree, s.pending), u, u);
    case FlushOp(c) =>
      FlushConserves(cfg, s, c);
      NothingApplied(Flush(cfg, s, c).0.tree);
    case _ => QuietKeeps(cfg, s, op);
  }

  /** Any run of writes and flushes over any paths whose uploads succeed, with any reads,
      lookups and listings in between: the server overlaid with the buffer is the initial one
      with every accepted prefix applied in call order. */
  lemma {:induction false} WriteBackRefines(cfg: FsConfig, s: FsState, ops: seq<Op>)
    requires PendingOk(cfg.capacity, s.pending) && AllSucceed(cfg, s, ops)
    ensures var s' := Run(cfg, s, ops);
            && PendingOk(cfg.capacity, s'.pending)
            && Overlaid(s'.tree, s'.pending) == ApplyAll(Overlaid(s.tree, s.pending), Log(cfg, s, ops))
    decreases |ops|
  {
    hide Step, Succeeds, Overlaid, PendingOk, AcceptedBy;
    if ops != [] {
      StepConserves(cfg, s, ops[0]);
      var s1 := Step(cfg, s, ops[0]);
      WriteBackRefines(cfg, s1, ops[1..]);
      ApplyAllJoin(Overlaid(s.tree, s.pending), AcceptedBy(cfg, s, ops[0]), Log(cfg, s1, ops[1..]));
    }
  }

  /** After a final flush the server alone is the initial server with every accepted prefix. */
  lemma FlushedServer(cfg: FsConfig, s: FsState, ops: seq<Op>, c: Choice)
    requires s.pending == CLEAN && cfg.capacity > 0 && AllSucceed(cfg, s, ops)
    ensures var (s', r) := Flush(cfg, Run(cfg, s, ops), c);
            r.Ok? ==> s'.tree == ApplyAll(s.tree, Log(cfg, s, ops)) && s'.pending.data == []
  {
    hide Flush, Run, Apply;
    NothingApplied(s.tree);
    WriteBackRefines(cfg, s, ops);
    FlushConserves(cfg, Run(cfg, s, ops), c);
  }
}
