/** Runs of the client's calls, with other clients changing the server in between, and when
    they are runs on a clock. */
module Runs {
  import opened Bytes
  import opened Cache
  import opened RwBuffer
  import opened FsModel
  import Storage

  datatype Op =
    | ReadOp(path: Path, offset: nat, size: nat, rc: ReadChoice)
    | AttrOp(path: Path, ac: AttrChoice)
    | WriteOp(path: Path, offset: nat, data: seq<byte>, wc: WriteChoice)
    | FlushOp(fc: Choice)
    | CreateOp(path: Path, offset: nat, data: seq<byte>, c: Choice)
    | MkdirOp(path: Path, c: Choice)
    | SymlinkOp(path: Path, target: string, c: Choice)
    | SetSizeOp(path: Path, size: nat, c: Choice)
    | RemoveOp(path: Path)
    | ReaddirOp(path: Path, dc: ReaddirChoice)
    | DropOp(keys: set<Path>)
    | ServerOp(tree: Tree)

  /** What one call, or another client, does. */
  ghost function Step(cfg: FsConfig, s: FsState, op: Op): FsState {
    match op
    case ReadOp(path, offset, size, c) => ReadFile(cfg, s, path, offset, size, c).0
    case AttrOp(path, c) => GetAttributes(cfg, s, path, c).0
    case WriteOp(path, offset, data, c) =>
      if |s.pending.data| <= cfg.capacity then WriteFile(cfg, s, path, offset, data, c).0 else s
    case FlushOp(c) => Flush(cfg, s, c).0
    case CreateOp(path, offset, data, c) => CreateFile(cfg, s, path, offset, data, c).0
    case MkdirOp(path, c) => Mkdir(cfg, s, path, c).0
    case SymlinkOp(path, target, c) => CreateSymlink(cfg, s, path, target, c).0
    case SetSizeOp(path, size, c) => SetSize(cfg, s, path, size, c).0
    case RemoveOp(path) => RemovePath(cfg, s, path).0
    case ReaddirOp(path, c) => if |c.puts| == |c.listing| then Readdir(cfg, s, path, c).0 else s
    case DropOp(keys) => s.(cache := s.cache - keys)
    case ServerOp(t) => s.(tree := t)
  }

  /** A client that knows nothing yet. */
  function Start(t: Tree): FsState {
    FsState(t, map[], ReadWindow(None, 0, [], 0), CLEAN)
  }

  ghost function Run(cfg: FsConfig, s: FsState, ops: seq<Op>): FsState
    decreases |ops|
  {
    if ops == [] then s else Run(cfg, Step(cfg, s, ops[0]), ops[1..])
  }

  // ---- calls that only read the server ----

  lemma AttributesKeep(cfg: FsConfig, s: FsState, path: Path, c: AttrChoice)
    ensures var s' := GetAttributes(cfg, s, path, c).0;
            s'.tree == s.tree && s'.window == s.window && s'.pending == s.pending
  {
    hide CacheGet, CacheAttr;
  }

  lemma ReadsKeep(cfg: FsConfig, s: FsState, path: Path, offset: nat, size: nat, c: ReadChoice)
    ensures var s' := ReadFile(cfg, s, path, offset, size, c).0; s'.tree == s.tree && s'.pending == s.pending
  {
    hide GetAttributes, CacheGet, CachedBytes, CacheWrite;
    AttributesKeep(cfg, s, path, c.attr);
  }

  lemma DotsKeep(cfg: FsConfig, s: FsState, path: Path, items: seq<ListItem>, self: AttrChoice, up: AttrChoice)
    ensures var s' := WithDots(cfg, s, path, items, self, up).0; s'.tree == s.tree && s'.pending == s.pending
  {
    hide GetAttributes;
    AttributesKeep(cfg, s, path, self);
    AttributesKeep(cfg, GetAttributes(cfg, s, path, self).0, ParentOrRoot(path), up);
  }

  lemma ReaddirKeeps(cfg: FsConfig, s: FsState, path: Path, c: ReaddirChoice)
    requires |c.puts| == |c.listing|
    ensures var s' := Readdir(cfg, s, path, c).0; s'.tree == s.tree && s'.pending == s.pending
  {
    hide GetAttributes, WithDots, CacheGet, CachedListing, CachePut, PutChildren;
    var (m, hit) := CacheGet(cfg, s.cache, path, c.get);
    var (m1, items) := CachedListing(cfg, m, path, hit, c.children);
    var s1 := s.(cache := m1);
    if items.Some? {
      DotsKeep(cfg, s1, path, items.value, c.dot, c.dotdot);
    } else if path in s.tree && s.tree[path].Dir? {
      AttributesKeep(cfg, s1, path, c.self);
      var (s2, attr) := GetAttributes(cfg, s1, path, c.self);
      if attr.Ok? {
        var m2 := CachePut(cfg, s2.cache, path, DirectoryItem(LastName(path), Some(attr.value), Some(c.listing)), false,
                           c.put);
        var all := ServerItems(s.tree, path, c.listing);
        DotsKeep(cfg, s2.(cache := PutChildren(cfg, m2, path, all, c.puts)), path, all, c.dot, c.dotdot);
      }
    }
  }

  /** Reads, lookups and listings leave the server and the pending writes alone. */
  lemma QuietKeeps(cfg: FsConfig, s: FsState, op: Op)
    requires op.ReadOp? || op.AttrOp? || op.ReaddirOp? || op.DropOp?
    ensures Step(cfg, s, op).tree == s.tree && Step(cfg, s, op).pending == s.pending
  {
    hide ReadFile, GetAttributes, Readdir;
    match op
    case ReadOp(path, offset, size, c) => ReadsKeep(cfg, s, path, offset, size, c);
    case AttrOp(path, c) => AttributesKeep(cfg, s, path, c);
    case ReaddirOp(path, c) =>
      if |c.puts| == |c.listing| {
        ReaddirKeeps(cfg, s, path, c);
      }
    case DropOp(_) =>
  }

  // ---- times and orders of one call ----

  /** The times of a lookup rise, and what it stores has no pages to order. */
  predicate AttrOk(clock: int, c: AttrChoice) {
    clock <= c.get <= c.put.now && c.put.order == []
  }

  /** The bytes that a read beyond the cached pages puts into the cache. */
  function Brought(cfg: FsConfig, s: FsState, path: Path, offset: nat, size: nat, now: nat): seq<byte> {
    var ahead := WindowRead(s.window, cfg.windowTtl, path, offset, size, now);
    if ahead != [] then ahead
    else match Storage.ReadFile(s.tree, path, offset, cfg.capacity)
      case Ok(data) => data
      case Err(_) => []
  }

  predicate MissTimes(delay: nat, clock: int, c: MissChoice) {
    clock <= c.window <= c.fill <= c.put.now <= c.window + delay
  }

  predicate ReadTimes(delay: nat, clock: int, c: ReadChoice) {
    AttrOk(clock, c.attr) && c.attr.put.now <= c.get && MissTimes(delay, c.get, c.miss)
  }

  ghost predicate ReadOk(cfg: FsConfig, delay: nat, clock: int, s: FsState, path: Path, offset: nat, size: nat,
                         c: ReadChoice) {
    && ReadTimes(delay, clock, c)
    && OrderOk(ChunkItem(cfg, path, offset, Brought(cfg, s, path, offset, size, c.miss.window)), c.miss.put)
  }

  predicate UploadTimes(clock: int, cs: seq<Choice>) {
    && (forall i :: 0 <= i < |cs| ==> clock <= cs[i].now)
    && (forall i, j :: 0 <= i < j < |cs| ==> cs[i].now <= cs[j].now)
  }

  function UploadEnd(clock: int, cs: seq<Choice>): int {
    if cs == [] then clock else cs[|cs| - 1].now
  }

  lemma TimesOfRest(clock: int, cs: seq<Choice>)
    requires UploadTimes(clock, cs) && cs != []
    ensures clock <= cs[0].now <= UploadEnd(clock, cs)
    ensures UploadTimes(cs[0].now, cs[1..]) && UploadEnd(cs[0].now, cs[1..]) == UploadEnd(clock, cs)
  {
  }

  /** One more choice, and all that may follow stamped with the same time. */
  lemma TimesNext(clock: int, done: seq<Choice>, c: Choice, rest: seq<Choice>)
    requires UploadTimes(clock, done) && UploadEnd(clock, done) <= c.now && clock <= c.now
    requires forall j :: 0 <= j < |rest| ==> rest[j].now == c.now
    ensures UploadTimes(clock, done + [c]) && UploadEnd(clock, done + [c]) == c.now
    ensures UploadTimes(clock, done + [c] + rest) && UploadEnd(clock, done + [c] + rest) == c.now
  {
    var all := done + [c] + rest;
    forall i | 0 <= i < |all| ensures clock <= all[i].now <= c.now && (i >= |done| ==> all[i].now == c.now) {
      assert i < |done| ==> all[i] == done[i];
    }
  }

  lemma NoTimes(clock: int)
    ensures UploadTimes(clock, []) && UploadEnd(clock, []) == clock
  {
  }

  predicate Rising(clock: int, times: seq<nat>) {
    && (forall i :: 0 <= i < |times| ==> clock <= times[i])
    && (forall i, j :: 0 <= i < j < |times| ==> times[i] <= times[j])
  }

  function LastTime(clock: int, times: seq<nat>): int {
    if times == [] then clock else times[|times| - 1]
  }

  lemma RisingRest(clock: int, times: seq<nat>)
    requires Rising(clock, times) && times != []
    ensures clock <= times[0] <= LastTime(clock, times)
    ensures Rising(times[0], times[1..]) && LastTime(times[0], times[1..]) == LastTime(clock, times)
  {
  }

  lemma RisingNext(clock: int, done: seq<nat>, now: nat, rest: nat)
    requires Rising(clock, done) && LastTime(clock, done) <= now && clock <= now
    ensures Rising(clock, done + [now]) && LastTime(clock, done + [now]) == now
    ensures Rising(clock, done + [now] + seq(rest, _ => now))
            && LastTime(clock, done + [now] + seq(rest, _ => now)) == now
  {
    var all := done + [now] + seq(rest, _ => now);
    forall i | 0 <= i < |all| ensures clock <= all[i] <= now && (i >= |done| ==> all[i] == now) {
      assert i < |done| ==> all[i] == done[i];
    }
  }

  lemma NoRising(clock: int)
    ensures Rising(clock, []) && LastTime(clock, []) == clock
  {
  }

  predicate PutTimes(clock: int, cs: seq<Choice>) {
    UploadTimes(clock, cs) && forall c :: c in cs ==> c.order == []
  }

  predicate DotsOk(clock: int, self: AttrChoice, up: AttrChoice) {
    AttrOk(clock, self) && AttrOk(self.put.now, up)
  }

  predicate ListTimes(clock: int, c: ReaddirChoice) {
    && AttrOk(clock, c.self)
    && c.self.put.now <= c.put.now && c.put.order == []
    && PutTimes(c.put.now, c.puts)
    && DotsOk(UploadEnd(c.put.now, c.puts), c.dot, c.dotdot)
  }

  /** The times of a listing rise from the first lookup to the last. */
  predicate ReaddirTimes(clock: int, c: ReaddirChoice) {
    clock <= c.get && Rising(c.get, c.children) && ListTimes(LastTime(c.get, c.children), c)
  }

  // ---- what is seen of the server ----

  /** The server's tree at some time. */
  datatype Snapshot = Snapshot(time: nat, tree: Tree)

  type History = seq<Snapshot>

  /** The server's tree after each upload. */
  function UploadSnapshots(cfg: FsConfig, s: FsState, uploads: seq<Upload>, cs: seq<Choice>): History
    requires |cs| == |uploads|
    decreases |uploads|
  {
    if uploads == [] then []
    else
      var (s1, r) := UploadOne(cfg, s, uploads[0], cs[0]);
      [Snapshot(cs[0].now, s1.tree)] + if r.Err? then [] else UploadSnapshots(cfg, s1, uploads[1..], cs[1..])
  }

  /** The server's tree when a call read or changed something there. */
  ghost function Seen(cfg: FsConfig, s: FsState, op: Op): History {
    match op
    case ReadOp(_, _, _, c) => [Snapshot(c.miss.put.now, s.tree)]
    case WriteOp(path, offset, data, c) =>
      if |s.pending.data| <= cfg.capacity then
        var (b, uploads, _) := WriteSection(cfg.capacity, s.pending, path, offset, data);
        UploadSnapshots(cfg, s.(pending := b), uploads, ChoicesFor(|uploads|, c))
      else []
    case FlushOp(c) => if s.pending.data == [] then [] else [Snapshot(c.now, Flush(cfg, s, c).0.tree)]
    case AttrOp(_, c) => [Snapshot(c.put.now, s.tree)]
    case ReaddirOp(_, c) => [Snapshot(c.dotdot.put.now, s.tree)]
    case CreateOp(_, _, _, c) => [Snapshot(c.now, Step(cfg, s, op).tree)]
    case MkdirOp(_, c) => [Snapshot(c.now, Step(cfg, s, op).tree)]
    case SymlinkOp(_, _, c) => [Snapshot(c.now, Step(cfg, s, op).tree)]
    case SetSizeOp(_, _, c) => [Snapshot(c.now, Step(cfg, s, op).tree)]
    case _ => []
  }

  function WriteTimes(cfg: FsConfig, s: FsState, path: Path, offset: nat, data: seq<byte>, c: WriteChoice): seq<Choice>
    requires |s.pending.data| <= cfg.capacity
  {
    ChoicesFor(|WriteSection(cfg.capacity, s.pending, path, offset, data).1|, c)
  }

  /** The times of a call rise from the clock on, merges visit every page, the server lists what
      it has and keeps a file tree, and the front end never removes the root. */
  ghost predicate OpOk(cfg: FsConfig, delay: nat, clock: int, s: FsState, op: Op) {
    match op
    case ReadOp(path, offset, size, c) => ReadOk(cfg, delay, clock, s, path, offset, size, c)
    case AttrOp(_, c) => AttrOk(clock, c)
    case WriteOp(path, offset, data, c) =>
      |s.pending.data| <= cfg.capacity ==>
        && UploadTimes(clock, WriteTimes(cfg, s, path, offset, data, c))
        && UploadOrdersOk(cfg, WriteSection(cfg.capacity, s.pending, path, offset, data).1,
                          WriteTimes(cfg, s, path, offset, data, c))
    case FlushOp(c) =>
      var u := UploadOf(s.pending); clock <= c.now && OrderOk(ChunkItem(cfg, u.path, u.offset, u.data), c)
    case CreateOp(_, _, _, c) => clock <= c.now
    case MkdirOp(_, c) => clock <= c.now
    case SymlinkOp(_, _, c) => clock <= c.now
    case SetSizeOp(_, _, c) => clock <= c.now && c.order == []
    case ReaddirOp(path, c) => |c.puts| == |c.listing| && ReaddirTimes(clock, c) && ListingChosen(s.tree, path, c)
    case RemoveOp(path) => path != []
    case ServerOp(t) => Storage.WellFormed(t)
    case DropOp(_) => true
  }

  /** The time when the call is over. */
  function End(cfg: FsConfig, clock: int, s: FsState, op: Op): int {
    match op
    case ReadOp(_, _, _, c) => c.miss.put.now
    case AttrOp(_, c) => c.put.now
    case WriteOp(path, offset, data, c) =>
      if |s.pending.data| <= cfg.capacity then UploadEnd(clock, WriteTimes(cfg, s, path, offset, data, c)) else clock
    case FlushOp(c) => c.now
    case CreateOp(_, _, _, c) => c.now
    case MkdirOp(_, c) => c.now
    case SymlinkOp(_, _, c) => c.now
    case SetSizeOp(_, _, c) => c.now
    case ReaddirOp(_, c) => if |c.puts| == |c.listing| then c.dotdot.put.now else clock
    case _ => clock
  }

  ghost function RunSeen(cfg: FsConfig, s: FsState, ops: seq<Op>): History
    decreases |ops|
  {
    if ops == [] then [] else Seen(cfg, s, ops[0]) + RunSeen(cfg, Step(cfg, s, ops[0]), ops[1..])
  }

  ghost function RunEnd(cfg: FsConfig, clock: int, s: FsState, ops: seq<Op>): int
    decreases |ops|
  {
    if ops == [] then clock else RunEnd(cfg, End(cfg, clock, s, ops[0]), Step(cfg, s, ops[0]), ops[1..])
  }

  ghost predicate RunOk(cfg: FsConfig, delay: nat, clock: int, s: FsState, ops: seq<Op>)
    decreases |ops|
  {
    ops == [] ||
    (OpOk(cfg, delay, clock, s, ops[0])
     && RunOk(cfg, delay, End(cfg, clock, s, ops[0]), Step(cfg, s, ops[0]), ops[1..]))
  }

  // ---- the runs of a client that works ----

  /** What a call of the client promises about its choices, when it runs from `start` to `end`. */
  ghost predicate Legal(cfg: FsConfig, start: nat, end: nat, s: FsState, op: Op) {
    start <= end && OpOk(cfg, end - start, start, s, op) && End(cfg, start, s, op) <= end
  }

  /** One call after the other, from the time `times[j]` to the time `times[j + 1]`. */
  ghost predicate LegalRun(cfg: FsConfig, times: seq<nat>, s: FsState, ops: seq<Op>)
    requires |times| == |ops| + 1
    decreases |ops|
  {
    ops == [] || (Legal(cfg, times[0], times[1], s, ops[0])
                  && LegalRun(cfg, times[1..], Step(cfg, s, ops[0]), ops[1..]))
  }

  lemma EarlierOk(cfg: FsConfig, delay: nat, longer: nat, clock: int, earlier: int, s: FsState, op: Op)
    requires OpOk(cfg, delay, clock, s, op) && delay <= longer && earlier <= clock
    ensures OpOk(cfg, longer, earlier, s, op)
    ensures End(cfg, earlier, s, op) <= Max(clock, End(cfg, clock, s, op))
  {
    hide WriteSection, ChunkItem, OrderOk, Brought, UploadOrdersOk, ListTimes;
  }

  /** A run of calls that keep their promises, none longer than `delay`, meets the conditions
      of the results about runs. */
  lemma {:induction false} LegalRunOk(cfg: FsConfig, delay: nat, clock: int, times: seq<nat>, s: FsState, ops: seq<Op>)
    requires |times| == |ops| + 1 && LegalRun(cfg, times, s, ops) && clock <= times[0]
    requires forall j :: 0 <= j < |ops| ==> times[j + 1] <= times[j] + delay
    ensures RunOk(cfg, delay, clock, s, ops)
    decreases |ops|
  {
    hide OpOk, End, Step;
    if ops != [] {
      EarlierOk(cfg, times[1] - times[0], delay, times[0], clock, s, ops[0]);
      assert times[0 + 1] <= times[0] + delay;
      forall j | 0 <= j < |ops[1..]| ensures times[1..][j + 1] <= times[1..][j] + delay {
        assert times[1..][j + 1] == times[(j + 1) + 1] && times[1..][j] == times[j + 1];
      }
      LegalRunOk(cfg, delay, End(cfg, clock, s, ops[0]), times[1..], Step(cfg, s, ops[0]), ops[1..]);
    }
  }
}
