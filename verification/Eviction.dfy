/** Which entry a full cache gives up, counted from the calls alone: the one used least often
    under the LFU policy, the one not used for the longest time under the LRU policy. */
module Eviction {
  import opened Bytes
  import opened PagedFile
  import opened PageMerge
  import opened Cache

  /** How often a key was used since it was last inserted, and when it was used or inserted last. */
  datatype Usage = Usage(count: nat, last: nat)

  /** An entry made at this time has not expired. */
  predicate InTime(cfg: CacheConfig, since: nat, now: nat) {
    cfg.useTtl ==> now <= since + cfg.ttl
  }

  /** A lookup or a put at this time finds the key. */
  predicate Live(cfg: CacheConfig, m: Entries, key: Path, now: nat) {
    key in m && InTime(cfg, m[key].createdAt, now)
  }

  /** The usage of every key that was ever inserted: a hit or a merging put is a use, any other
      put is an insertion. */
  function Usages(cfg: CacheConfig, run: seq<Call>): map<Path, Usage> {
    if run == [] then map[]
    else
      var before, a := run[..|run| - 1], run[|run| - 1];
      var was, m := Usages(cfg, before), AfterCalls(cfg, before);
      match a
      case Look(key, now) => if Live(cfg, m, key, now) then Used(was, key, now) else was
      case Keep(key, _, _, c) => if Live(cfg, m, key, c.now) then Used(was, key, c.now) else was[key := Usage(0, c.now)]
      case KeepNew(key, _, c) => was[key := Usage(0, c.now)]
      case Drop(_, _) => was
  }

  function Used(usages: map<Path, Usage>, key: Path, now: nat): map<Path, Usage> {
    usages[key := Usage(if key in usages then usages[key].count + 1 else 1, now)]
  }

  ghost predicate RunOk(cfg: CacheConfig, run: seq<Call>) {
    run == [] ||
    (var before, a := run[..|run| - 1], run[|run| - 1];
     RunOk(cfg, before) && CallOk(cfg, AfterCalls(cfg, before), a))
  }

  ghost predicate CallOk(cfg: CacheConfig, m: Entries, a: Call) {
    match a
    case Keep(key, item, _, c) => PutOk(cfg, m, key, item, c)
    case KeepNew(key, _, c) => VictimOk(cfg, m - Ancestors(key), c)
    case _ => true
  }

  /** The entries say how their keys were used. */
  ghost predicate Counted(m: Entries, usages: map<Path, Usage>) {
    forall k :: k in m ==> k in usages && Usage(m[k].accessCount, m[k].lastAccessed) == usages[k]
  }

  lemma StepCounted(cfg: CacheConfig, m: Entries, a: Call, usages: map<Path, Usage>, usages': map<Path, Usage>)
    requires Counted(m, usages)
    requires match a
             case Look(key, now) => usages' == if Live(cfg, m, key, now) then Used(usages, key, now) else usages
             case Keep(key, _, _, c) =>
               usages' == if Live(cfg, m, key, c.now) then Used(usages, key, c.now) else usages[key := Usage(0, c.now)]
             case KeepNew(key, _, c) => usages' == usages[key := Usage(0, c.now)]
             case Drop(_, _) => usages' == usages
    ensures Counted(CallStep(cfg, m, a), usages')
  {
    hide UpdateItem, Ancestors, Put, MakeRoom;
    match a
    case Keep(key, item, invalidate, c) =>
      var m' := Put(cfg, m, key, item, invalidate, c);
      forall k | k in m' ensures k in usages' && Usage(m'[k].accessCount, m'[k].lastAccessed) == usages'[k] {
        PutEntry(cfg, m, key, item, invalidate, c, k);
      }
    case KeepNew(key, item, c) => RoomFrom(cfg, m - Ancestors(key), c.victim);
    case _ =>
  }

  lemma RoomFrom(cfg: CacheConfig, m: Entries, victim: Path)
    ensures forall k :: k in MakeRoom(cfg, m, victim) ==> k in m && MakeRoom(cfg, m, victim)[k] == m[k]
  {
  }

  lemma {:induction false} RunCounted(cfg: CacheConfig, run: seq<Call>)
    ensures Counted(AfterCalls(cfg, run), Usages(cfg, run))
  {
    hide CallStep, Counted, Live, Used;
    if run == [] {
      NothingCounted();
    } else {
      RunCounted(cfg, run[..|run| - 1]);
      StepCounted(cfg, AfterCalls(cfg, run[..|run| - 1]), run[|run| - 1], Usages(cfg, run[..|run| - 1]),
                  Usages(cfg, run));
    }
  }

  lemma NothingCounted()
    ensures Counted(map[], map[])
  {
  }

  /** The keys among which a call that inserts a new entry chooses its victim. */
  function Candidates(m: Entries, a: Call): set<Path> {
    match a
    case Keep(key, _, _, _) => m.Keys - {key}
    case KeepNew(key, _, _) => m.Keys - Ancestors(key)
    case _ => {}
  }

  /** `v` was used as seldom, or as long ago, as any of the keys. */
  predicate LeastUsed(policy: Policy, usages: map<Path, Usage>, keys: set<Path>, v: Path) {
    forall k :: k in keys && k in usages && v in usages ==>
                  if policy.Lfu? then usages[v].count <= usages[k].count else usages[v].last <= usages[k].last
  }

  /** The call finds its key and merges into its entry. */
  predicate Merges(cfg: CacheConfig, m: Entries, a: Call) {
    a.Keep? && Live(cfg, m, a.key, a.c.now)
  }

  lemma VictimLeastUsed(cfg: CacheConfig, m: Entries, usages: map<Path, Usage>, keys: set<Path>, v: Path)
    requires Counted(m, usages) && keys <= m.Keys && v in keys
    requires forall k :: k in keys ==> Rank(cfg, m[v]) <= Rank(cfg, m[k])
    ensures LeastUsed(cfg.policy, usages, keys, v)
  {
    forall k | k in keys && k in usages && v in usages
      ensures if cfg.policy.Lfu? then usages[v].count <= usages[k].count else usages[v].last <= usages[k].last
    {
      assert Usage(m[k].accessCount, m[k].lastAccessed) == usages[k];
      assert Usage(m[v].accessCount, m[v].lastAccessed) == usages[v];
    }
  }

  /** The entries among which an insertion chooses. */
  function Left(m: Entries, a: Call): Entries {
    match a
    case Keep(key, _, _, _) => m - {key}
    case KeepNew(key, _, _) => m - Ancestors(key)
    case _ => map[]
  }

  lemma InsertionKeys(cfg: CacheConfig, left: Entries, key: Path, item: CacheItem, c: Choice)
    requires VictimOk(cfg, left, c)
    ensures var after := Insert(cfg, left, key, item, c).Keys;
            if left.Keys == {} || |left.Keys| < cfg.capacity then after == left.Keys + {key}
            else c.victim in left && after == left.Keys - {c.victim} + {key}
                 && forall k :: k in left ==> Rank(cfg, left[c.victim]) <= Rank(cfg, left[k])
  {
    hide Rank;
    assert |left| == |left.Keys|;
    assert left == map[] <==> left.Keys == {};
  }

  lemma CallInserts(cfg: CacheConfig, m: Entries, a: Call)
    requires CallOk(cfg, m, a) && (a.Keep? || a.KeepNew?) && !Merges(cfg, m, a)
    ensures CallStep(cfg, m, a) == Insert(cfg, Left(m, a), a.key, a.item, a.c) && VictimOk(cfg, Left(m, a), a.c)
    ensures Left(m, a).Keys == Candidates(m, a) && forall k :: k in Left(m, a) ==> k in m && Left(m, a)[k] == m[k]
  {
    hide Insert, VictimOk, Ancestors, OrderOk;
  }

  lemma MergeKeepsKeys(cfg: CacheConfig, m: Entries, a: Call)
    requires Merges(cfg, m, a)
    ensures CallStep(cfg, m, a).Keys == m.Keys
  {
    hide UpdateItem;
  }

  /** What a put leaves: a merge keeps the keys; an insertion into a cache with room adds one; and
      an insertion into a full cache gives up exactly one key, the least used by the policy. */
  lemma PutEvictsLeastUsed(cfg: CacheConfig, run: seq<Call>, a: Call)
    requires RunOk(cfg, run) && CallOk(cfg, AfterCalls(cfg, run), a) && (a.Keep? || a.KeepNew?)
    ensures var m := AfterCalls(cfg, run);
            var keys, after := Candidates(m, a), CallStep(cfg, m, a).Keys;
            if Merges(cfg, m, a) then after == m.Keys
            else if keys == {} || |keys| < cfg.capacity then after == keys + {a.key}
            else exists v :: v in keys && v in Usages(cfg, run)
                             && LeastUsed(cfg.policy, Usages(cfg, run), keys, v) && after == keys - {v} + {a.key}
  {
    hide AfterCalls, Usages, RunOk, LeastUsed, Rank, PutOk, VictimOk, CallStep, Insert, Left, Candidates, CallOk,
      Merges;
    var m := AfterCalls(cfg, run);
    RunCounted(cfg, run);
    if Merges(cfg, m, a) {
      MergeKeepsKeys(cfg, m, a);
    } else {
      CallInserts(cfg, m, a);
      InsertionKeys(cfg, Left(m, a), a.key, a.item, a.c);
      var keys := Candidates(m, a);
      if keys != {} && |keys| >= cfg.capacity {
        VictimLeastUsed(cfg, m, Usages(cfg, run), keys, a.c.victim);
        assert a.c.victim in m;
      }
    }
  }
}
