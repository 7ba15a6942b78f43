/** With the LRU policy and without expiry the cache holds exactly the most recently touched
    keys, so a larger cache always holds at least what a smaller one does. */
module LruCache {
  import opened Bytes
  import opened PagedFile
  import opened PageMerge
  import opened Cache

  // ---- runs of get and put ----

  /** The clock never runs backwards, and every eviction takes an entry of least rank. */
  ghost predicate RunOk(cfg: CacheConfig, run: seq<Call>) {
    run == [] ||
    (var before, last := run[..|run| - 1], run[|run| - 1];
     && RunOk(cfg, before) && (last.Look? || last.Keep?)
     && LastTime(before) <= CallTime(last)
     && (last.Keep? ==> PutOk(cfg, AfterCalls(cfg, before), last.key, last.item, last.c)))
  }

  function LastTime(run: seq<Call>): int {
    if run == [] then -1 else CallTime(run[|run| - 1])
  }

  /** No two calls at the same time. */
  ghost predicate NoTies(run: seq<Call>) {
    run == [] || (NoTies(run[..|run| - 1]) && LastTime(run[..|run| - 1]) < CallTime(run[|run| - 1]))
  }

  /** The position in the run of each key's last touch: a put, or a get that hit. */
  function LastTouch(cfg: CacheConfig, run: seq<Call>): map<Path, nat> {
    if run == [] then map[]
    else
      var before, last := run[..|run| - 1], run[|run| - 1];
      var touched := LastTouch(cfg, before);
      if last.Keep? || (last.Look? && last.key in AfterCalls(cfg, before)) then touched[last.key := |before|]
      else touched
  }

  /** The keys touched later than `k`. */
  function Later(touched: map<Path, nat>, k: Path): set<Path>
    requires k in touched
  {
    set q | q in touched && touched[q] > touched[k]
  }

  // ---- the invariant ----

  /** The cached keys are the latest ones, in the order of their access times. */
  ghost predicate Latest(m: Entries, touched: map<Path, nat>, position: nat, clock: int) {
    && m.Keys <= touched.Keys
    && (forall k :: k in touched ==> touched[k] < position)
    && (forall k :: k in m ==> m[k].lastAccessed <= clock)
    && (forall k, q :: k in touched && q in touched && k != q ==> touched[k] != touched[q])
    && (forall k, q :: k in m && q in m && touched[k] < touched[q] ==> m[k].lastAccessed < m[q].lastAccessed)
    && (forall k, q :: k in m && q in touched && q !in m ==> touched[q] < touched[k])
  }

  ghost predicate LruInv(capacity: nat, m: Entries, touched: map<Path, nat>, position: nat, clock: int) {
    Latest(m, touched, position, clock) && SizeInv(capacity, m, touched)
  }

  ghost predicate SizeInv(capacity: nat, m: Entries, touched: map<Path, nat>) {
    |m| <= Max(1, capacity) && (m.Keys == touched.Keys || |m| == Max(1, capacity))
  }

  lemma TouchKeepsLatest(m: Entries, m': Entries, touched: map<Path, nat>, position: nat, clock: int, key: Path,
                         now: nat)
    requires Latest(m, touched, position, clock) && clock < now
    requires m'.Keys == m.Keys + {key} && m'[key].lastAccessed == now
    requires forall k :: k in m && k != key ==> m'[k] == m[k]
    ensures Latest(m', touched[key := position], position + 1, now)
  {
  }

  lemma EvictKeepsLatest(cfg: CacheConfig, m: Entries, touched: map<Path, nat>, position: nat, clock: int, victim: Path)
    requires cfg.policy.Lru? && Latest(m, touched, position, clock) && IsVictim(cfg, m, victim)
    ensures Latest(m - {victim}, touched, position, clock)
  {
    forall k | k in m && k != victim ensures touched[victim] < touched[k] {
      assert Rank(cfg, m[victim]) <= Rank(cfg, m[k]);
    }
  }

  lemma HitKeepsInv(capacity: nat, m: Entries, m': Entries, touched: map<Path, nat>, position: nat, clock: int,
                    key: Path, now: nat)
    requires LruInv(capacity, m, touched, position, clock) && clock < now && key in m
    requires m'.Keys == m.Keys && m'[key].lastAccessed == now
    requires forall k :: k in m && k != key ==> m'[k] == m[k]
    ensures LruInv(capacity, m', touched[key := position], position + 1, now)
  {
    hide Latest;
    TouchKeepsLatest(m, m', touched, position, clock, key, now);
    assert |m| == |m.Keys| && |m'| == |m'.Keys|;
    assert m.Keys == touched.Keys ==> touched[key := position].Keys == touched.Keys;
  }

  lemma WaitKeepsInv(capacity: nat, m: Entries, touched: map<Path, nat>, position: nat, clock: int, now: nat)
    requires LruInv(capacity, m, touched, position, clock) && clock < now
    ensures LruInv(capacity, m, touched, position + 1, now)
  {
  }

  lemma InsertKeepsInv(cfg: CacheConfig, m: Entries, touched: map<Path, nat>, position: nat, clock: int,
                       key: Path, item: CacheItem, c: Choice)
    requires cfg.policy.Lru? && LruInv(cfg.capacity, m, touched, position, clock) && clock < c.now
    requires key !in m && VictimOk(cfg, m, c)
    ensures LruInv(cfg.capacity, Insert(cfg, m, key, item, c), touched[key := position], position + 1, c.now)
  {
    hide Latest, VictimOk, MakeRoom, SizeInv;
    var room, m' := MakeRoom(cfg, m, c.victim), Insert(cfg, m, key, item, c);
    RoomKeepsLatest(cfg, m, touched, position, clock, c);
    assert m'.Keys == room.Keys + {key};
    TouchKeepsLatest(room, m', touched, position, clock, key, c.now);
    InsertKeepsSize(cfg, m, touched, position, key, item, c);
  }

  lemma InsertKeepsSize(cfg: CacheConfig, m: Entries, touched: map<Path, nat>, position: nat, key: Path,
                        item: CacheItem, c: Choice)
    requires SizeInv(cfg.capacity, m, touched) && key !in m && VictimOk(cfg, m, c)
    ensures SizeInv(cfg.capacity, Insert(cfg, m, key, item, c), touched[key := position])
  {
    hide VictimOk, Insert;
    InsertSize(cfg, m, key, item, c);
    if |m| < cfg.capacity {
      InsertAdds(cfg, m, key, item, c);
      assert touched[key := position].Keys == touched.Keys + {key};
    }
  }

  lemma InsertAdds(cfg: CacheConfig, m: Entries, key: Path, item: CacheItem, c: Choice)
    requires |m| < cfg.capacity
    ensures Insert(cfg, m, key, item, c).Keys == m.Keys + {key}
  {
  }

  lemma RoomKeepsLatest(cfg: CacheConfig, m: Entries, touched: map<Path, nat>, position: nat, clock: int, c: Choice)
    requires cfg.policy.Lru? && Latest(m, touched, position, clock) && VictimOk(cfg, m, c)
    ensures Latest(MakeRoom(cfg, m, c.victim), touched, position, clock)
    ensures |m| < cfg.capacity ==> MakeRoom(cfg, m, c.victim) == m
  {
    hide Latest, IsVictim;
    if |m| >= cfg.capacity && m != map[] {
      EvictKeepsLatest(cfg, m, touched, position, clock, c.victim);
    } else {
      assert m == map[] ==> m - {c.victim} == m;
    }
  }

  lemma ClockKeepsInv(capacity: nat, m: Entries, touched: map<Path, nat>, position: nat, clock: int, later: int)
    requires LruInv(capacity, m, touched, position, clock) && clock <= later
    ensures LruInv(capacity, m, touched, position, later)
  {
  }

  lemma InsertSize(cfg: CacheConfig, m: Entries, key: Path, item: CacheItem, c: Choice)
    requires |m| <= Max(1, cfg.capacity) && key !in m && VictimOk(cfg, m, c)
    ensures |Insert(cfg, m, key, item, c)| == if |m| < cfg.capacity then |m| + 1 else Max(1, cfg.capacity)
  {
    hide Rank;
    var room := MakeRoom(cfg, m, c.victim);
    var r := Insert(cfg, m, key, item, c);
    assert |m| == |m.Keys| && |room| == |room.Keys| && |r| == |r.Keys|;
    assert r.Keys == room.Keys + {key};
    if |m| >= cfg.capacity {
      assert room.Keys == m.Keys - {c.victim};
      assert |m| > 0 ==> m != map[];
    }
  }

  lemma StepKeepsInv(cfg: CacheConfig, m: Entries, touched: map<Path, nat>, position: nat, clock: int, a: Call)
    requires cfg.policy.Lru? && !cfg.useTtl && LruInv(cfg.capacity, m, touched, position, clock) && clock < CallTime(a)
    requires (a.Look? || a.Keep?) && (a.Keep? ==> PutOk(cfg, m, a.key, a.item, a.c))
    ensures LruInv(cfg.capacity, CallStep(cfg, m, a),
                   if a.Keep? || a.key in m then touched[a.key := position] else touched, position + 1, CallTime(a))
  {
    hide UpdateItem, Insert, IsOrder, LruInv, VictimOk;
    if a.key in m {
      HitKeepsInv(cfg.capacity, m, CallStep(cfg, m, a), touched, position, clock, a.key, CallTime(a));
    } else if a.Keep? {
      assert m - {a.key} == m;
      InsertKeepsInv(cfg, m, touched, position, clock, a.key, a.item, a.c);
    } else {
      WaitKeepsInv(cfg.capacity, m, touched, position, clock, CallTime(a));
    }
  }

  lemma {:induction false} RunKeepsInv(cfg: CacheConfig, run: seq<Call>)
    requires cfg.policy.Lru? && !cfg.useTtl && RunOk(cfg, run) && NoTies(run)
    ensures LruInv(cfg.capacity, AfterCalls(cfg, run), LastTouch(cfg, run), |run|, LastTime(run))
  {
    hide CallStep, PutOk, LruInv;
    if run == [] {
      NothingCached(cfg.capacity);
    } else {
      var before, last := run[..|run| - 1], run[|run| - 1];
      RunKeepsInv(cfg, before);
      StepKeepsInv(cfg, AfterCalls(cfg, before), LastTouch(cfg, before), |before|, LastTime(before), last);
    }
  }

  lemma NothingCached(capacity: nat)
    ensures LruInv(capacity, map[], map[], 0, -1)
  {
  }

  lemma ExactByInv(capacity: nat, m: Entries, touched: map<Path, nat>, position: nat, clock: int, k: Path)
    requires LruInv(capacity, m, touched, position, clock)
    ensures k in m <==> k in touched && |Later(touched, k)| < Max(1, capacity)
  {
    assert |m| == |m.Keys|;
    if k in m {
      SubsetSize(Later(touched, k) + {k}, m.Keys);
    } else if k in touched {
      SubsetSize(m.Keys, Later(touched, k));
    }
  }

  /** After every run of gets and puts, no two at the same time, the cached keys are exactly
      those with fewer than `capacity` keys touched after them. */
  lemma LruExact(cfg: CacheConfig, run: seq<Call>, k: Path)
    requires cfg.policy.Lru? && !cfg.useTtl && RunOk(cfg, run) && NoTies(run)
    ensures k in AfterCalls(cfg, run) <==>
            k in LastTouch(cfg, run) && |Later(LastTouch(cfg, run), k)| < Max(1, cfg.capacity)
  {
    hide LruInv, RunOk, Later;
    RunKeepsInv(cfg, run);
    ExactByInv(cfg.capacity, AfterCalls(cfg, run), LastTouch(cfg, run), |run|, LastTime(run), k);
  }

  // ---- when times repeat ----

  /** The time of each key's last touch. */
  function TouchTime(cfg: CacheConfig, run: seq<Call>): map<Path, nat> {
    if run == [] then map[]
    else
      var before, last := run[..|run| - 1], run[|run| - 1];
      var times := TouchTime(cfg, before);
      if last.Keep? || (last.Look? && last.key in AfterCalls(cfg, before)) then times[last.key := CallTime(last)]
      else times
  }

  /** Every cached key was last touched when it says, and no key that is not cached later. */
  ghost predicate LatestTimes(m: Entries, times: map<Path, nat>, clock: int) {
    && m.Keys <= times.Keys
    && (forall k :: k in times ==> times[k] <= clock)
    && (forall k :: k in m ==> m[k].lastAccessed == times[k])
    && (forall k, q :: k in m && q in times && q !in m ==> times[q] <= times[k])
  }

  lemma InsertKeepsTimes(cfg: CacheConfig, m: Entries, times: map<Path, nat>, clock: int, key: Path, item: CacheItem,
                         c: Choice)
    requires cfg.policy.Lru? && LatestTimes(m, times, clock) && clock <= c.now && key !in m && VictimOk(cfg, m, c)
    ensures LatestTimes(Insert(cfg, m, key, item, c), times[key := c.now], c.now)
  {
  }

  lemma HitKeepsTimes(m: Entries, m': Entries, times: map<Path, nat>, clock: int, key: Path, now: nat)
    requires LatestTimes(m, times, clock) && clock <= now && key in m
    requires m'.Keys == m.Keys && m'[key].lastAccessed == now && forall k :: k in m && k != key ==> m'[k] == m[k]
    ensures LatestTimes(m', times[key := now], now) && m.Keys <= times.Keys
  {
  }

  ghost predicate TimesInv(capacity: nat, m: Entries, times: map<Path, nat>, clock: int) {
    LatestTimes(m, times, clock) && SizeInv(capacity, m, times)
  }

  lemma StepKeepsTimes(cfg: CacheConfig, m: Entries, times: map<Path, nat>, clock: int, a: Call)
    requires cfg.policy.Lru? && !cfg.useTtl && TimesInv(cfg.capacity, m, times, clock) && clock <= CallTime(a)
    requires (a.Look? || a.Keep?) && (a.Keep? ==> PutOk(cfg, m, a.key, a.item, a.c))
    ensures TimesInv(cfg.capacity, CallStep(cfg, m, a),
                     if a.Keep? || a.key in m then times[a.key := CallTime(a)] else times, CallTime(a))
  {
    hide UpdateItem, Insert, IsOrder, VictimOk, LatestTimes, SizeInv;
    if a.key in m {
      HitKeepsTimes(m, CallStep(cfg, m, a), times, clock, a.key, CallTime(a));
      SameSize(cfg.capacity, m, CallStep(cfg, m, a), times, times[a.key := CallTime(a)]);
    } else if a.Keep? {
      assert m - {a.key} == m;
      InsertKeepsTimes(cfg, m, times, clock, a.key, a.item, a.c);
      InsertKeepsSize(cfg, m, times, a.c.now, a.key, a.item, a.c);
    } else {
      WaitKeepsTimes(m, times, clock, CallTime(a));
    }
  }

  lemma WaitKeepsTimes(m: Entries, times: map<Path, nat>, clock: int, later: int)
    requires LatestTimes(m, times, clock) && clock <= later
    ensures LatestTimes(m, times, later)
  {
  }

  lemma SameSize(capacity: nat, m: Entries, m': Entries, times: map<Path, nat>, times': map<Path, nat>)
    requires SizeInv(capacity, m, times) && m.Keys == m'.Keys && times.Keys <= times'.Keys <= times.Keys + m.Keys
    requires m.Keys <= times.Keys
    ensures SizeInv(capacity, m', times')
  {
    assert |m| == |m.Keys| && |m'| == |m'.Keys|;
  }

  lemma {:induction false} RunKeepsTimes(cfg: CacheConfig, run: seq<Call>)
    requires cfg.policy.Lru? && !cfg.useTtl && RunOk(cfg, run)
    ensures TimesInv(cfg.capacity, AfterCalls(cfg, run), TouchTime(cfg, run), LastTime(run))
  {
    hide CallStep, PutOk, TimesInv;
    if run == [] {
      NoTimes(cfg.capacity);
    } else {
      var before, last := run[..|run| - 1], run[|run| - 1];
      RunKeepsTimes(cfg, before);
      StepKeepsTimes(cfg, AfterCalls(cfg, before), TouchTime(cfg, before), LastTime(before), last);
    }
  }

  lemma NoTimes(capacity: nat)
    ensures TimesInv(capacity, map[], map[], -1)
  {
  }

  /** The other keys last touched after `k`, or at the same time if ties count. */
  function Rivals(times: map<Path, nat>, k: Path, ties: bool): set<Path>
    requires k in times
  {
    set q | q in times && q != k && (times[q] > times[k] || (ties && times[q] == times[k]))
  }

  /** Under a clock that may repeat a time: a key with fewer than `capacity` rivals is cached,
      and a cached key has fewer than `capacity` rivals if ties do not count. */
  lemma LruUpToTies(cfg: CacheConfig, run: seq<Call>, k: Path)
    requires cfg.policy.Lru? && !cfg.useTtl && RunOk(cfg, run)
    ensures var times := TouchTime(cfg, run);
            && (k in times && |Rivals(times, k, true)| < Max(1, cfg.capacity) ==> k in AfterCalls(cfg, run))
            && (k in AfterCalls(cfg, run) ==> k in times && |Rivals(times, k, false)| < Max(1, cfg.capacity))
  {
    hide RunOk, AfterCalls, TouchTime, LastTouch;
    RunKeepsTimes(cfg, run);
    var m, times := AfterCalls(cfg, run), TouchTime(cfg, run);
    assert |m| == |m.Keys|;
    if k in m {
      SubsetSize(Rivals(times, k, false) + {k}, m.Keys);
    } else if k in times {
      SubsetSize(m.Keys, Rivals(times, k, true));
    }
  }

  lemma OneMoreCall(cfg: CacheConfig, run: seq<Call>, a: Call)
    ensures AfterCalls(cfg, run + [a]) == CallStep(cfg, AfterCalls(cfg, run), a)
    ensures a.Keep? ==> LastTouch(cfg, run + [a]) == LastTouch(cfg, run)[a.key := |run|]
    ensures RunOk(cfg, run + [a]) <==>
            && RunOk(cfg, run) && (a.Look? || a.Keep?) && LastTime(run) <= CallTime(a)
            && (a.Keep? ==> PutOk(cfg, AfterCalls(cfg, run), a.key, a.item, a.c))
    ensures LastTime(run + [a]) == CallTime(a)
  {
    hide CallStep, PutOk;
    var next := run + [a];
    assert next[..|next| - 1] == run && next[|next| - 1] == a;
  }

  lemma FirstPuts(cfg: CacheConfig, item: CacheItem, a: Path, b: Path)
    requires !cfg.useTtl && cfg.capacity == 2 && item.DirectoryItem? && a != b
    ensures var x, y := Keep(a, item, false, Choice(0, [], [])), Keep(b, item, false, Choice(0, [], []));
            var e := CacheEntry(item, 0, 0, 0);
            && RunOk(cfg, [x, y]) && LastTime([x, y]) == 0
            && AfterCalls(cfg, [x, y]) == map[a := e, b := e]
            && LastTouch(cfg, [x, y]) == map[a := 0, b := 1]
  {
    var x, y := Keep(a, item, false, Choice(0, [], [])), Keep(b, item, false, Choice(0, [], []));
    var e := CacheEntry(item, 0, 0, 0);
    OneMoreCall(cfg, [], x);
    assert [] + [x] == [x] && [x] + [y] == [x, y];
    assert AfterCalls(cfg, [x]) == map[a := e];
    assert |map[a := e]| == 1;
    assert map[a := e] - {b} == map[a := e];
    OneMoreCall(cfg, [x], y);
  }

  lemma ThirdPut(cfg: CacheConfig, item: CacheItem, a: Path, b: Path, d: Path)
    requires cfg.policy.Lru? && !cfg.useTtl && cfg.capacity == 2 && item.DirectoryItem? && a != b && a != d && b != d
    ensures var e := CacheEntry(item, 0, 0, 0);
            var m := map[a := e, b := e];
            && PutOk(cfg, m, d, item, Choice(0, b, []))
            && CallStep(cfg, m, Keep(d, item, false, Choice(0, b, []))).Keys == {a, d}
  {
    var e := CacheEntry(item, 0, 0, 0);
    var m := map[a := e, b := e];
    assert |m| == 2 && m - {d} == m;
  }

  /** Three puts at one time into a cache for two: the second key may be the victim although
      the first one is older, so that with ties the cached keys are not always the latest. */
  lemma TiesBreakExactness(cfg: CacheConfig, item: CacheItem, a: Path, b: Path, d: Path)
    requires cfg.policy.Lru? && !cfg.useTtl && cfg.capacity == 2 && item.DirectoryItem? && a != b && a != d && b != d
    ensures var run := [Keep(a, item, false, Choice(0, [], [])), Keep(b, item, false, Choice(0, [], [])),
                        Keep(d, item, false, Choice(0, b, []))];
            && RunOk(cfg, run) && AfterCalls(cfg, run).Keys == {a, d}
            && b in LastTouch(cfg, run) && |Later(LastTouch(cfg, run), b)| < cfg.capacity
  {
    hide RunOk, AfterCalls, LastTouch, CallStep, PutOk;
    var x, y := Keep(a, item, false, Choice(0, [], [])), Keep(b, item, false, Choice(0, [], []));
    var z := Keep(d, item, false, Choice(0, b, []));
    FirstPuts(cfg, item, a, b);
    ThirdPut(cfg, item, a, b, d);
    OneMoreCall(cfg, [x, y], z);
    assert [x, y] + [z] == [x, y, z];
    assert Later(map[a := 0, b := 1, d := 2], b) == {d};
  }

  // ---- inclusion ----

  /** A get, followed by a put if it missed. */
  datatype Request = Request(key: Path, item: CacheItem, now: nat, c: Choice)

  function Serve(cfg: CacheConfig, m: Entries, r: Request): Entries {
    var (m1, hit) := Get(cfg, m, r.key, r.now);
    if hit.Some? then m1 else Put(cfg, m1, r.key, r.item, false, r.c)
  }

  function Served(cfg: CacheConfig, run: seq<Request>): Entries {
    if run == [] then map[] else Serve(cfg, Served(cfg, run[..|run| - 1]), run[|run| - 1])
  }

  /** The clock never runs backwards, and every eviction takes an entry of least rank. */
  ghost predicate ServeOk(cfg: CacheConfig, run: seq<Request>) {
    run == [] ||
    (var before, last := run[..|run| - 1], run[|run| - 1];
     && ServeOk(cfg, before)
     && LastServed(before) <= last.now <= last.c.now
     && (last.key !in Served(cfg, before) ==> PutOk(cfg, Served(cfg, before), last.key, last.item, last.c)))
  }

  function LastServed(run: seq<Request>): int {
    if run == [] then -1 else run[|run| - 1].c.now
  }

  /** No two calls at the same time. */
  predicate Rising(run: seq<Request>) {
    run == [] ||
    (var before, last := run[..|run| - 1], run[|run| - 1];
     Rising(before) && LastServed(before) < last.now < last.c.now)
  }

  /** The position of each key's last request. */
  function LastRequest(keys: seq<Path>): map<Path, nat> {
    if keys == [] then map[] else LastRequest(keys[..|keys| - 1])[keys[|keys| - 1] := |keys| - 1]
  }

  function Keys(run: seq<Request>): seq<Path> {
    seq(|run|, i requires 0 <= i < |run| => run[i].key)
  }

  lemma ServeKeepsInv(cfg: CacheConfig, m: Entries, touched: map<Path, nat>, position: nat, clock: int, r: Request)
    requires cfg.policy.Lru? && !cfg.useTtl && LruInv(cfg.capacity, m, touched, position, clock)
    requires clock < r.now < r.c.now && (r.key !in m ==> PutOk(cfg, m, r.key, r.item, r.c))
    ensures LruInv(cfg.capacity, Serve(cfg, m, r), touched[r.key := position], position + 1, r.c.now)
  {
    hide UpdateItem, Insert, IsOrder, LruInv, VictimOk;
    if r.key in m {
      HitKeepsInv(cfg.capacity, m, Serve(cfg, m, r), touched, position, clock, r.key, r.now);
      ClockKeepsInv(cfg.capacity, Serve(cfg, m, r), touched[r.key := position], position + 1, r.now, r.c.now);
    } else {
      assert m - {r.key} == m;
      InsertKeepsInv(cfg, m, touched, position, clock, r.key, r.item, r.c);
    }
  }

  lemma {:induction false} ServedKeepsInv(cfg: CacheConfig, run: seq<Request>)
    requires cfg.policy.Lru? && !cfg.useTtl && ServeOk(cfg, run) && Rising(run)
    ensures LruInv(cfg.capacity, Served(cfg, run), LastRequest(Keys(run)), |run|, LastServed(run))
  {
    hide Serve, PutOk, LruInv;
    if run == [] {
      NothingCached(cfg.capacity);
    } else {
      var before, last := run[..|run| - 1], run[|run| - 1];
      ServedKeepsInv(cfg, before);
      assert Keys(run)[..|run| - 1] == Keys(before);
      ServeKeepsInv(cfg, Served(cfg, before), LastRequest(Keys(before)), |before|, LastServed(before), last);
    }
  }

  /** Two LRU caches that see the same requests, no two calls at the same time: the smaller one's
      keys are always among the larger one's, whatever the times and victims of either. */
  lemma Inclusion(small: CacheConfig, large: CacheConfig, run: seq<Request>, run': seq<Request>, k: Path)
    requires small.policy.Lru? && !small.useTtl && ServeOk(small, run) && Rising(run)
    requires large.policy.Lru? && !large.useTtl && ServeOk(large, run') && Rising(run')
    requires small.capacity <= large.capacity && Keys(run) == Keys(run')
    ensures k in Served(small, run) ==> k in Served(large, run')
  {
    hide LruInv, Later, LastRequest, ServeOk, Rising;
    ServedKeepsInv(small, run);
    ServedKeepsInv(large, run');
    ExactByInv(small.capacity, Served(small, run), LastRequest(Keys(run)), |run|, LastServed(run), k);
    ExactByInv(large.capacity, Served(large, run'), LastRequest(Keys(run')), |run'|, LastServed(run'), k);
  }

  /** A cache whose keys were all put at time zero. */
  function AtZero(item: CacheItem, keys: set<Path>): Entries {
    map k | k in keys :: CacheEntry(item, 0, 0, 0)
  }

  function RequestAtZero(item: CacheItem, key: Path, victim: Path): Request {
    Request(key, item, 0, Choice(0, victim, []))
  }

  lemma OneMoreRequest(cfg: CacheConfig, run: seq<Request>, r: Request)
    ensures Served(cfg, run + [r]) == Serve(cfg, Served(cfg, run), r)
    ensures ServeOk(cfg, run + [r]) <==>
            && ServeOk(cfg, run) && LastServed(run) <= r.now <= r.c.now
            && (r.key !in Served(cfg, run) ==> PutOk(cfg, Served(cfg, run), r.key, r.item, r.c))
    ensures LastServed(run + [r]) == r.c.now
  {
    hide Serve, PutOk;
    var next := run + [r];
    assert next[..|next| - 1] == run && next[|next| - 1] == r;
  }

  /** A put of a new key at time zero, from the keys `keys` to the keys `rest` and itself. */
  ghost predicate Makes(cfg: CacheConfig, keys: set<Path>, victim: Path, rest: set<Path>) {
    if |keys| >= cfg.capacity then victim in keys && rest == keys - {victim} else rest == keys
  }

  lemma PutAtZero(cfg: CacheConfig, item: CacheItem, keys: set<Path>, key: Path, victim: Path, rest: set<Path>)
    requires !cfg.useTtl && item.DirectoryItem? && key !in keys && Makes(cfg, keys, victim, rest)
    ensures PutOk(cfg, AtZero(item, keys), key, item, Choice(0, victim, []))
    ensures Serve(cfg, AtZero(item, keys), RequestAtZero(item, key, victim)) == AtZero(item, rest + {key})
  {
    var m := AtZero(item, keys);
    assert |m| == |m.Keys| && m.Keys == keys && m - {key} == m;
    assert MakeRoom(cfg, m, victim) == AtZero(item, rest);
  }

  lemma ServeAtZero(cfg: CacheConfig, run: seq<Request>, item: CacheItem, keys: set<Path>, key: Path, victim: Path,
                    rest: set<Path>)
    requires !cfg.useTtl && item.DirectoryItem? && key !in keys && Makes(cfg, keys, victim, rest)
    requires ServeOk(cfg, run) && Served(cfg, run) == AtZero(item, keys) && LastServed(run) <= 0
    ensures var run' := run + [RequestAtZero(item, key, victim)];
            ServeOk(cfg, run') && LastServed(run') == 0 && Served(cfg, run') == AtZero(item, rest + {key})
  {
    hide ServeOk, Served, Serve, PutOk, Makes;
    OneMoreRequest(cfg, run, RequestAtZero(item, key, victim));
    PutAtZero(cfg, item, keys, key, victim, rest);
  }

  function RequestsAtZero(item: CacheItem, keys: seq<Path>, victims: seq<Path>): seq<Request>
    requires |keys| == |victims|
  {
    seq(|keys|, i requires 0 <= i < |keys| => RequestAtZero(item, keys[i], victims[i]))
  }

  lemma FourRequests(item: CacheItem, keys: seq<Path>, victims: seq<Path>)
    requires |keys| == |victims| == 4
    ensures RequestsAtZero(item, keys, victims) ==
            [RequestAtZero(item, keys[0], victims[0])] + [RequestAtZero(item, keys[1], victims[1])]
            + [RequestAtZero(item, keys[2], victims[2])] + [RequestAtZero(item, keys[3], victims[3])]
    ensures Keys(RequestsAtZero(item, keys, victims)) == keys
  {
  }

  /** With room for two, nothing is evicted before the third request. */
  lemma TwoServed(cfg: CacheConfig, item: CacheItem, a: Path, b: Path)
    requires !cfg.useTtl && cfg.capacity >= 2 && item.DirectoryItem? && a != b
    ensures var run := [RequestAtZero(item, a, [])] + [RequestAtZero(item, b, [])];
            ServeOk(cfg, run) && LastServed(run) == 0 && Served(cfg, run) == AtZero(item, {a, b})
  {
    hide Makes, Serve, PutOk;
    assert Makes(cfg, {}, [], {}) && Makes(cfg, {a}, [], {a}) by {
      TwoFit(cfg, a);
    }
    assert AtZero(item, {}) == map[];
    assert [] + [RequestAtZero(item, a, [])] == [RequestAtZero(item, a, [])];
    assert {} + {a} == {a} && {a} + {b} == {a, b};
    ServeAtZero(cfg, [], item, {}, a, [], {});
    ServeAtZero(cfg, [RequestAtZero(item, a, [])], item, {a}, b, [], {a});
  }

  lemma TwoFit(cfg: CacheConfig, a: Path)
    requires cfg.capacity >= 2
    ensures Makes(cfg, {}, [], {}) && Makes(cfg, {a}, [], {a})
  {
    assert |{a}| == 1;
  }

  lemma SmallMakes(cfg: CacheConfig, a: Path, b: Path, c: Path)
    requires cfg.capacity == 2 && a != b && a != c && b != c
    ensures Makes(cfg, {a, b}, b, {a}) && Makes(cfg, {a, c}, c, {a})
  {
    assert |{a, b}| == 2 && |{a, c}| == 2;
  }

  lemma LargeMakes(cfg: CacheConfig, a: Path, b: Path, c: Path)
    requires cfg.capacity == 3 && a != b && a != c && b != c
    ensures Makes(cfg, {a, b}, [], {a, b}) && Makes(cfg, {a, b, c}, a, {b, c})
  {
    assert |{a, b}| == 2 && |{a, b, c}| == 3;
  }

  lemma SmallKeepsFirst(cfg: CacheConfig, item: CacheItem, a: Path, b: Path, c: Path, d: Path)
    requires !cfg.useTtl && cfg.capacity == 2 && item.DirectoryItem?
    requires a != b && a != c && a != d && b != c && b != d && c != d
    ensures var run := RequestsAtZero(item, [a, b, c, d], [[], [], b, c]);
            ServeOk(cfg, run) && Keys(run) == [a, b, c, d] && Served(cfg, run) == AtZero(item, {a, d})
  {
    hide ServeOk, Served, Makes, AtZero, Keys, RequestsAtZero;
    var run := [RequestAtZero(item, a, [])] + [RequestAtZero(item, b, [])];
    FourRequests(item, [a, b, c, d], [[], [], b, c]);
    TwoServed(cfg, item, a, b);
    SmallMakes(cfg, a, b, c);
    assert {a} + {c} == {a, c} && {a} + {d} == {a, d};
    ServeAtZero(cfg, run, item, {a, b}, c, b, {a});
    ServeAtZero(cfg, run + [RequestAtZero(item, c, b)], item, {a, c}, d, c, {a});
  }

  lemma LargeLosesFirst(cfg: CacheConfig, item: CacheItem, a: Path, b: Path, c: Path, d: Path)
    requires !cfg.useTtl && cfg.capacity == 3 && item.DirectoryItem?
    requires a != b && a != c && a != d && b != c && b != d && c != d
    ensures var run := RequestsAtZero(item, [a, b, c, d], [[], [], [], a]);
            ServeOk(cfg, run) && Keys(run) == [a, b, c, d] && Served(cfg, run) == AtZero(item, {b, c, d})
  {
    hide ServeOk, Served, Makes, AtZero, Keys, RequestsAtZero;
    var run := [RequestAtZero(item, a, [])] + [RequestAtZero(item, b, [])];
    FourRequests(item, [a, b, c, d], [[], [], [], a]);
    TwoServed(cfg, item, a, b);
    LargeMakes(cfg, a, b, c);
    assert {a, b} + {c} == {a, b, c} && {b, c} + {d} == {b, c, d};
    ServeAtZero(cfg, run, item, {a, b}, c, [], {a, b});
    ServeAtZero(cfg, run + [RequestAtZero(item, c, [])], item, {a, b, c}, d, a, {b, c});
  }

  /** Four requests at one time to a cache for two and a cache for three: with these victims, all
      of least rank, the smaller one holds a key that the larger one has lost. */
  lemma TiesBreakInclusion(small: CacheConfig, large: CacheConfig, item: CacheItem, a: Path, b: Path, c: Path, d: Path)
    requires small.policy.Lru? && !small.useTtl && small.capacity == 2
    requires large.policy.Lru? && !large.useTtl && large.capacity == 3
    requires item.DirectoryItem? && a != b && a != c && a != d && b != c && b != d && c != d
    ensures var run := RequestsAtZero(item, [a, b, c, d], [[], [], b, c]);
            var run' := RequestsAtZero(item, [a, b, c, d], [[], [], [], a]);
            && ServeOk(small, run) && ServeOk(large, run') && Keys(run) == Keys(run')
            && Served(small, run).Keys == {a, d} && Served(large, run').Keys == {b, c, d}
  {
    hide ServeOk, Served, RequestsAtZero, Keys;
    SmallKeepsFirst(small, item, a, b, c, d);
    LargeLosesFirst(large, item, a, b, c, d);
  }
}
