/** What holds of the cache of a running client at all times: every cached file keeps the
    page-map invariant, and the entries are what the calls recorded so far leave. */
module CacheRecord {
  import opened Bytes
  import opened PagedFile
  import opened PageMerge
  import opened Cache
  import Staleness

  ghost predicate ItemOk(lim: Limits, item: CacheItem) {
    item.FileItem? ==> FileOk(item.pages, lim)
  }

  /** Every cached file keeps the page-map invariant. */
  ghost predicate FilesOk(lim: Limits, m: Entries) {
    forall q :: q in m ==> ItemOk(lim, m[q].item)
  }

  /** The entries are what the calls recorded so far leave, on a clock that has not passed `time`. */
  ghost predicate Recorded(cfg: CacheConfig, m: Entries, run: seq<Call>, time: nat) {
    && m == AfterCalls(cfg, run)
    && Staleness.RunOk(cfg.limits.pageSize, run)
    && Staleness.Clock(run) <= time
  }

  lemma RecordedLater(cfg: CacheConfig, m: Entries, run: seq<Call>, time: nat, later: nat)
    requires Recorded(cfg, m, run, time) && time <= later
    ensures Recorded(cfg, m, run, later)
  {
  }

  lemma RecordedOne(cfg: CacheConfig, m: Entries, run: seq<Call>, time: nat, call: Call)
    requires Recorded(cfg, m, run, time) && time <= CallTime(call)
    requires call.Keep? ==> OrderOk(call.item, call.c)
    requires call.Keep? || call.KeepNew? ==> ItemOk(cfg.limits, call.item)
    ensures Recorded(cfg, CallStep(cfg, m, call), run + [call], CallTime(call))
  {
    hide CallStep, Staleness.CallOk, AfterCalls, Staleness.RunOk, Staleness.Clock;
    OneMoreAfter(cfg, run, call);
    OneMoreOk(cfg.limits, run, call);
  }

  lemma OneMoreAfter(cfg: CacheConfig, run: seq<Call>, call: Call)
    ensures AfterCalls(cfg, run + [call]) == CallStep(cfg, AfterCalls(cfg, run), call)
    ensures Staleness.Clock(run + [call]) == CallTime(call)
  {
    hide CallStep;
    var next := run + [call];
    assert next[..|next| - 1] == run && next[|next| - 1] == call;
  }

  lemma OneMoreOk(lim: Limits, run: seq<Call>, call: Call)
    requires Staleness.RunOk(lim.pageSize, run) && Staleness.Clock(run) <= CallTime(call)
    requires call.Keep? ==> OrderOk(call.item, call.c)
    requires call.Keep? || call.KeepNew? ==> ItemOk(lim, call.item)
    ensures Staleness.RunOk(lim.pageSize, run + [call])
  {
    hide OrderOk, PagesOk, Staleness.Clock;
    var next := run + [call];
    assert next[..|next| - 1] == run && next[|next| - 1] == call;
  }

  lemma RecordedGet(cfg: CacheConfig, m: Entries, run: seq<Call>, time: nat, key: Path, now: nat)
    requires Recorded(cfg, m, run, time) && time <= now
    ensures Recorded(cfg, Get(cfg, m, key, now).0, run + [Look(key, now)], now)
    ensures var hit := Get(cfg, m, key, now).1;
            cfg.useTtl && hit.Some? ==>
              Staleness.Sourced(Staleness.Log(run), key, now - cfg.ttl, cfg.limits.pageSize, hit.value)
  {
    hide Staleness.Sourced, Staleness.Log;
    RecordedOne(cfg, m, run, time, Look(key, now));
    if cfg.useTtl {
      Staleness.BoundedStaleness(cfg, run, key, now);
    }
  }

  lemma RecordedPut(cfg: CacheConfig, m: Entries, run: seq<Call>, time: nat,
                    key: Path, item: CacheItem, invalidate: bool, c: Choice)
    requires Recorded(cfg, m, run, time) && time <= c.now && OrderOk(item, c) && ItemOk(cfg.limits, item)
    ensures Recorded(cfg, Put(cfg, m, key, item, invalidate, c), run + [Keep(key, item, invalidate, c)], c.now)
  {
    hide Put, Recorded, OrderOk, ItemOk;
    RecordedOne(cfg, m, run, time, Keep(key, item, invalidate, c));
  }

  lemma RecordedPutNew(cfg: CacheConfig, m: Entries, run: seq<Call>, time: nat, key: Path, item: CacheItem, c: Choice)
    requires Recorded(cfg, m, run, time) && time <= c.now && ItemOk(cfg.limits, item)
    ensures Recorded(cfg, PutNew(cfg, m, key, item, c), run + [KeepNew(key, item, c)], c.now)
  {
    hide PutNew, Recorded, ItemOk;
    RecordedOne(cfg, m, run, time, KeepNew(key, item, c));
  }

  lemma RecordedRemove(cfg: CacheConfig, m: Entries, run: seq<Call>, time: nat, key: Path)
    requires Recorded(cfg, m, run, time)
    ensures Recorded(cfg, Remove(m, key), run + [Drop({key} + Ancestors(key), time)], time)
  {
    hide Recorded, Ancestors;
    RecordedOne(cfg, m, run, time, Drop({key} + Ancestors(key), time));
    assert m - ({key} + Ancestors(key)) == Remove(m, key);
  }

  /** A choice with an order of the item's pages. */
  ghost function SomeChoice(item: CacheItem, now: nat): (c: Choice)
    ensures c.now == now && OrderOk(item, c) && (item.FileItem? || c.order == [])
  {
    Choice(now, [], if item.FileItem? then SomeOrder(item.pages.Keys) else [])
  }

  lemma NoPagesNoOrder(item: CacheItem, c: Choice)
    requires OrderOk(item, c) && (item.FileItem? ==> item.pages == map[]) && (item.FileItem? || c.order == [])
    ensures c.order == []
  {
    if item.FileItem? {
      EmptyOrder(c.order);
    }
  }

  lemma UpdateOk(lim: Limits, was: CacheItem, item: CacheItem, order: seq<nat>)
    requires ItemOk(lim, was) && ItemOk(lim, item)
    ensures ItemOk(lim, UpdateItem(lim, was, item, order))
  {
    hide PageMerge.Merge, FileOk;
    if was.FileItem? && item.FileItem? {
      MergeKeepsOk(was.pages, item.pages, lim, order);
    }
  }

  lemma PutKeepsOk(cfg: CacheConfig, m: Entries, key: Path, item: CacheItem, invalidate: bool, c: Choice)
    requires FilesOk(cfg.limits, m) && ItemOk(cfg.limits, item)
    ensures FilesOk(cfg.limits, Put(cfg, m, key, item, invalidate, c))
  {
    hide Put, UpdateItem, FileOk;
    if key in m {
      UpdateOk(cfg.limits, m[key].item, item, c.order);
    }
    forall q | q in Put(cfg, m, key, item, invalidate, c)
      ensures ItemOk(cfg.limits, Put(cfg, m, key, item, invalidate, c)[q].item)
    {
      PutMeaning(cfg, m, key, item, invalidate, c, q);
    }
  }

  lemma PutNewKeepsOk(cfg: CacheConfig, m: Entries, key: Path, item: CacheItem, c: Choice)
    requires FilesOk(cfg.limits, m) && ItemOk(cfg.limits, item)
    ensures FilesOk(cfg.limits, PutNew(cfg, m, key, item, c))
  {
    hide Ancestors, ItemOk;
  }

  lemma GetKeepsOk(cfg: CacheConfig, m: Entries, key: Path, now: nat)
    requires FilesOk(cfg.limits, m)
    ensures var (m', hit) := Get(cfg, m, key, now);
            FilesOk(cfg.limits, m') && (hit.Some? ==> ItemOk(cfg.limits, hit.value))
  {
    hide ItemOk;
  }
}
