/** The loops inside one call of the file system, one step at a time: uploads, the lookups of
    the children of a directory, and the puts of listed children. */
module CallLoops {
  import opened Bytes
  import opened Cache
  import opened CacheRecord
  import opened RwBuffer
  import opened FsModel
  import Storage

  /** Choices with orders of the uploaded pages. */
  ghost function SomeChoices(cfg: FsConfig, uploads: seq<Upload>, now: nat): (cs: seq<Choice>)
    ensures |cs| == |uploads| && UploadOrdersOk(cfg, uploads, cs)
    ensures forall i :: 0 <= i < |cs| ==> cs[i].now == now
  {
    hide OrderOk, ChunkItem;
    seq(|uploads|, i requires 0 <= i < |uploads| =>
          SomeChoice(ChunkItem(cfg, uploads[i].path, uploads[i].offset, uploads[i].data), now))
  }

  /** Uploading a list is uploading its first part and then, unless that failed, the rest. */
  lemma {:induction false} UploadAllSplit(cfg: FsConfig, s: FsState, uploads: seq<Upload>, cs: seq<Choice>, n: nat)
    requires |cs| == |uploads| && n <= |uploads|
    ensures var (s1, r) := FsModel.UploadAll(cfg, s, uploads[..n], cs[..n]);
            FsModel.UploadAll(cfg, s, uploads, cs) ==
            if r.Err? then (s1, r) else FsModel.UploadAll(cfg, s1, uploads[n..], cs[n..])
    decreases n
  {
    hide FsModel.UploadOne;
    if n > 0 {
      var (s1, r) := FsModel.UploadOne(cfg, s, uploads[0], cs[0]);
      assert uploads[..n][1..] == uploads[1..][..n - 1] && cs[..n][1..] == cs[1..][..n - 1];
      if r.Ok? {
        UploadAllSplit(cfg, s1, uploads[1..], cs[1..], n - 1);
        assert uploads[1..][n - 1..] == uploads[n..] && cs[1..][n - 1..] == cs[n..];
      }
    } else {
      assert uploads[n..] == uploads && cs[n..] == cs;
    }
  }

  lemma NoUploadYet(cfg: FsConfig, s: FsState, uploads: seq<Upload>, cs: seq<Choice>)
    requires |cs| == |uploads|
    ensures FsModel.UploadAll(cfg, s, uploads[..0], cs[..0]) == (s, Ok(()))
  {
  }

  /** The upload at index `i` after the ones before it succeeded. */
  lemma UploadNext(cfg: FsConfig, s: FsState, uploads: seq<Upload>, cs: seq<Choice>, i: nat, s1: FsState, c: Choice)
    requires i < |uploads| == |cs| && FsModel.UploadAll(cfg, s, uploads[..i], cs[..i]) == (s1, Ok(()))
    ensures var (s2, r) := FsModel.UploadOne(cfg, s1, uploads[i], c);
            && FsModel.UploadAll(cfg, s, uploads[..i + 1], cs[i := c][..i + 1]) == (s2, r)
            && (if r.Err? then FsModel.UploadAll(cfg, s, uploads, cs[i := c]) == (s2, r) else r == Ok(()))
  {
    hide FsModel.UploadOne;
    var us, ds := uploads[..i + 1], cs[i := c][..i + 1];
    UploadAllSplit(cfg, s, us, ds, i);
    assert us[..i] == uploads[..i] && ds[..i] == cs[..i];
    assert us[i..] == [uploads[i]] && ds[i..] == [c];
    OnlyUpload(cfg, s1, uploads[i], c);
    UploadAllSplit(cfg, s, uploads, cs[i := c], i + 1);
  }

  lemma OnlyUpload(cfg: FsConfig, s: FsState, u: Upload, c: Choice)
    ensures FsModel.UploadAll(cfg, s, [u], [c]) == FsModel.UploadOne(cfg, s, u, c)
    ensures var r := FsModel.UploadOne(cfg, s, u, c).1; r.Err? || r == Ok(())
  {
    hide CacheWrite;
    assert [u][1..] == [] && [c][1..] == [];
  }

  lemma AtMostTwo(capacity: nat, b: Pending, path: Path, offset: nat, data: seq<byte>)
    requires |b.data| <= capacity
    ensures |FsModel.WriteSection(capacity, b, path, offset, data).1| <= 2
  {
  }

  lemma {:induction false} LookupSplit(cfg: FsConfig, m: Entries, dir: Path, names: seq<Name>, nows: seq<nat>, n: nat)
    requires |nows| == |names| && n <= |names|
    ensures var (m1, first) := FsModel.LookupChildren(cfg, m, dir, names[..n], nows[..n]);
            FsModel.LookupChildren(cfg, m, dir, names, nows) ==
              if first.None? then (m1, None)
              else
                var (m2, rest) := FsModel.LookupChildren(cfg, m1, dir, names[n..], nows[n..]);
                (m2, if rest.Some? then Some(first.value + rest.value) else None)
    decreases n
  {
    hide FsModel.CacheGet;
    if n > 0 {
      var (m1, hit) := FsModel.CacheGet(cfg, m, dir + [names[0]], nows[0]);
      assert names[..n][1..] == names[1..][..n - 1] && nows[..n][1..] == nows[1..][..n - 1];
      assert names[1..][n - 1..] == names[n..] && nows[1..][n - 1..] == nows[n..];
      LookupSplit(cfg, m1, dir, names[1..], nows[1..], n - 1);
      if ItemAttributes(hit).Some? {
        var item := ListItem(hit.value.name, KindOf(hit.value), hit.value.attributes.value);
        var (m2, first) := FsModel.LookupChildren(cfg, m1, dir, names[1..][..n - 1], nows[1..][..n - 1]);
        var rest := FsModel.LookupChildren(cfg, m2, dir, names[n..], nows[n..]).1;
        if first.Some? && rest.Some? {
          assert [item] + (first.value + rest.value) == ([item] + first.value) + rest.value;
        }
      }
    } else {
      assert names[n..] == names && nows[n..] == nows;
      var all := FsModel.LookupChildren(cfg, m, dir, names, nows).1;
      assert all.Some? ==> [] + all.value == all.value;
    }
  }

  lemma NoChildYet(cfg: FsConfig, m: Entries, dir: Path, names: seq<Name>, nows: seq<nat>)
    requires |nows| == |names|
    ensures FsModel.LookupChildren(cfg, m, dir, names[..0], nows[..0]) == (m, Some([]))
  {
  }

  lemma OnlyChild(cfg: FsConfig, m: Entries, dir: Path, name: Name, now: nat)
    ensures var (m1, hit) := FsModel.CacheGet(cfg, m, dir + [name], now);
            FsModel.LookupChildren(cfg, m, dir, [name], [now]) ==
              (m1, if ItemAttributes(hit).None? then None
                   else Some([ListItem(hit.value.name, KindOf(hit.value), hit.value.attributes.value)]))
  {
    hide FsModel.CacheGet;
    assert [name][1..] == [] && [now][1..] == [];
    var hit := FsModel.CacheGet(cfg, m, dir + [name], now).1;
    if ItemAttributes(hit).Some? {
      var item := ListItem(hit.value.name, KindOf(hit.value), hit.value.attributes.value);
      assert [item] + [] == [item];
    }
  }

  /** The lookup at index `i` after the ones before it succeeded. */
  lemma LookupNext(cfg: FsConfig, m: Entries, dir: Path, names: seq<Name>, nows: seq<nat>, i: nat,
                   m1: Entries, all: seq<ListItem>, now: nat)
    requires i < |names| == |nows|
    requires FsModel.LookupChildren(cfg, m, dir, names[..i], nows[..i]) == (m1, Some(all))
    ensures var (m2, hit) := FsModel.CacheGet(cfg, m1, dir + [names[i]], now);
            if ItemAttributes(hit).None? then FsModel.LookupChildren(cfg, m, dir, names, nows[i := now]) == (m2, None)
            else FsModel.LookupChildren(cfg, m, dir, names[..i + 1], nows[i := now][..i + 1]) ==
                 (m2, Some(all + [ListItem(hit.value.name, KindOf(hit.value), hit.value.attributes.value)]))
  {
    hide FsModel.CacheGet, FsModel.LookupChildren;
    var ns, ts := names[..i + 1], nows[i := now][..i + 1];
    LookupSplit(cfg, m, dir, ns, ts, i);
    assert ns[..i] == names[..i] && ts[..i] == nows[..i];
    assert ns[i..] == [names[i]] && ts[i..] == [now];
    OnlyChild(cfg, m1, dir, names[i], now);
    LookupSplit(cfg, m, dir, names, nows[i := now], i + 1);
  }

  lemma {:induction false} PutChildrenSplit(cfg: FsConfig, m: Entries, dir: Path, items: seq<ListItem>, cs: seq<Choice>,
                                            n: nat)
    requires |cs| == |items| && n <= |items|
    ensures FsModel.PutChildren(cfg, m, dir, items, cs) ==
            FsModel.PutChildren(cfg, FsModel.PutChildren(cfg, m, dir, items[..n], cs[..n]), dir, items[n..], cs[n..])
    decreases n
  {
    hide FsModel.CachePut;
    if n > 0 {
      var m1 := FsModel.CachePut(cfg, m, dir + [items[0].name], AttrItem(items[0].name, items[0].attributes), false,
                                 cs[0]);
      assert items[..n][1..] == items[1..][..n - 1] && cs[..n][1..] == cs[1..][..n - 1];
      assert items[1..][n - 1..] == items[n..] && cs[1..][n - 1..] == cs[n..];
      PutChildrenSplit(cfg, m1, dir, items[1..], cs[1..], n - 1);
    } else {
      assert items[n..] == items && cs[n..] == cs;
    }
  }

  lemma NoPutYet(cfg: FsConfig, m: Entries, dir: Path, items: seq<ListItem>, cs: seq<Choice>)
    requires |cs| == |items|
    ensures FsModel.PutChildren(cfg, m, dir, items[..0], cs[..0]) == m
  {
  }

  lemma OnlyPut(cfg: FsConfig, m: Entries, dir: Path, item: ListItem, c: Choice)
    ensures FsModel.PutChildren(cfg, m, dir, [item], [c])
         == FsModel.CachePut(cfg, m, dir + [item.name], AttrItem(item.name, item.attributes), false, c)
  {
    hide FsModel.CachePut;
    assert [item][1..] == [] && [c][1..] == [];
  }

  lemma PutNext(cfg: FsConfig, m: Entries, dir: Path, items: seq<ListItem>, cs: seq<Choice>, i: nat, m1: Entries,
                c: Choice)
    requires i < |items| == |cs| && FsModel.PutChildren(cfg, m, dir, items[..i], cs[..i]) == m1
    ensures FsModel.PutChildren(cfg, m, dir, items[..i + 1], cs[i := c][..i + 1])
         == FsModel.CachePut(cfg, m1, dir + [items[i].name], AttrItem(items[i].name, items[i].attributes), false, c)
  {
    hide FsModel.CachePut, FsModel.PutChildren;
    var ns, ts := items[..i + 1], cs[i := c][..i + 1];
    PutChildrenSplit(cfg, m, dir, ns, ts, i);
    assert ns[..i] == items[..i] && ts[..i] == cs[..i];
    assert ns[i..] == [items[i]] && ts[i..] == [c];
    OnlyPut(cfg, m1, dir, items[i], c);
  }

  lemma ListingExists(all: set<Name>)
    ensures exists names :: Storage.ListsExactly(names, all)
    decreases |all|
  {
    hide Storage.ListsExactly;
    if all == {} {
      Storage.ListNothing();
    } else {
      var n :| n in all;
      ListingExists(all - {n});
      var names :| Storage.ListsExactly(names, all - {n});
      Storage.ListOneMore(names, all - {n}, n);
      assert all - {n} + {n} == all;
    }
  }

  /** A choice with a listing of the directory. */
  ghost function SomeListing(t: Tree, path: Path, now: nat): (c: ReaddirChoice)
    ensures ListingChosen(t, path, c) && |c.puts| == |c.listing|
    ensures c.self == AttrChoice(now, c.put) && c.put == Choice(now, [], [])
    ensures c.puts == seq(|c.listing|, _ => c.put)
  {
    hide Storage.ListsExactly;
    ListingExists(Storage.Names(t, path));
    var names :| Storage.ListsExactly(names, Storage.Names(t, path));
    var none := Choice(now, [], []);
    var at := AttrChoice(now, none);
    ReaddirChoice(now, [], at, at, at, names, none, seq(|names|, _ => none))
  }
}
