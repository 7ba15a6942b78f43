/** The front end hands out a listing in batches; each request names the offset of the last
    entry the reader took. */
module DirectoryPaging {
  import opened Bytes
  import opened FsModel

  datatype DirEntry = DirEntry(offset: nat, name: Name, kind: Kind)

  function EntryOf(items: seq<ListItem>, i: nat): DirEntry
    requires i < |items|
  {
    DirEntry(i + 1, items[i].name, items[i].kind)
  }

  /** All entries from an offset on: skip, count, and number from the offset. */
  method Page(items: seq<ListItem>, offset: nat) returns (entries: seq<DirEntry>)
    ensures entries == EntriesFrom(items, offset)
  {
    var rest := items[Min(offset, |items|)..];
    entries := seq(|rest|, i requires 0 <= i < |rest| => DirEntry(offset + i + 1, rest[i].name, rest[i].kind));
    ghost var skipped := Min(offset, |items|);
    assert offset <= |items| ==> skipped == offset;
    forall i | 0 <= i < |entries| ensures entries[i] == EntriesFrom(items, offset)[i] {
      assert rest[i] == items[offset + i];
      assert EntriesFrom(items, offset)[i] == EntryOf(items, offset + i);
    }
  }

  function EntriesFrom(items: seq<ListItem>, offset: nat): seq<DirEntry> {
    seq(|items| - Min(offset, |items|),
        i requires 0 <= i < |items| - Min(offset, |items|) => EntryOf(items, offset + i))
  }

  /** What a reader gets that takes `cuts[j]` entries, or all there are, from the j-th batch
      and then asks again with the offset of the last entry it took. */
  function Taken(items: seq<ListItem>, offset: nat, cuts: seq<nat>): seq<DirEntry>
    decreases |cuts|
  {
    if cuts == [] then []
    else
      var page := EntriesFrom(items, offset);
      var batch := page[..Min(cuts[0], |page|)];
      batch + Taken(items, if batch == [] then offset else batch[|batch| - 1].offset, cuts[1..])
  }

  function Sum(cuts: seq<nat>): nat
    decreases |cuts|
  {
    if cuts == [] then 0 else cuts[0] + Sum(cuts[1..])
  }

  /** Resuming at the offset of any entry of a batch continues right behind this entry. */
  lemma ResumeAnywhere(items: seq<ListItem>, offset: nat, i: nat)
    requires i < |EntriesFrom(items, offset)|
    ensures EntriesFrom(items, EntriesFrom(items, offset)[i].offset) == EntriesFrom(items, offset)[i + 1..]
  {
    var next, tail := EntriesFrom(items, offset + i + 1), EntriesFrom(items, offset)[i + 1..];
    assert |next| == |tail| && forall j :: 0 <= j < |next| ==> next[j] == tail[j];
    assert next == tail;
    assert EntriesFrom(items, offset)[i] == EntryOf(items, offset + i);
  }

  /** Any cuts: the reader sees every entry once and in order, up to as many as it took. */
  lemma {:induction false} TakenInOrder(items: seq<ListItem>, offset: nat, cuts: seq<nat>)
    ensures var all := EntriesFrom(items, offset);
            Taken(items, offset, cuts) == all[..Min(Sum(cuts), |all|)]
    decreases |cuts|
  {
    hide EntriesFrom;
    if cuts != [] {
      var all := EntriesFrom(items, offset);
      var n := Min(cuts[0], |all|);
      var next := if n == 0 then offset else all[n - 1].offset;
      if n > 0 {
        ResumeAnywhere(items, offset, n - 1);
        assert all[..n][|all[..n]| - 1] == all[n - 1];
      }
      assert EntriesFrom(items, next) == all[n..];
      TakenInOrder(items, next, cuts[1..]);
      var m := Min(Sum(cuts[1..]), |all| - n);
      assert all[..n] + all[n..][..m] == all[..n + m];
    }
  }

  /** A reader that takes enough entries in all has the whole listing, one entry for each
      item, in the order of the listing. */
  lemma WholeListing(items: seq<ListItem>, cuts: seq<nat>)
    requires Sum(cuts) >= |items|
    ensures var got := Taken(items, 0, cuts);
            && |got| == |items|
            && forall i :: 0 <= i < |items| ==> got[i] == DirEntry(i + 1, items[i].name, items[i].kind)
  {
    TakenInOrder(items, 0, cuts);
  }
}
