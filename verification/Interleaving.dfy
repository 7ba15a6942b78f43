/** Several tasks write and flush at once. Each locked section is one step, each upload is
    another; uploads run outside the lock, so any task's may come next. */
module Interleaving {
  import opened Bytes
  import opened RwBuffer
  import opened FsModel
  import opened WriteBack
  import Storage

  /** One byte of a file at its position. */
  type Placed = (Path, nat, byte)

  function Place(path: Path, offset: nat, data: seq<byte>): multiset<Placed>
    decreases |data|
  {
    if data == [] then multiset{}
    else multiset{(path, offset, data[0])} + Place(path, offset + 1, data[1..])
  }

  function BytesOf(u: Upload): multiset<Placed> {
    Place(u.path, u.offset, u.data)
  }

  function BytesOfAll(us: seq<Upload>): multiset<Placed> {
    if us == [] then multiset{} else BytesOf(us[0]) + BytesOfAll(us[1..])
  }

  function BytesInFlight(tasks: seq<seq<Upload>>): multiset<Placed> {
    if tasks == [] then multiset{} else BytesOfAll(tasks[0]) + BytesInFlight(tasks[1..])
  }

  /** The shared buffer, each task's uploads still to be done, the log of delivered uploads,
      and, for the books, every byte accepted so far. */
  datatype System = System(buffer: Pending, tasks: seq<seq<Upload>>, delivered: seq<Upload>, accepted: multiset<Placed>)

  datatype Action =
    | Write(task: nat, path: Path, offset: nat, data: seq<byte>)
    | FlushBuffer(task: nat)
    | Deliver(task: nat)

  /** A task starts a call only when its last one is over. */
  predicate Enabled(s: System, a: Action) {
    a.task < |s.tasks| && if a.Deliver? then s.tasks[a.task] != [] else s.tasks[a.task] == []
  }

  function Next(capacity: nat, s: System, a: Action): System
    requires Enabled(s, a) && |s.buffer.data| <= capacity
  {
    match a
    case Write(t, path, offset, data) =>
      var (b, uploads, written) := WriteSection(capacity, s.buffer, path, offset, data);
      s.(buffer := b, tasks := s.tasks[t := uploads],
         accepted := s.accepted + Place(path, offset, data[..Min(written, |data|)]))
    case FlushBuffer(t) =>
      if s.buffer.data == [] then s
      else s.(buffer := CLEAN, tasks := s.tasks[t := [UploadOf(s.buffer)]])
    case Deliver(t) =>
      s.(tasks := s.tasks[t := s.tasks[t][1..]], delivered := s.delivered + [s.tasks[t][0]])
  }

  /** Every accepted byte is in the buffer, in flight, or delivered, and in only one of them. */
  ghost predicate Conserved(capacity: nat, s: System) {
    && PendingOk(capacity, s.buffer)
    && s.accepted == BytesOf(UploadOf(s.buffer)) + BytesInFlight(s.tasks) + BytesOfAll(s.delivered)
  }

  lemma Regroup(a: multiset<Placed>, b: multiset<Placed>, c: multiset<Placed>)
    ensures a + (b + c) == (a + b) + c
  {
  }

  lemma Exchange(head: multiset<Placed>, rest': multiset<Placed>, x: multiset<Placed>, rest: multiset<Placed>,
                 y: multiset<Placed>)
    requires rest' + x == rest + y
    ensures (head + rest') + x == (head + rest) + y
  {
    Regroup(head, rest', x);
    Regroup(head, rest, y);
  }

  lemma Balance(buffer: multiset<Placed>, flying: multiset<Placed>, done: multiset<Placed>, taken: multiset<Placed>,
                uploads: multiset<Placed>, buffer': multiset<Placed>)
    requires uploads + buffer' == buffer + taken
    ensures buffer + flying + done + taken == buffer' + (flying + uploads) + done
  {
    forall x: Placed
      ensures (buffer + flying + done + taken)[x] == (buffer' + (flying + uploads) + done)[x]
    {
      assert (uploads + buffer')[x] == (buffer + taken)[x];
    }
  }

  lemma PlaceUnfold(path: Path, offset: nat, data: seq<byte>)
    ensures data == [] ==> Place(path, offset, data) == multiset{}
    ensures data != [] ==>
            Place(path, offset, data) == multiset{(path, offset, data[0])} + Place(path, offset + 1, data[1..])
  {
  }

  lemma {:induction false} PlacedJoin(path: Path, offset: nat, a: seq<byte>, b: seq<byte>)
    ensures Place(path, offset, a + b) == Place(path, offset, a) + Place(path, offset + |a|, b)
    decreases |a|
  {
    hide Place;
    PlaceUnfold(path, offset, a);
    if a == [] {
      assert a + b == b;
    } else {
      PlaceUnfold(path, offset, a + b);
      assert (a + b)[1..] == a[1..] + b;
      PlacedJoin(path, offset + 1, a[1..], b);
      Regroup(multiset{(path, offset, a[0])}, Place(path, offset + 1, a[1..]), Place(path, offset + |a|, b));
    }
  }

  lemma {:induction false} BytesOfAllAppend(us: seq<Upload>, u: Upload)
    ensures BytesOfAll(us + [u]) == BytesOfAll(us) + BytesOf(u)
    decreases |us|
  {
    if us == [] {
      assert [u][1..] == [];
    } else {
      assert (us + [u])[1..] == us[1..] + [u];
      BytesOfAllAppend(us[1..], u);
    }
  }

  lemma InFlightCons(tasks: seq<seq<Upload>>)
    requires tasks != []
    ensures BytesInFlight(tasks) == BytesOfAll(tasks[0]) + BytesInFlight(tasks[1..])
  {
  }

  lemma {:induction false} InFlightUpdate(tasks: seq<seq<Upload>>, t: nat, us: seq<Upload>)
    requires t < |tasks|
    ensures BytesInFlight(tasks[t := us]) + BytesOfAll(tasks[t]) == BytesInFlight(tasks) + BytesOfAll(us)
    decreases |tasks|
  {
    hide BytesOfAll;
    if t == 0 {
      assert tasks[0 := us][1..] == tasks[1..];
    } else {
      InFlightUpdate(tasks[1..], t - 1, us);
      InFlightCons(tasks);
      InFlightCons(tasks[t := us]);
      assert tasks[t := us][1..] == tasks[1..][t - 1 := us];
      assert tasks[1..][t - 1] == tasks[t] && tasks[t := us][0] == tasks[0];
      Exchange(BytesOfAll(tasks[0]), BytesInFlight(tasks[t := us][1..]), BytesOfAll(tasks[t]),
               BytesInFlight(tasks[1..]), BytesOfAll(us));
    }
  }

  /** The locked section of a write splits the old buffer and the accepted bytes between its
      uploads and the new buffer. */
  lemma SectionSplits(capacity: nat, b: Pending, path: Path, offset: nat, data: seq<byte>)
    requires PendingOk(capacity, b)
    ensures var (b', uploads, written) := WriteSection(capacity, b, path, offset, data);
            && written <= |data|
            && BytesOfAll(uploads) + BytesOf(UploadOf(b')) ==
               BytesOf(UploadOf(b)) + Place(path, offset, data[..written])
  {
    hide Place;
    var (b', uploads, written) := WriteSection(capacity, b, path, offset, data);
    PlacedNothing();
    if IsAppending(b, path, offset) {
      PlacedJoin(path, b.offset, b.data, data[..written]);
      BytesOfAllAppend([], Upload(path, b.offset, b.data + data[..written]));
      var u := Upload(path, b.offset, b.data + data[..written]);
      assert [] + [u] == [u];
    } else {
      var was, now := UploadOf(b), Upload(path, offset, data[..written]);
      BytesOfAllAppend([], was);
      BytesOfAllAppend([], now);
      BytesOfAllAppend([was], now);
      assert [] + [was] == [was] && [] + [now] == [now];
    }
  }

  lemma PlacedNothing()
    ensures forall path, offset :: Place(path, offset, []) == multiset{}
  {
  }

  lemma FlushConserves(capacity: nat, s: System, t: nat)
    requires Enabled(s, FlushBuffer(t)) && Conserved(capacity, s)
    ensures Conserved(capacity, Next(capacity, s, FlushBuffer(t)))
  {
    hide BytesInFlight, Place, BytesOfAll;
    if s.buffer.data != [] {
      var u := UploadOf(s.buffer);
      var s' := Next(capacity, s, FlushBuffer(t));
      PlacedNothing();
      BytesOfNone();
      InFlightUpdate(s.tasks, t, [u]);
      BytesOfAllAppend([], u);
      assert [] + [u] == [u];
      assert BytesOfAll([u]) == BytesOf(u);
      assert BytesInFlight(s'.tasks) == BytesInFlight(s.tasks) + BytesOf(u);
      assert UploadOf(CLEAN) == Upload([], 0, []);
      Balance(BytesOf(u), BytesInFlight(s.tasks), BytesOfAll(s.delivered), multiset{}, BytesOf(u), multiset{});
      assert s.accepted + multiset{} == s.accepted;
    }
  }

  lemma Delivered(flying': multiset<Placed>, head: multiset<Placed>, tail: multiset<Placed>, flying: multiset<Placed>,
                  buffer: multiset<Placed>, done: multiset<Placed>)
    requires flying' + (head + tail) == flying + tail
    ensures buffer + flying + done == buffer + flying' + (done + head)
  {
    forall x: Placed
      ensures (buffer + flying + done)[x] == (buffer + flying' + (done + head))[x]
    {
      assert (flying' + (head + tail))[x] == (flying + tail)[x];
    }
  }

  lemma DeliverConserves(capacity: nat, s: System, t: nat)
    requires Enabled(s, Deliver(t)) && Conserved(capacity, s)
    ensures Conserved(capacity, Next(capacity, s, Deliver(t)))
  {
    hide BytesInFlight, Place, BytesOfAll;
    var us := s.tasks[t];
    InFlightUpdate(s.tasks, t, us[1..]);
    BytesOfAllAppend(s.delivered, us[0]);
    BytesOfCons(us);
    Delivered(BytesInFlight(s.tasks[t := us[1..]]), BytesOf(us[0]), BytesOfAll(us[1..]), BytesInFlight(s.tasks),
              BytesOf(UploadOf(s.buffer)), BytesOfAll(s.delivered));
  }

  lemma StepConserves(capacity: nat, s: System, a: Action)
    requires Enabled(s, a) && Conserved(capacity, s)
    ensures Conserved(capacity, Next(capacity, s, a))
  {
    hide WriteSection, BytesInFlight, Place, BytesOfAll;
    PlacedNothing();
    BytesOfNone();
    match a
    case Write(t, path, offset, data) =>
      SectionShape(capacity, s.buffer, path, offset, data);
      SectionSplits(capacity, s.buffer, path, offset, data);
      var (b, uploads, written) := WriteSection(capacity, s.buffer, path, offset, data);
      InFlightUpdate(s.tasks, t, uploads);
      Balance(BytesOf(UploadOf(s.buffer)), BytesInFlight(s.tasks), BytesOfAll(s.delivered),
              Place(path, offset, data[..written]), BytesOfAll(uploads), BytesOf(UploadOf(b)));
    case FlushBuffer(t) => FlushConserves(capacity, s, t);
    case Deliver(t) => DeliverConserves(capacity, s, t);
  }

  lemma BytesOfNone()
    ensures BytesOfAll([]) == multiset{}
  {
  }

  lemma BytesOfCons(us: seq<Upload>)
    requires us != []
    ensures BytesOfAll(us) == BytesOf(us[0]) + BytesOfAll(us[1..])
  {
  }

  /** The state after a run, skipping actions that cannot happen. */
  function After(capacity: nat, s: System, run: seq<Action>): System
    decreases |run|
  {
    if run == [] || |s.buffer.data| > capacity then s
    else After(capacity, if Enabled(s, run[0]) then Next(capacity, s, run[0]) else s, run[1..])
  }

  /** For every interleaving of any number of tasks no accepted byte is lost or doubled. */
  lemma {:induction false} BytesConserved(capacity: nat, s: System, run: seq<Action>)
    requires Conserved(capacity, s)
    ensures Conserved(capacity, After(capacity, s, run))
    decreases |run|
  {
    hide Next, BytesInFlight;
    if run != [] {
      if Enabled(s, run[0]) {
        StepConserves(capacity, s, run[0]);
        BytesConserved(capacity, Next(capacity, s, run[0]), run[1..]);
      } else {
        BytesConserved(capacity, s, run[1..]);
      }
    }
  }

  lemma {:induction false} NothingInFlight(tasks: seq<seq<Upload>>)
    requires forall us :: us in tasks ==> us == []
    ensures BytesInFlight(tasks) == multiset{}
    decreases |tasks|
  {
    if tasks != [] {
      assert tasks[0] in tasks && forall us :: us in tasks[1..] ==> us in tasks;
      NothingInFlight(tasks[1..]);
    }
  }

  /** Once every task is idle and the buffer is empty, the delivered bytes are exactly the
      accepted ones. */
  lemma QuietMeansDelivered(capacity: nat, s: System, run: seq<Action>)
    requires s.buffer == CLEAN && s.delivered == [] && s.accepted == multiset{} && capacity > 0
    requires forall us :: us in s.tasks ==> us == []
    ensures var s' := After(capacity, s, run);
            s'.buffer.data == [] && (forall us :: us in s'.tasks ==> us == []) ==>
              s'.accepted == BytesOfAll(s'.delivered)
  {
    hide After, BytesInFlight;
    NothingInFlight(s.tasks);
    BytesConserved(capacity, s, run);
    var s' := After(capacity, s, run);
    if s'.buffer.data == [] && (forall us :: us in s'.tasks ==> us == []) {
      NothingInFlight(s'.tasks);
    }
  }

  lemma FillsAtOnce(path: Path, d: byte)
    ensures WriteSection(1, CLEAN, path, 0, [d]) == (CLEAN, [Upload(path, 0, [d])], 1)
  {
    assert [d][..1] == [d] && [] + [Upload(path, 0, [d])] == [Upload(path, 0, [d])];
  }

  lemma LastOneStays(path: Path, a: byte, b: byte)
    ensures Storage.Content(ApplyAll(map[], [Upload(path, 0, [a]), Upload(path, 0, [b])]), path) == [b]
  {
    ApplyTwo(map[], Upload(path, 0, [a]), Upload(path, 0, [b]));
  }

  lemma AfterTwo(capacity: nat, s: System, a: Action, b: Action)
    requires |s.buffer.data| <= capacity && Enabled(s, a) && |Next(capacity, s, a).buffer.data| <= capacity
    requires Enabled(Next(capacity, s, a), b)
    ensures forall rest ::
              After(capacity, s, [a, b] + rest) == After(capacity, Next(capacity, Next(capacity, s, a), b), rest)
  {
    hide Next;
    forall rest
      ensures After(capacity, s, [a, b] + rest) == After(capacity, Next(capacity, Next(capacity, s, a), b), rest)
    {
      assert ([a, b] + rest)[1..] == [b] + rest && ([b] + rest)[1..] == rest;
    }
  }

  /** Delivery order is not call order: two overlapping writes by two tasks can reach the
      server the wrong way round, and the older byte stays. */
  lemma OrderIsNotKept(path: Path)
    ensures var start := System(CLEAN, [[], []], [], multiset{});
            var first, second := Upload(path, 0, [1]), Upload(path, 0, [2]);
            var run := [Write(0, path, 0, [1]), Write(1, path, 0, [2])] + [Deliver(1), Deliver(0)];
            && After(1, start, run).delivered == [second, first]
            && Storage.Content(ApplyAll(map[], [first, second]), path) == [2]
            && Storage.Content(ApplyAll(map[], [second, first]), path) == [1]
  {
    hide WriteSection, Place, After, ApplyAll;
    var first, second := Upload(path, 0, [1]), Upload(path, 0, [2]);
    FillsAtOnce(path, 1);
    FillsAtOnce(path, 2);
    LastOneStays(path, 1, 2);
    LastOneStays(path, 2, 1);
    var start := System(CLEAN, [[], []], [], multiset{});
    AfterTwo(1, start, Write(0, path, 0, [1]), Write(1, path, 0, [2]));
    var full := Next(1, Next(1, start, Write(0, path, 0, [1])), Write(1, path, 0, [2]));
    assert full.tasks == [[first], [second]];
    AfterTwo(1, full, Deliver(1), Deliver(0));
    assert [Deliver(1), Deliver(0)] + [] == [Deliver(1), Deliver(0)];
    AfterNothing(1, Next(1, Next(1, full, Deliver(1)), Deliver(0)));
  }

  lemma AfterNothing(capacity: nat, s: System)
    ensures After(capacity, s, []) == s
  {
  }
}
