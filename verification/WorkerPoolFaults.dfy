// A run of the worker-pool server as written in which a request is written over one a busy worker has not answered.

module WorkerPoolFaults {
  import opened WorkerPool
  import opened WorkerPoolAsWritten
  import opened WorkerPoolProgress

  // ----- a run in which the guard fails -----

  lemma RunAsWrittenCons(addrs: seq<nat>, s: State, e: Event, es: seq<Event>, t: State)
    requires EnabledAsWritten(s, e) && |addrs| == |s.workers|
    requires RunAsWritten(addrs, StepAsWritten(addrs, s, e), es, t)
    ensures RunAsWritten(addrs, s, [e] + es, t)
  {
    assert ([e] + es)[1..] == es;
  }

  lemma {:induction false} RunAsWrittenConcat(addrs: seq<nat>, s: State, es: seq<Event>, t: State,
                                              fs: seq<Event>, u: State)
    requires RunAsWritten(addrs, s, es, t) && RunAsWritten(addrs, t, fs, u)
    ensures RunAsWritten(addrs, s, es + fs, u)
    decreases |es|
  {
    if es == [] {
      assert es + fs == fs;
    } else {
      var e, rest := es[0], es[1..];
      assert (es + fs)[0] == e && (es + fs)[1..] == rest + fs;
      RunAsWrittenConcat(addrs, StepAsWritten(addrs, s, e), rest, t, fs, u);
    }
  }

  lemma AcceptRun(addrs: seq<nat>, s: State, r: Request) returns (es: seq<Event>)
    requires s.d == Receive && r.info != -1 && s.free != [] && s.free[|s.free| - 1] < |s.workers| == |addrs|
    ensures RunAsWritten(addrs, s, es, Accepted(s, r))
  {
    var a := Step(s, Packet(r));
    var b := Step(a, Dispatch);
    var c := Step(b, Dispatch);
    var d := Step(c, Dispatch);
    assert Step(d, Dispatch) == Accepted(s, r);
    es := [];
    RunAsWrittenCons(addrs, d, Dispatch, es, Accepted(s, r));
    es := [Dispatch] + es;
    RunAsWrittenCons(addrs, c, Dispatch, es, Accepted(s, r));
    es := [Dispatch] + es;
    RunAsWrittenCons(addrs, b, Dispatch, es, Accepted(s, r));
    es := [Dispatch] + es;
    RunAsWrittenCons(addrs, a, Dispatch, es, Accepted(s, r));
    es := [Dispatch] + es;
    RunAsWrittenCons(addrs, s, Packet(r), es, Accepted(s, r));
    es := [Packet(r)] + es;
  }

  /** Worker w has answered and cleared its flag. */
  function Finished(s: State, w: nat): State
    requires w < |s.workers|
  {
    var k := s.workers[w];
    s.(workers := s.workers[w := k.(info := Answer(k.info), flag := false)],
       replies := s.replies + [Reply(k.job, Answer(k.info), k.client)])
  }

  lemma FinishRun(addrs: seq<nat>, s: State, w: nat) returns (es: seq<Event>)
    requires w < |s.workers| == |addrs| && s.workers[w].flag && s.workers[w].pc == Poll && InPool(s)
    ensures RunAsWritten(addrs, s, es, Finished(s, w))
  {
    var a := WorkStep(s, w);
    var b := WorkStep(a, w);
    var c := WorkStep(b, w);
    assert WorkStep(c, w) == Finished(s, w);
    es := [];
    RunAsWrittenCons(addrs, c, Work(w), es, Finished(s, w));
    es := [Work(w)] + es;
    RunAsWrittenCons(addrs, b, Work(w), es, Finished(s, w));
    es := [Work(w)] + es;
    RunAsWrittenCons(addrs, a, Work(w), es, Finished(s, w));
    es := [Work(w)] + es;
    RunAsWrittenCons(addrs, s, Work(w), es, Finished(s, w));
    es := [Work(w)] + es;
  }

  lemma LookOnce(addrs: seq<nat>, s: State, flags: seq<bool>, i: nat)
    requires FlagsAre(s, flags) && i < |flags| && |addrs| == |s.workers|
    ensures EnabledAsWritten(MidScan(s, flags, i), Dispatch)
    ensures StepAsWritten(addrs, MidScan(s, flags, i), Dispatch) == MidScan(s, flags, i + 1)
  {
    Looked(s, flags, i);
    var m := MidScan(s, flags, i);
    assert m.free + [] == m.free && m.d.kept + [] == m.d.kept;
  }

  lemma {:induction false} LookRun(addrs: seq<nat>, s: State, flags: seq<bool>, i: nat) returns (es: seq<Event>)
    requires FlagsAre(s, flags) && i <= |flags| && |addrs| == |s.workers|
    ensures RunAsWritten(addrs, MidScan(s, flags, i), es, MidScan(s, flags, |flags|))
    decreases |flags| - i
  {
    if i == |flags| {
      es := [];
    } else {
      LookOnce(addrs, s, flags, i);
      es := LookRun(addrs, s, flags, i + 1);
      RunAsWrittenCons(addrs, MidScan(s, flags, i), Dispatch, es, MidScan(s, flags, |flags|));
      es := [Dispatch] + es;
    }
  }

  // Up to eight pointers the copy reaches the first element only; if that is kept in place, the list is only cut short.
  lemma FirstInPlaceIsCutShort(occupied: seq<nat>, kept: seq<nat>)
    requires 0 < |kept| <= |occupied| && |kept| <= POINTER_BYTES && kept[0] == occupied[0]
    ensures Copied(occupied, kept, |kept|) == occupied[..|kept|]
  {
    SameOverwritten(kept[0], |kept|);
    forall i | 0 < i < |kept| ensures Copied(occupied, kept, |kept|)[i] == occupied[i] {
      assert BytesIn(|kept|, i) == 0;
      assert Pow256(0) == 1;
    }
  }

  lemma {:induction false} FirstIsKept(occupied: seq<nat>, flags: seq<bool>)
    requires |occupied| == |flags| && occupied != [] && flags[0]
    ensures Seen(occupied, flags, true) != [] && Seen(occupied, flags, true)[0] == occupied[0]
  {
    if |occupied| > 1 {
      FirstIsKept(occupied[..|occupied| - 1], flags[..|occupied| - 1]);
    }
  }

  /** What a scan of one to eight workers leaves if no flag drops meanwhile and the first one is still busy. */
  predicate Scans(s: State, flags: seq<bool>, freed: seq<nat>, kept: seq<nat>, t: State) {
    && FlagsAre(s, flags) && 0 < |flags| <= POINTER_BYTES && flags[0] && |kept| <= |s.occupied|
    && Seen(s.occupied, flags, false) == freed && Seen(s.occupied, flags, true) == kept
    && t == s.(free := s.free + freed, occupied := s.occupied[..|kept|], d := Receive)
  }

  lemma LastLook(addrs: seq<nat>, s: State, flags: seq<bool>, freed: seq<nat>, kept: seq<nat>, t: State)
    requires Scans(s, flags, freed, kept, t) && PoolAt(addrs, |s.workers|)
    ensures EnabledAsWritten(MidScan(s, flags, |flags|), Dispatch)
    ensures StepAsWritten(addrs, MidScan(s, flags, |flags|), Dispatch) == t
  {
    var occupied := s.occupied;
    assert occupied[..|occupied|] == occupied && flags[..|occupied|] == flags;
    FirstIsKept(occupied, flags);
    SeenAtAddresses(addrs, occupied, flags, true);
    FirstInPlaceIsCutShort(Addresses(addrs, occupied), Addresses(addrs, kept));
    assert Addresses(addrs, occupied)[..|kept|] == Addresses(addrs, occupied[..|kept|]);
    WorkersAtAddresses(addrs, Addresses(addrs, occupied)[..|kept|], occupied[..|kept|]);
  }

  lemma ScanRun(addrs: seq<nat>, s: State, flags: seq<bool>, freed: seq<nat>, kept: seq<nat>, t: State)
    returns (es: seq<Event>)
    requires s.d == Scan([], []) && Scans(s, flags, freed, kept, t) && PoolAt(addrs, |s.workers|)
    ensures RunAsWritten(addrs, s, es, t)
  {
    var u := MidScan(s, flags, |flags|);
    es := LookRun(addrs, s, flags, 0);
    assert s.free + [] == s.free;
    assert MidScan(s, flags, 0) == s;
    LastLook(addrs, s, flags, freed, kept, t);
    RunAsWrittenCons(addrs, u, Dispatch, [], t);
    RunAsWrittenConcat(addrs, s, es, u, [Dispatch] + [], t);
    es := es + ([Dispatch] + []);
  }

  /** The copy on one input: the workers at 30 and 10 are kept, yet the one at 20, who was freed, stays in the list. */
  lemma CopyLeavesFreedWorker()
    ensures Seen([30, 20, 10], [true, false, true], true) == [30, 10]
    ensures Copied([30, 20, 10], [30, 10], 2) == [30, 20]
    ensures !ByteCountSuffices([30, 20, 10], [true, false, true], [30, 10])
  {
    SeenOfThree(30, 20, 10, true, false, true, true);
    FirstInPlaceIsCutShort([30, 20, 10], [30, 10]);
    assert ![true, false, true][1];
  }

  // ----- pools of m idle workers and three that take part -----

  function Idle0(): Worker { Worker(0, 0, false, Poll, -1) }

  function Idles(m: nat): (r: seq<Worker>)
    ensures |r| == m
  {
    seq(m, _ => Idle0())
  }

  /** A worker waiting at its flag, last given request `job`, with this number in its order. */
  function AtFlag(job: int, info: int, flag: bool): Worker { Worker(info, 0, flag, Poll, job) }

  /** The numbers 10, 20, 30, ... are asked for. */
  function Asked(k: nat): (r: seq<Request>)
    ensures |r| == k
  {
    if k == 0 then [] else Asked(k - 1) + [Request(10 * k, 0)]
  }

  /** Workers below m have never been used; `ws` are those from m on, and `free` lies on top of the unused ones. */
  function At(m: nat, ws: seq<Worker>, free: seq<nat>, occupied: seq<nat>, d: Dispatcher, k: nat,
              replies: seq<Reply>): State
  {
    State(Idles(m) + ws, Range(m) + free, occupied, d, Asked(k), replies)
  }

  lemma UpdatedAt(m: nat, ws: seq<Worker>, i: nat, w: Worker)
    requires i < |ws|
    ensures (Idles(m) + ws)[m + i] == ws[i] && (Idles(m) + ws)[m + i := w] == Idles(m) + ws[i := w]
  {
  }

  lemma PoppedAt(m: nat, free: seq<nat>, x: nat)
    ensures var all := Range(m) + (free + [x]);
            all[|all| - 1] == x && all[..|all| - 1] == Range(m) + free
  {
  }

  lemma AcceptedAt(m: nat, ws: seq<Worker>, free: seq<nat>, i: nat, occupied: seq<nat>, k: nat, replies: seq<Reply>)
    requires i < |ws| && ws[i].pc == Poll
    ensures var s := At(m, ws, free + [m + i], occupied, Receive, k, replies);
            && s.free != [] && s.free[|s.free| - 1] < |s.workers|
            && Accepted(s, Request(10 * (k + 1), 0))
               == At(m, ws[i := AtFlag(k, 10 * (k + 1), true)], free, occupied + [m + i], Scan([], []), k + 1, replies)
  {
    UpdatedAt(m, ws, i, AtFlag(k, 10 * (k + 1), true));
    PoppedAt(m, free, m + i);
  }

  lemma FinishedAt(m: nat, ws: seq<Worker>, free: seq<nat>, i: nat, occupied: seq<nat>, d: Dispatcher, k: nat,
                   replies: seq<Reply>)
    requires i < |ws|
    ensures var s := At(m, ws, free, occupied, d, k, replies);
            && m + i < |s.workers| && s.workers[m + i] == ws[i]
            && Finished(s, m + i)
               == At(m, ws[i := ws[i].(info := Answer(ws[i].info), flag := false)], free, occupied, d, k,
                     replies + [Reply(ws[i].job, Answer(ws[i].info), ws[i].client)])
  {
    UpdatedAt(m, ws, i, ws[i].(info := Answer(ws[i].info), flag := false));
  }

  predicate FlagsAt(m: nat, ws: seq<Worker>, occupied: seq<nat>, flags: seq<bool>) {
    && |flags| == |occupied|
    && forall j :: 0 <= j < |flags| ==> m <= occupied[j] < m + |ws| && flags[j] == ws[occupied[j] - m].flag
  }

  lemma WorkerOf(m: nat, ws: seq<Worker>, w: nat)
    requires m <= w < m + |ws|
    ensures (Idles(m) + ws)[w] == ws[w - m]
  {
  }

  lemma FlagsAreAt(m: nat, ws: seq<Worker>, occupied: seq<nat>, flags: seq<bool>)
    requires FlagsAt(m, ws, occupied, flags)
    ensures forall j :: 0 <= j < |flags| ==>
              occupied[j] < m + |ws| && flags[j] == (Idles(m) + ws)[occupied[j]].flag
  {
    forall j | 0 <= j < |flags| ensures occupied[j] < m + |ws| && flags[j] == (Idles(m) + ws)[occupied[j]].flag {
      WorkerOf(m, ws, occupied[j]);
    }
  }

  lemma ScansAt(m: nat, ws: seq<Worker>, free: seq<nat>, occupied: seq<nat>, k: nat, replies: seq<Reply>,
                flags: seq<bool>)
    requires FlagsAt(m, ws, occupied, flags) && 0 < |flags| <= POINTER_BYTES && flags[0]
    ensures var freed, kept := Seen(occupied, flags, false), Seen(occupied, flags, true);
            && |kept| <= |occupied|
            && Scans(At(m, ws, free, occupied, Scan([], []), k, replies), flags, freed, kept,
                     At(m, ws, free + freed, occupied[..|kept|], Receive, k, replies))
  {
    var freed := Seen(occupied, flags, false);
    SeenLengths(occupied, flags);
    assert Range(m) + (free + freed) == Range(m) + free + freed;
    FlagsAreAt(m, ws, occupied, flags);
  }

  /** The three workers once the next request is with worker m + i and, if `done`, worker m + 1 has answered. */
  function Given(ws: seq<Worker>, i: nat, k: nat, done: bool): (r: seq<Worker>)
    requires |ws| == 3 && i < 3
  {
    var given := ws[i := AtFlag(k, 10 * (k + 1), true)];
    if done then given[1 := given[1].(info := Answer(given[1].info), flag := false)] else given
  }

  function Sent(ws: seq<Worker>, i: nat, k: nat, done: bool, replies: seq<Reply>): seq<Reply>
    requires |ws| == 3 && i < 3
  {
    var w := ws[i := AtFlag(k, 10 * (k + 1), true)][1];
    if done then replies + [Reply(w.job, Answer(w.info), w.client)] else replies
  }

  // Up to where the scan starts.
  lemma GiveRun(addrs: seq<nat>, m: nat, ws: seq<Worker>, free: seq<nat>, i: nat, occupied: seq<nat>, k: nat,
                replies: seq<Reply>, done: bool)
    returns (es: seq<Event>)
    requires |addrs| == m + 3 && |ws| == 3 && i < 3 && ws[i].pc == Poll
    requires done ==> ws[i := AtFlag(k, 10 * (k + 1), true)][1].flag && ws[1].pc == Poll
    requires (occupied + [m + i])[0] < m + 3
    ensures RunAsWritten(addrs, At(m, ws, free + [m + i], occupied, Receive, k, replies), es,
                         At(m, Given(ws, i, k, done), free, occupied + [m + i], Scan([], []), k + 1,
                            Sent(ws, i, k, done, replies)))
  {
    var s := At(m, ws, free + [m + i], occupied, Receive, k, replies);
    var a := Accepted(s, Request(10 * (k + 1), 0));
    var given := ws[i := AtFlag(k, 10 * (k + 1), true)];
    AcceptedAt(m, ws, free, i, occupied, k, replies);
    es := AcceptRun(addrs, s, Request(10 * (k + 1), 0));
    if done {
      FinishedAt(m, given, free, 1, occupied + [m + i], Scan([], []), k + 1, replies);
      assert InPool(a);
      var fs := FinishRun(addrs, a, m + 1);
      RunAsWrittenConcat(addrs, s, es, a, fs, Finished(a, m + 1));
      es := es + fs;
    }
  }

  lemma ScanAtRun(addrs: seq<nat>, m: nat, ws: seq<Worker>, free: seq<nat>, occupied: seq<nat>, k: nat,
                  replies: seq<Reply>, flags: seq<bool>)
    returns (es: seq<Event>)
    requires PoolAt(addrs, m + |ws|)
    requires FlagsAt(m, ws, occupied, flags) && 0 < |flags| <= POINTER_BYTES && flags[0]
    ensures var freed, kept := Seen(occupied, flags, false), Seen(occupied, flags, true);
            && |kept| <= |occupied|
            && RunAsWritten(addrs, At(m, ws, free, occupied, Scan([], []), k, replies), es,
                            At(m, ws, free + freed, occupied[..|kept|], Receive, k, replies))
  {
    var freed, kept := Seen(occupied, flags, false), Seen(occupied, flags, true);
    ScansAt(m, ws, free, occupied, k, replies, flags);
    es := ScanRun(addrs, At(m, ws, free, occupied, Scan([], []), k, replies), flags, freed, kept,
                  At(m, ws, free + freed, occupied[..|kept|], Receive, k, replies));
  }

  // One request served, from the packet to the end of the scan.
  lemma ServeRun(addrs: seq<nat>, m: nat, ws: seq<Worker>, free: seq<nat>, i: nat, occupied: seq<nat>, k: nat,
                 replies: seq<Reply>, done: bool, flags: seq<bool>, freed: seq<nat>, kept: seq<nat>)
    returns (es: seq<Event>)
    requires PoolAt(addrs, m + 3) && |ws| == 3 && i < 3 && ws[i].pc == Poll
    requires done ==> ws[i := AtFlag(k, 10 * (k + 1), true)][1].flag && ws[1].pc == Poll
    requires FlagsAt(m, Given(ws, i, k, done), occupied + [m + i], flags)
    requires 0 < |flags| <= POINTER_BYTES && flags[0] && |kept| <= |flags|
    requires Seen(occupied + [m + i], flags, false) == freed && Seen(occupied + [m + i], flags, true) == kept
    ensures RunAsWritten(addrs, At(m, ws, free + [m + i], occupied, Receive, k, replies), es,
                         At(m, Given(ws, i, k, done), free + freed, (occupied + [m + i])[..|kept|], Receive, k + 1,
                            Sent(ws, i, k, done, replies)))
  {
    var s := At(m, ws, free + [m + i], occupied, Receive, k, replies);
    var given, sent := Given(ws, i, k, done), Sent(ws, i, k, done, replies);
    var u := At(m, given, free, occupied + [m + i], Scan([], []), k + 1, sent);
    var t := At(m, given, free + freed, (occupied + [m + i])[..|kept|], Receive, k + 1, sent);
    es := GiveRun(addrs, m, ws, free, i, occupied, k, replies, done);
    var fs := ScanAtRun(addrs, m, given, free, occupied + [m + i], k + 1, sent, flags);
    RunAsWrittenConcat(addrs, s, es, u, fs, t);
    es := es + fs;
  }

  // ----- the run -----

  /** The three workers after k requests; the one in the middle answers the third and the fourth at once. */
  function Ws(k: nat): (r: seq<Worker>)
    ensures |r| == 3
  {
    var idle := Idle0();
    match k
    case 0 => [idle, idle, idle]
    case 1 => [idle, idle, AtFlag(0, 10, true)]
    case 2 => [idle, AtFlag(1, 20, true), AtFlag(0, 10, true)]
    case 3 => [AtFlag(2, 30, true), AtFlag(1, 21, false), AtFlag(0, 10, true)]
    case 4 => [AtFlag(2, 30, true), AtFlag(3, 41, false), AtFlag(0, 10, true)]
    case _ => [AtFlag(2, 30, true), AtFlag(4, 50, true), AtFlag(0, 10, true)]
  }

  /** The server after k requests. */
  function After(m: nat, k: nat): State {
    match k
    case 0 => At(m, Ws(0), [m, m + 1, m + 2], [], Receive, 0, [])
    case 1 => At(m, Ws(1), [m, m + 1], [m + 2], Receive, 1, [])
    case 2 => At(m, Ws(2), [m], [m + 2, m + 1], Receive, 2, [])
    case 3 => At(m, Ws(3), [m + 1], [m + 2, m + 1], Receive, 3, [Reply(1, 21, 0)])
    case 4 => At(m, Ws(4), [m + 1, m + 1], [m + 2], Receive, 4, [Reply(1, 21, 0), Reply(3, 41, 0)])
    case _ => At(m, Ws(5), [m + 1], [m + 2, m + 1], Receive, 5, [Reply(1, 21, 0), Reply(3, 41, 0)])
  }

  lemma GivenInTurn()
    ensures Given(Ws(0), 2, 0, false) == Ws(1) && Given(Ws(1), 1, 1, false) == Ws(2)
    ensures Given(Ws(2), 0, 2, true) == Ws(3) && Given(Ws(3), 1, 3, true) == Ws(4)
    ensures Given(Ws(4), 1, 4, false) == Ws(5)
    ensures Sent(Ws(2), 0, 2, true, []) == [Reply(1, 21, 0)]
    ensures Sent(Ws(3), 1, 3, true, [Reply(1, 21, 0)]) == [Reply(1, 21, 0), Reply(3, 41, 0)]
  {
  }

  // What the five scans see.
  lemma OneSeen(m: nat)
    ensures Seen([m + 2], [true], false) == [] && Seen([m + 2], [true], true) == [m + 2]
    ensures Seen([m + 2, m + 1], [true, true], false) == []
    ensures Seen([m + 2, m + 1], [true, true], true) == [m + 2, m + 1]
  {
    SeenOfThree(m + 2, m + 1, m, true, true, true, true);
    SeenOfThree(m + 2, m + 1, m, true, true, true, false);
  }

  lemma ThirdSeen(m: nat)
    ensures Seen([m + 2, m + 1, m], [true, false, true], false) == [m + 1]
    ensures Seen([m + 2, m + 1, m], [true, false, true], true) == [m + 2, m]
  {
    SeenOfThree(m + 2, m + 1, m, true, false, true, true);
    SeenOfThree(m + 2, m + 1, m, true, false, true, false);
  }

  lemma FourthSeen(m: nat)
    ensures Seen([m + 2, m + 1, m + 1], [true, false, false], false) == [m + 1, m + 1]
    ensures Seen([m + 2, m + 1, m + 1], [true, false, false], true) == [m + 2]
  {
    SeenOfThree(m + 2, m + 1, m + 1, true, false, false, true);
    SeenOfThree(m + 2, m + 1, m + 1, true, false, false, false);
  }

  lemma FirstServed(addrs: seq<nat>, m: nat) returns (es: seq<Event>)
    requires PoolAt(addrs, m + 3)
    ensures RunAsWritten(addrs, After(m, 0), es, After(m, 1))
  {
    OneSeen(m);
    GivenInTurn();
    assert [m, m + 1, m + 2] == [m, m + 1] + [m + 2] && [] + [m + 2] == [m + 2] && [m, m + 1] + [] == [m, m + 1];
    es := ServeRun(addrs, m, Ws(0), [m, m + 1], 2, [], 0, [], false, [true], [], [m + 2]);
    assert [m + 2][..1] == [m + 2];
  }

  lemma SecondServed(addrs: seq<nat>, m: nat) returns (es: seq<Event>)
    requires PoolAt(addrs, m + 3)
    ensures RunAsWritten(addrs, After(m, 1), es, After(m, 2))
  {
    OneSeen(m);
    GivenInTurn();
    assert [m, m + 1] == [m] + [m + 1] && [m + 2] + [m + 1] == [m + 2, m + 1] && [m] + [] == [m];
    es := ServeRun(addrs, m, Ws(1), [m], 1, [m + 2], 1, [], false, [true, true], [], [m + 2, m + 1]);
    assert [m + 2, m + 1][..2] == [m + 2, m + 1];
  }

  // Workers m + 2 and m are kept, but the second place of the occupied list still holds m + 1, who has been freed.
  lemma ThirdServed(addrs: seq<nat>, m: nat) returns (es: seq<Event>)
    requires PoolAt(addrs, m + 3)
    ensures RunAsWritten(addrs, After(m, 2), es, After(m, 3))
  {
    ThirdSeen(m);
    GivenInTurn();
    assert [m] == [] + [m] && [m + 2, m + 1] + [m] == [m + 2, m + 1, m] && [] + [m + 1] == [m + 1];
    es := ServeRun(addrs, m, Ws(2), [], 0, [m + 2, m + 1], 2, [], true, [true, false, true], [m + 1], [m + 2, m]);
    assert [m + 2, m + 1, m][..2] == [m + 2, m + 1];
  }

  // Worker m + 1 is found idle in two places and freed twice.
  lemma FourthServed(addrs: seq<nat>, m: nat) returns (es: seq<Event>)
    requires PoolAt(addrs, m + 3)
    ensures RunAsWritten(addrs, After(m, 3), es, After(m, 4))
  {
    FourthSeen(m);
    GivenInTurn();
    assert [m + 1] == [] + [m + 1] && [m + 2, m + 1] + [m + 1] == [m + 2, m + 1, m + 1];
    es := ServeRun(addrs, m, Ws(3), [], 1, [m + 2, m + 1], 3, [Reply(1, 21, 0)], true, [true, false, false],
                   [m + 1, m + 1], [m + 2]);
    assert [] + [m + 1, m + 1] == [m + 1, m + 1] && [m + 2, m + 1, m + 1][..1] == [m + 2];
  }

  lemma FifthServed(addrs: seq<nat>, m: nat) returns (es: seq<Event>)
    requires PoolAt(addrs, m + 3)
    ensures RunAsWritten(addrs, After(m, 4), es, After(m, 5))
  {
    OneSeen(m);
    GivenInTurn();
    assert [m + 1, m + 1] == [m + 1] + [m + 1] && [m + 2] + [m + 1] == [m + 2, m + 1] && [m + 1] + [] == [m + 1];
    es := ServeRun(addrs, m, Ws(4), [m + 1], 1, [m + 2], 4, [Reply(1, 21, 0), Reply(3, 41, 0)], false, [true, true], [],
                   [m + 2, m + 1]);
    assert [m + 2, m + 1][..2] == [m + 2, m + 1];
  }

  lemma ServeNext(addrs: seq<nat>, m: nat, k: nat) returns (es: seq<Event>)
    requires PoolAt(addrs, m + 3) && k < 5
    ensures RunAsWritten(addrs, After(m, k), es, After(m, k + 1))
  {
    if k == 0 {
      es := FirstServed(addrs, m);
    } else if k == 1 {
      es := SecondServed(addrs, m);
    } else if k == 2 {
      es := ThirdServed(addrs, m);
    } else if k == 3 {
      es := FourthServed(addrs, m);
    } else {
      es := FifthServed(addrs, m);
    }
  }

  lemma {:induction false} ServeUpTo(addrs: seq<nat>, m: nat, k: nat) returns (es: seq<Event>)
    requires PoolAt(addrs, m + 3) && k <= 5
    ensures RunAsWritten(addrs, After(m, 0), es, After(m, k))
  {
    if k == 0 {
      es := [];
    } else {
      es := ServeUpTo(addrs, m, k - 1);
      var fs := ServeNext(addrs, m, k - 1);
      RunAsWrittenConcat(addrs, After(m, 0), es, After(m, k - 1), fs, After(m, k));
      es := es + fs;
    }
  }

  lemma StartsIdle(m: nat)
    ensures Init(m + 3) == After(m, 0)
  {
    assert Init(m + 3).workers == Idles(m) + Ws(0);
    assert Init(m + 3).free == Range(m) + [m, m + 1, m + 2];
  }

  /** The sixth request reaches the worker that is still busy with the fifth. */
  lemma SixthPacket(m: nat) returns (s: State)
    ensures s == Step(After(m, 5), Packet(Request(60, 0)))
    ensures s.d == FillInfo(m + 1, Request(60, 0)) && |s.workers| == m + 3 && s.workers[m + 1] == AtFlag(4, 50, true)
    ensures s.accepted == Asked(5) && s.replies == [Reply(1, 21, 0), Reply(3, 41, 0)]
    ensures Step(s, Dispatch).workers[m + 1] == AtFlag(4, 60, true)
  {
    s := Step(After(m, 5), Packet(Request(60, 0)));
    PoppedAt(m, [], m + 1);
    assert [] + [m + 1] == [m + 1];
    UpdatedAt(m, Ws(5), 1, AtFlag(4, 60, true));
  }

  /**
   * A run without the guard, for a pool of any size from three on and wherever the workers lie in memory: a sixth
   * request is written over the fifth, which a busy worker has not answered.
   */
  lemma BusyWorkerOverwritten(n: nat, addrs: seq<nat>) returns (es: seq<Event>, s: State)
    requires n >= 3 && PoolAt(addrs, n)
    ensures RunAsWritten(addrs, Init(n), es, s)
    ensures s.d == FillInfo(n - 2, Request(60, 0)) && |s.workers| == n && s.workers[n - 2] == AtFlag(4, 50, true)
    ensures |s.accepted| == 5 && s.accepted[4] == Request(50, 0) && !Answered(s, 4)
    ensures Step(s, Dispatch).workers[n - 2] == AtFlag(4, 60, true)
  {
    var m := n - 3;
    StartsIdle(m);
    es := ServeUpTo(addrs, m, 5);
    s := SixthPacket(m);
    RunAsWrittenCons(addrs, After(m, 5), Packet(Request(60, 0)), [], s);
    RunAsWrittenConcat(addrs, Init(n), es, After(m, 5), [Packet(Request(60, 0))] + [], s);
    es := es + ([Packet(Request(60, 0))] + []);
  }
}
