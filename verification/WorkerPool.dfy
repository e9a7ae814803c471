// The UDP server with a pool of worker threads: a dispatcher hands requests to free workers and reclaims idle ones.
// Every access to a shared field is a step of its own; memory is sequentially consistent.

module WorkerPool {

  // ----- the worker's computation -----

  const ROUNDS := 99999999

  /** What the busy loop leaves in its counter. */
  function Spun(): nat { ROUNDS % 2 }

  /** The busy loop of thread_routine. a is unsigned, so it must never be decremented at 0. */
  method BusyLoop() returns (a: nat)
    ensures a == Spun() == 1
  {
    a := 0;
    for i := 0 to ROUNDS
      invariant a == i % 2
    {
      if i % 2 == 0 {
        a := a + 1;
      } else {
        a := a - 1;
      }
    }
  }

  const INT_MAX: int := 0x7fff_ffff

  /** order.info += a, converted back to a 32-bit int. */
  function Answer(info: int): (r: int)
    ensures -INT_MAX - 1 <= info <= INT_MAX ==> r == if info == INT_MAX then -INT_MAX - 1 else info + 1
  {
    if info + Spun() > INT_MAX then info + Spun() - 0x1_0000_0000 else info + Spun()
  }

  // ----- the whole server -----

  datatype Request = Request(info: int, client: int)

  datatype Reply = Reply(job: int, info: int, client: int)

  /** Where a worker is: reading its flag, computing, sending, clearing its flag. */
  datatype WorkerPc = Poll | Compute | Send | Clear

  /** `job` is the index of the accepted request the worker was last given, or -1. */
  datatype Worker = Worker(info: int, client: int, flag: bool, pc: WorkerPc, job: int)

  /** Where the dispatcher is: receiving; filling in the order, the address and the flag of the worker it popped;
      pushing it; scanning the occupied workers, of whom as many as there are `flags` have been looked at. */
  datatype Dispatcher =
    | Receive
    | FillInfo(w: nat, r: Request)
    | FillClient(w: nat, r: Request)
    | SetFlag(w: nat, r: Request)
    | Push(w: nat)
    | Scan(flags: seq<bool>, kept: seq<nat>)
    | Stopped

  datatype State = State(workers: seq<Worker>, free: seq<nat>, occupied: seq<nat>, d: Dispatcher,
                         accepted: seq<Request>, replies: seq<Reply>)

  datatype Event = Packet(r: Request) | Dispatch | Work(w: nat)

  function Range(n: nat): seq<nat> { seq(n, i => i) }

  function Init(n: nat): State {
    State(seq(n, _ => Worker(0, 0, false, Poll, -1)), Range(n), [], Receive, [], [])
  }

  predicate Enabled(s: State, e: Event) {
    match e
    case Packet(_) => s.d == Receive
    case Dispatch => s.d != Receive && s.d != Stopped
    case Work(w) => w < |s.workers|
  }

  /** The indices the dispatcher uses are those of workers. */
  predicate InPool(s: State) {
    match s.d
    case FillInfo(w, _) => w < |s.workers|
    case FillClient(w, _) => w < |s.workers|
    case SetFlag(w, _) => w < |s.workers|
    case Scan(flags, _) =>
      |flags| <= |s.occupied| && (|flags| < |s.occupied| ==> s.occupied[|flags|] < |s.workers|)
    case _ => true
  }

  function DispatchStep(s: State): State
    requires InPool(s) && Enabled(s, Dispatch)
  {
    match s.d
    case FillInfo(w, r) => s.(workers := s.workers[w := s.workers[w].(info := r.info)], d := FillClient(w, r))
    case FillClient(w, r) => s.(workers := s.workers[w := s.workers[w].(client := r.client)], d := SetFlag(w, r))
    case SetFlag(w, r) =>
      s.(workers := s.workers[w := s.workers[w].(flag := true, job := |s.accepted|)],
         accepted := s.accepted + [r], d := Push(w))
    case Push(w) => s.(occupied := s.occupied + [w], d := Scan([], []))
    case Scan(flags, kept) =>
      if |flags| == |s.occupied| then s.(occupied := kept, d := Receive)
      else
        var w := s.occupied[|flags|];
        if !s.workers[w].flag then s.(free := s.free + [w], d := Scan(flags + [false], kept))
        else s.(d := Scan(flags + [true], kept + [w]))
  }

  function WorkStep(s: State, w: nat): State
    requires w < |s.workers|
  {
    var k := s.workers[w];
    match k.pc
    case Poll => if k.flag then s.(workers := s.workers[w := k.(pc := Compute)]) else s
    case Compute => s.(workers := s.workers[w := k.(info := Answer(k.info), pc := Send)])
    case Send =>
      s.(workers := s.workers[w := k.(pc := Clear)], replies := s.replies + [Reply(k.job, k.info, k.client)])
    case Clear => s.(workers := s.workers[w := k.(flag := false, pc := Poll)])
  }

  /**
   * A request with info -1 stops the server; with no free worker a request is dropped. The scan ends as it is meant
   * to, with the workers kept in the occupied list; what the byte count makes of it is StepAsWritten.
   */
  function Step(s: State, e: Event): State
    requires InPool(s) && Enabled(s, e)
  {
    match e
    case Packet(r) =>
      if r.info == -1 then s.(d := Stopped)
      else if |s.free| > 0 then s.(free := s.free[..|s.free| - 1], d := FillInfo(s.free[|s.free| - 1], r))
      else s.(d := Scan([], []))
    case Dispatch => DispatchStep(s)
    case Work(w) => WorkStep(s, w)
  }

  /** `t` is reached from `s` by the events `es`. The dispatcher's indices are always in the pool: PoolIsPartitioned. */
  ghost predicate Run(s: State, es: seq<Event>, t: State)
    decreases |es|
  {
    if es == [] then t == s
    else InPool(s) && Enabled(s, es[0]) && Run(Step(s, es[0]), es[1..], t)
  }

  // ----- who has which worker -----

  /** The worker the dispatcher has popped and not yet pushed. */
  function InHand(d: Dispatcher): seq<nat> {
    match d
    case FillInfo(w, _) => [w]
    case FillClient(w, _) => [w]
    case SetFlag(w, _) => [w]
    case Push(w) => [w]
    case _ => []
  }

  /** The occupied workers, as far as the dispatcher's scan has got. */
  function Busy(s: State): seq<nat> {
    match s.d
    case Scan(flags, kept) => if |flags| <= |s.occupied| then kept + s.occupied[|flags|..] else kept
    case _ => s.occupied
  }

  function Everyone(s: State): seq<nat> { s.free + InHand(s.d) + Busy(s) }

  /** Every worker once. */
  function Pool(n: nat): multiset<nat> { multiset(Range(n)) }

  // ----- what a scan sees -----

  /** The workers of `occupied` whose flag was read as `want`. */
  function Seen(occupied: seq<nat>, flags: seq<bool>, want: bool): seq<nat>
    requires |occupied| == |flags|
  {
    if occupied == [] then []
    else
      var n := |occupied| - 1;
      Seen(occupied[..n], flags[..n], want) + if flags[n] == want then [occupied[n]] else []
  }

  lemma {:induction false} SeenLengths(occupied: seq<nat>, flags: seq<bool>)
    requires |occupied| == |flags|
    ensures |Seen(occupied, flags, true)| + |Seen(occupied, flags, false)| == |occupied|
  {
    if occupied != [] {
      var n := |occupied| - 1;
      SeenLengths(occupied[..n], flags[..n]);
    }
  }

  /** The workers seen are those of the positions with that flag, in the order they had. */
  lemma {:induction false} SeenKeepsOrder(occupied: seq<nat>, flags: seq<bool>, want: bool) returns (at: seq<nat>)
    requires |occupied| == |flags|
    ensures |at| == |Seen(occupied, flags, want)|
    ensures forall i :: 0 <= i < |at| ==> at[i] < |occupied| && Seen(occupied, flags, want)[i] == occupied[at[i]]
    ensures forall i, j :: 0 <= i < j < |at| ==> at[i] < at[j]
    ensures forall x :: 0 <= x < |occupied| ==> (x in at <==> flags[x] == want)
  {
    if occupied == [] {
      at := [];
    } else {
      var n := |occupied| - 1;
      at := SeenKeepsOrder(occupied[..n], flags[..n], want);
      if flags[n] == want {
        at := at + [n];
      }
    }
  }

  // Looking at one more worker.
  lemma SeenGrows(occupied: seq<nat>, flags: seq<bool>, flag: bool, want: bool)
    requires |flags| < |occupied|
    ensures Seen(occupied[..|flags| + 1], flags + [flag], want)
            == Seen(occupied[..|flags|], flags, want) + if flag == want then [occupied[|flags|]] else []
  {
    assert occupied[..|flags| + 1][..|flags|] == occupied[..|flags|] && (flags + [flag])[..|flags|] == flags;
  }

  // ----- the invariant -----

  ghost predicate Answered(s: State, job: int) { exists i :: 0 <= i < |s.replies| && s.replies[i].job == job }

  ghost predicate Idle(k: Worker) { !k.flag && k.pc == Poll }

  /** A flagged worker has its request untouched until it answers, and answers once. */
  ghost predicate WorkerInv(s: State, w: nat)
    requires w < |s.workers|
  {
    var k := s.workers[w];
    && (k.pc != Poll ==> k.flag)
    && (!k.flag ==> k.job == -1 || Answered(s, k.job))
    && (k.flag ==>
          && 0 <= k.job < |s.accepted|
          && k.client == s.accepted[k.job].client
          && k.info == (if k.pc in {Poll, Compute} then s.accepted[k.job].info else Answer(s.accepted[k.job].info))
          && (Answered(s, k.job) <==> k.pc == Clear))
  }

  ghost predicate ReplyInv(s: State, i: nat)
    requires i < |s.replies|
  {
    var r := s.replies[i];
    && 0 <= r.job < |s.accepted|
    && r.info == Answer(s.accepted[r.job].info) && r.client == s.accepted[r.job].client
    && forall j :: 0 <= j < i ==> s.replies[j].job != r.job
  }

  /** An accepted request has been answered or some worker still holds it. */
  ghost predicate JobInv(s: State, job: nat) {
    Answered(s, job) || exists w :: 0 <= w < |s.workers| && s.workers[w].flag && s.workers[w].job == job
  }

  /** Workers of the pool, none of them twice. */
  predicate ApartInPool(ws: seq<nat>, n: nat) {
    (forall i :: 0 <= i < |ws| ==> ws[i] < n) && forall i, j :: 0 <= i < j < |ws| ==> ws[i] != ws[j]
  }

  ghost predicate DispatcherInv(s: State) {
    match s.d
    case FillInfo(w, _) => w < |s.workers| && Idle(s.workers[w])
    case FillClient(w, r) => w < |s.workers| && Idle(s.workers[w]) && s.workers[w].info == r.info
    case SetFlag(w, r) =>
      w < |s.workers| && Idle(s.workers[w]) && s.workers[w].info == r.info && s.workers[w].client == r.client
    case Scan(flags, kept) =>
      && |flags| <= |s.occupied| && kept == Seen(s.occupied[..|flags|], flags, true)
      && ApartInPool(s.occupied, |s.workers|)
    case _ => true
  }

  ghost predicate JobsDistinct(s: State) {
    forall w, w' :: 0 <= w < w' < |s.workers| && s.workers[w].flag && s.workers[w'].flag ==>
      s.workers[w].job != s.workers[w'].job
  }

  ghost predicate PoolInv(s: State) { multiset(Everyone(s)) == Pool(|s.workers|) }

  ghost predicate FreeIdle(s: State) {
    forall i :: 0 <= i < |s.free| ==> s.free[i] < |s.workers| && Idle(s.workers[s.free[i]])
  }

  ghost predicate JobsInv(s: State) {
    && (forall w :: 0 <= w < |s.workers| ==> WorkerInv(s, w))
    && JobsDistinct(s)
    && (forall i :: 0 <= i < |s.replies| ==> ReplyInv(s, i))
    && (forall j :: 0 <= j < |s.accepted| ==> JobInv(s, j))
  }

  ghost predicate Inv(s: State) { PoolInv(s) && FreeIdle(s) && DispatcherInv(s) && JobsInv(s) }

  lemma {:induction false} PoolHasEachOnce(n: nat, w: nat)
    ensures Pool(n)[w] == if w < n then 1 else 0
  {
    if n > 0 {
      PoolHasEachOnce(n - 1, w);
      assert Range(n) == Range(n - 1) + [n - 1];
    }
  }

  lemma InitInv(n: nat)
    ensures Inv(Init(n))
  {
    assert Everyone(Init(n)) == Range(n);
  }

  // The pool invariant bounds every index and puts no worker in two places.
  lemma PoolFacts(s: State, w: nat)
    requires PoolInv(s) && w in Everyone(s)
    ensures w < |s.workers|
    ensures multiset(s.free)[w] + multiset(InHand(s.d))[w] + multiset(Busy(s))[w] == 1
  {
    assert multiset(Everyone(s)) == multiset(s.free) + multiset(InHand(s.d)) + multiset(Busy(s));
    assert w in multiset(Everyone(s));
    PoolHasEachOnce(|s.workers|, w);
  }

  lemma TwiceCounted(ws: seq<nat>, i: nat, j: nat)
    requires i < j < |ws| && ws[i] == ws[j]
    ensures multiset(ws)[ws[i]] >= 2
  {
    assert ws == ws[..j] + ws[j..];
    assert ws[..j][i] == ws[j] && ws[j..][0] == ws[j];
    assert ws[j] in multiset(ws[..j]) && ws[j] in multiset(ws[j..]);
  }

  lemma BusyAreApart(s: State)
    requires PoolInv(s)
    ensures ApartInPool(Busy(s), |s.workers|)
  {
    var ws := Busy(s);
    forall i | 0 <= i < |ws| ensures ws[i] < |s.workers| {
      PoolFacts(s, ws[i]);
    }
    forall i, j | 0 <= i < j < |ws| ensures ws[i] != ws[j] {
      PoolFacts(s, ws[i]);
      if ws[i] == ws[j] {
        TwiceCounted(ws, i, j);
      }
    }
  }

  lemma InvInPool(s: State)
    requires Inv(s)
    ensures InPool(s)
  {
    if s.d.Scan? && |s.d.flags| < |s.occupied| {
      var w := s.occupied[|s.d.flags|];
      assert s.occupied[|s.d.flags|..][0] == w && w in Busy(s);
      PoolFacts(s, w);
    }
  }

  // ----- moves of the dispatcher between the lists -----

  // Most moves leave the three lists in a row unchanged; the others carry one worker past a block.
  lemma SameRowKeepsPool(s: State, t: State)
    requires PoolInv(s) && |t.workers| == |s.workers| && Everyone(t) == Everyone(s)
    ensures PoolInv(t)
  {
  }

  lemma ShuffledRowKeepsPool(s: State, t: State)
    requires PoolInv(s) && |t.workers| == |s.workers| && multiset(Everyone(t)) == multiset(Everyone(s))
    ensures PoolInv(t)
  {
  }

  lemma RowAfterFree(free: seq<nat>, kept: seq<nat>, x: nat, rest: seq<nat>)
    ensures multiset((free + [x]) + [] + (kept + rest)) == multiset(free + [] + (kept + ([x] + rest)))
  {
    assert multiset(free + [x]) == multiset(free) + multiset{x};
  }

  lemma RowAfterPush(free: seq<nat>, w: nat, occupied: seq<nat>)
    ensures multiset(free + [] + (occupied + [w])) == multiset(free + [w] + occupied)
  {
    assert multiset(occupied + [w]) == multiset(occupied) + multiset{w};
  }

  lemma PopKeepsRow(free: seq<nat>, busy: seq<nat>)
    requires free != []
    ensures free[..|free| - 1] + [free[|free| - 1]] + busy == free + [] + busy
  {
  }

  lemma PopKeepsPool(s: State, r: Request)
    requires PoolInv(s) && s.d == Receive && s.free != []
    ensures PoolInv(s.(free := s.free[..|s.free| - 1], d := FillInfo(s.free[|s.free| - 1], r)))
  {
    PopKeepsRow(s.free, s.occupied);
    SameRowKeepsPool(s, s.(free := s.free[..|s.free| - 1], d := FillInfo(s.free[|s.free| - 1], r)));
  }

  lemma BusyAtScanStart(s: State)
    requires s.d == Scan([], [])
    ensures Busy(s) == s.occupied
  {
  }

  lemma StartScanKeepsPool(s: State)
    requires PoolInv(s) && s.d == Receive
    ensures PoolInv(s.(d := Scan([], []))) && PoolInv(s.(d := Stopped))
  {
    BusyAtScanStart(s.(d := Scan([], [])));
    SameRowKeepsPool(s, s.(d := Scan([], [])));
    SameRowKeepsPool(s, s.(d := Stopped));
  }

  lemma PacketKeepsPool(s: State, r: Request)
    requires PoolInv(s) && s.d == Receive
    ensures PoolInv(Step(s, Packet(r)))
  {
    if r.info != -1 && |s.free| > 0 {
      PopKeepsPool(s, r);
    } else {
      StartScanKeepsPool(s);
    }
  }

  // The worker the scan looks at next leads what is still to be looked at.
  lemma NextInScan(s: State)
    requires s.d.Scan? && |s.d.flags| < |s.occupied|
    ensures Busy(s) == s.d.kept + ([s.occupied[|s.d.flags|]] + s.occupied[|s.d.flags| + 1..])
  {
  }

  lemma ScanFreesRow(s: State, t: State)
    requires s.d.Scan? && |s.d.flags| < |s.occupied|
    requires t.free == s.free + [s.occupied[|s.d.flags|]] && InHand(t.d) == []
    requires Busy(t) == s.d.kept + s.occupied[|s.d.flags| + 1..]
    ensures multiset(Everyone(t)) == multiset(Everyone(s))
  {
    NextInScan(s);
    RowAfterFree(s.free, s.d.kept, s.occupied[|s.d.flags|], s.occupied[|s.d.flags| + 1..]);
  }

  lemma ScanFreesInPool(s: State)
    requires PoolInv(s) && s.d.Scan? && |s.d.flags| < |s.occupied|
    ensures PoolInv(s.(free := s.free + [s.occupied[|s.d.flags|]], d := Scan(s.d.flags + [false], s.d.kept)))
  {
    var t := s.(free := s.free + [s.occupied[|s.d.flags|]], d := Scan(s.d.flags + [false], s.d.kept));
    ScanFreesRow(s, t);
    ShuffledRowKeepsPool(s, t);
  }

  lemma Regroup(a: seq<nat>, x: nat, b: seq<nat>)
    ensures (a + [x]) + b == a + ([x] + b)
  {
  }

  lemma ScanKeepsInPool(s: State)
    requires PoolInv(s) && s.d.Scan? && |s.d.flags| < |s.occupied|
    ensures PoolInv(s.(d := Scan(s.d.flags + [true], s.d.kept + [s.occupied[|s.d.flags|]])))
  {
    NextInScan(s);
    Regroup(s.d.kept, s.occupied[|s.d.flags|], s.occupied[|s.d.flags| + 1..]);
    SameRowKeepsPool(s, s.(d := Scan(s.d.flags + [true], s.d.kept + [s.occupied[|s.d.flags|]])));
  }

  lemma ScanEndsInPool(s: State)
    requires PoolInv(s) && s.d.Scan? && |s.d.flags| == |s.occupied|
    ensures PoolInv(s.(occupied := s.d.kept, d := Receive))
  {
    assert Busy(s) == s.d.kept;
    SameRowKeepsPool(s, s.(occupied := s.d.kept, d := Receive));
  }

  lemma PushedRow(s: State, t: State)
    requires s.d.Push? && t.free == s.free && InHand(t.d) == [] && Busy(t) == s.occupied + [s.d.w]
    ensures multiset(Everyone(t)) == multiset(Everyone(s))
  {
    RowAfterPush(s.free, s.d.w, s.occupied);
  }

  lemma PushKeepsPool(s: State)
    requires PoolInv(s) && s.d.Push?
    ensures PoolInv(s.(occupied := s.occupied + [s.d.w], d := Scan([], [])))
  {
    var t := s.(occupied := s.occupied + [s.d.w], d := Scan([], []));
    BusyAtScanStart(t);
    PushedRow(s, t);
    ShuffledRowKeepsPool(s, t);
  }

  lemma FillKeepsPool(s: State)
    requires PoolInv(s) && InPool(s) && (s.d.FillInfo? || s.d.FillClient? || s.d.SetFlag?)
    ensures PoolInv(DispatchStep(s))
  {
    SameRowKeepsPool(s, DispatchStep(s));
  }

  lemma DispatchKeepsPool(s: State)
    requires PoolInv(s) && InPool(s) && Enabled(s, Dispatch)
    ensures PoolInv(DispatchStep(s))
  {
    if s.d.Scan? {
      if |s.d.flags| == |s.occupied| {
        ScanEndsInPool(s);
      } else {
        ScanFreesInPool(s);
        ScanKeepsInPool(s);
      }
    } else if s.d.Push? {
      PushKeepsPool(s);
    } else {
      FillKeepsPool(s);
    }
  }

  // ----- every step keeps the invariant -----

  // A step that touches no worker, request or reply.
  lemma SameWorkersKeepJobs(s: State, t: State)
    requires JobsInv(s) && t.workers == s.workers && t.accepted == s.accepted && t.replies == s.replies
    ensures JobsInv(t)
  {
    forall w | 0 <= w < |t.workers| ensures WorkerInv(t, w) {
      assert WorkerInv(s, w);
      assert Answered(t, s.workers[w].job) <==> Answered(s, s.workers[w].job);
    }
    forall i | 0 <= i < |t.replies| ensures ReplyInv(t, i) {
      assert ReplyInv(s, i);
    }
    forall j | 0 <= j < |t.accepted| ensures JobInv(t, j) {
      assert JobInv(s, j) && (Answered(t, j) <==> Answered(s, j));
    }
  }

  lemma PacketKeepsFree(s: State, r: Request)
    requires FreeIdle(s) && s.d == Receive && ApartInPool(s.occupied, |s.workers|)
    ensures FreeIdle(Step(s, Packet(r))) && DispatcherInv(Step(s, Packet(r)))
  {
  }

  lemma PacketKeepsInv(s: State, r: Request)
    requires Inv(s) && s.d == Receive
    ensures Inv(Step(s, Packet(r)))
  {
    PacketKeepsPool(s, r);
    BusyAreApart(s);
    PacketKeepsFree(s, r);
    SameWorkersKeepJobs(s, Step(s, Packet(r)));
  }

  lemma ScanKeepsKept(s: State)
    requires DispatcherInv(s) && InPool(s) && s.d.Scan?
    ensures DispatcherInv(DispatchStep(s))
  {
    var i := |s.d.flags|;
    if i < |s.occupied| {
      SeenGrows(s.occupied, s.d.flags, s.workers[s.occupied[i]].flag, true);
    }
  }

  lemma ScanKeepsFree(s: State)
    requires FreeIdle(s) && InPool(s) && s.d.Scan?
    requires forall w :: 0 <= w < |s.workers| && !s.workers[w].flag ==> Idle(s.workers[w])
    ensures FreeIdle(DispatchStep(s))
  {
  }

  lemma UnflaggedAreIdle(s: State)
    requires JobsInv(s)
    ensures forall w :: 0 <= w < |s.workers| && !s.workers[w].flag ==> Idle(s.workers[w])
  {
    forall w | 0 <= w < |s.workers| && !s.workers[w].flag ensures Idle(s.workers[w]) {
      assert WorkerInv(s, w);
    }
  }

  // The worker being filled in is in nobody's list.
  lemma FilledIsApart(s: State, w: nat)
    requires PoolInv(s) && InHand(s.d) == [w]
    ensures w < |s.workers| && w !in s.free
  {
    assert w in Everyone(s);
    PoolFacts(s, w);
  }

  lemma FillKeepsFree(s: State)
    requires FreeIdle(s) && DispatcherInv(s) && (s.d.FillInfo? || s.d.FillClient? || s.d.SetFlag?)
    requires s.d.w !in s.free
    ensures FreeIdle(DispatchStep(s)) && DispatcherInv(DispatchStep(s))
  {
  }

  lemma HolderRemains(s: State, t: State, j: nat)
    requires JobInv(s, j) && |t.workers| == |s.workers| && (Answered(s, j) ==> Answered(t, j))
    requires forall w :: 0 <= w < |s.workers| && s.workers[w].flag && s.workers[w].job == j ==>
               (t.workers[w].flag && t.workers[w].job == j) || Answered(t, j)
    ensures JobInv(t, j)
  {
    if !Answered(s, j) && !Answered(t, j) {
      var w :| 0 <= w < |s.workers| && s.workers[w].flag && s.workers[w].job == j;
      assert t.workers[w].flag && t.workers[w].job == j;
    }
  }

  lemma FillKeepsJobs(s: State)
    requires DispatcherInv(s) && JobsInv(s) && (s.d.FillInfo? || s.d.FillClient?)
    ensures JobsInv(DispatchStep(s))
  {
    var t := DispatchStep(s);
    forall w | 0 <= w < |t.workers| ensures WorkerInv(t, w) {
      assert WorkerInv(s, w);
      assert Answered(t, s.workers[w].job) <==> Answered(s, s.workers[w].job);
    }
    forall i | 0 <= i < |t.replies| ensures ReplyInv(t, i) {
      assert ReplyInv(s, i);
    }
    forall j | 0 <= j < |t.accepted| ensures JobInv(t, j) {
      assert JobInv(s, j) && (Answered(t, j) <==> Answered(s, j));
      HolderRemains(s, t, j);
    }
  }

  lemma AnsweredAreAccepted(s: State, t: State, job: int)
    requires JobsInv(s) && t.replies == s.replies && Answered(t, job)
    ensures 0 <= job < |s.accepted|
  {
    var i :| 0 <= i < |t.replies| && t.replies[i].job == job;
    assert ReplyInv(s, i);
  }

  lemma AcceptKeepsWorkers(s: State, w: nat)
    requires DispatcherInv(s) && JobsInv(s) && s.d.SetFlag? && w < |s.workers|
    ensures WorkerInv(DispatchStep(s), w)
  {
    var t := DispatchStep(s);
    assert WorkerInv(s, w);
    if Answered(t, t.workers[w].job) {
      AnsweredAreAccepted(s, t, t.workers[w].job);
    }
    assert Answered(t, s.workers[w].job) <==> Answered(s, s.workers[w].job);
  }

  lemma AcceptKeepsDistinct(s: State)
    requires DispatcherInv(s) && JobsInv(s) && s.d.SetFlag?
    ensures JobsDistinct(DispatchStep(s))
  {
    var t := DispatchStep(s);
    forall w, w' | 0 <= w < w' < |t.workers| && t.workers[w].flag && t.workers[w'].flag
      ensures t.workers[w].job != t.workers[w'].job
    {
      assert WorkerInv(s, w) && WorkerInv(s, w');
    }
  }

  lemma AcceptKeepsJobs(s: State)
    requires DispatcherInv(s) && JobsInv(s) && s.d.SetFlag?
    ensures JobsInv(DispatchStep(s))
  {
    var t, f := DispatchStep(s), s.d.w;
    AcceptKeepsDistinct(s);
    forall w | 0 <= w < |t.workers| ensures WorkerInv(t, w) {
      AcceptKeepsWorkers(s, w);
    }
    forall i | 0 <= i < |t.replies| ensures ReplyInv(t, i) {
      assert ReplyInv(s, i);
    }
    forall j | 0 <= j < |t.accepted| ensures JobInv(t, j) {
      if j == |s.accepted| {
        assert t.workers[f].flag && t.workers[f].job == j;
      } else {
        assert Answered(t, j) <==> Answered(s, j);
        assert JobInv(s, j);
        HolderRemains(s, t, j);
      }
    }
  }

  lemma ScanKeepsJobs(s: State)
    requires JobsInv(s) && InPool(s) && s.d.Scan?
    ensures JobsInv(DispatchStep(s))
  {
    SameWorkersKeepJobs(s, DispatchStep(s));
  }

  lemma ScanKeepsInv(s: State)
    requires Inv(s) && InPool(s) && s.d.Scan?
    ensures Inv(DispatchStep(s))
  {
    DispatchKeepsPool(s);
    UnflaggedAreIdle(s);
    ScanKeepsFree(s);
    ScanKeepsKept(s);
    ScanKeepsJobs(s);
  }

  lemma PushKeepsInv(s: State)
    requires Inv(s) && s.d.Push?
    ensures Inv(DispatchStep(s))
  {
    DispatchKeepsPool(s);
    BusyAtScanStart(DispatchStep(s));
    BusyAreApart(DispatchStep(s));
    SameWorkersKeepJobs(s, DispatchStep(s));
  }

  lemma FillKeepsInv(s: State)
    requires Inv(s) && (s.d.FillInfo? || s.d.FillClient? || s.d.SetFlag?)
    ensures Inv(DispatchStep(s))
  {
    DispatchKeepsPool(s);
    FilledIsApart(s, s.d.w);
    FillKeepsFree(s);
    if s.d.SetFlag? {
      AcceptKeepsJobs(s);
    } else {
      FillKeepsJobs(s);
    }
  }

  lemma DispatchKeepsInv(s: State)
    requires Inv(s) && InPool(s) && Enabled(s, Dispatch)
    ensures Inv(DispatchStep(s))
  {
    if s.d.Scan? {
      ScanKeepsInv(s);
    } else if s.d.Push? {
      PushKeepsInv(s);
    } else {
      FillKeepsInv(s);
    }
  }

  lemma SendAnswers(s: State, w: nat, job: int)
    requires w < |s.workers| && s.workers[w].pc == Send
    ensures Answered(WorkStep(s, w), job) <==> Answered(s, job) || job == s.workers[w].job
  {
    var t := WorkStep(s, w);
    if Answered(s, job) {
      var i :| 0 <= i < |s.replies| && s.replies[i].job == job;
      assert t.replies[i].job == job;
    }
    assert t.replies[|s.replies|].job == s.workers[w].job;
  }

  lemma WorkKeepsWorker(s: State, w: nat, v: nat)
    requires JobsInv(s) && w < |s.workers| && v < |s.workers|
    ensures WorkerInv(WorkStep(s, w), v)
  {
    assert WorkerInv(s, w) && WorkerInv(s, v);
    if s.workers[w].pc == Send {
      SendAnswers(s, w, s.workers[v].job);
    } else {
      assert WorkStep(s, w).replies == s.replies;
      assert Answered(WorkStep(s, w), s.workers[v].job) <==> Answered(s, s.workers[v].job);
    }
  }

  lemma WorkKeepsReply(s: State, w: nat, i: nat)
    requires JobsInv(s) && w < |s.workers| && i < |WorkStep(s, w).replies|
    ensures ReplyInv(WorkStep(s, w), i)
  {
    assert WorkerInv(s, w);
    if i < |s.replies| {
      assert ReplyInv(s, i);
    } else {
      assert !Answered(s, s.workers[w].job);
    }
  }

  lemma WorkKeepsJob(s: State, w: nat, j: nat)
    requires JobsInv(s) && w < |s.workers| && j < |s.accepted|
    ensures JobInv(WorkStep(s, w), j)
  {
    var t := WorkStep(s, w);
    assert JobInv(s, j) && WorkerInv(s, w);
    if s.workers[w].pc == Send {
      SendAnswers(s, w, j);
    } else {
      assert t.replies == s.replies;
      assert Answered(t, j) <==> Answered(s, j);
    }
    HolderRemains(s, t, j);
  }

  lemma WorkKeepsJobs(s: State, w: nat)
    requires JobsInv(s) && w < |s.workers|
    ensures JobsInv(WorkStep(s, w))
  {
    var t := WorkStep(s, w);
    assert WorkerInv(s, w);
    forall v | 0 <= v < |t.workers| ensures WorkerInv(t, v) {
      WorkKeepsWorker(s, w, v);
    }
    forall i | 0 <= i < |t.replies| ensures ReplyInv(t, i) {
      WorkKeepsReply(s, w, i);
    }
    forall j | 0 <= j < |t.accepted| ensures JobInv(t, j) {
      WorkKeepsJob(s, w, j);
    }
  }

  lemma WorkKeepsLists(s: State, w: nat)
    requires w < |s.workers|
    ensures var t := WorkStep(s, w);
            Everyone(t) == Everyone(s) && |t.workers| == |s.workers|
  {
  }

  lemma WorkKeepsPool(s: State, w: nat)
    requires PoolInv(s) && w < |s.workers|
    ensures PoolInv(WorkStep(s, w))
  {
    WorkKeepsLists(s, w);
    SameRowKeepsPool(s, WorkStep(s, w));
  }

  lemma WorkKeepsFree(s: State, w: nat)
    requires FreeIdle(s) && DispatcherInv(s) && w < |s.workers| && WorkerInv(s, w)
    ensures FreeIdle(WorkStep(s, w)) && DispatcherInv(WorkStep(s, w))
  {
  }

  lemma WorkKeepsInv(s: State, w: nat)
    requires Inv(s) && w < |s.workers|
    ensures Inv(WorkStep(s, w))
  {
    assert WorkerInv(s, w);
    WorkKeepsPool(s, w);
    WorkKeepsFree(s, w);
    WorkKeepsJobs(s, w);
  }

  lemma StepKeepsInv(s: State, e: Event)
    requires Inv(s) && InPool(s) && Enabled(s, e)
    ensures Inv(Step(s, e))
  {
    match e
    case Packet(r) => PacketKeepsInv(s, r);
    case Dispatch => DispatchKeepsInv(s);
    case Work(w) => WorkKeepsInv(s, w);
  }

  lemma StepKeepsWorkers(s: State, e: Event)
    requires InPool(s) && Enabled(s, e)
    ensures |Step(s, e).workers| == |s.workers|
  {
  }

  lemma {:induction false} RunKeepsInv(s: State, es: seq<Event>, t: State)
    requires Inv(s) && Run(s, es, t)
    ensures Inv(t) && |t.workers| == |s.workers|
    decreases |es|
  {
    if es != [] {
      StepKeepsInv(s, es[0]);
      StepKeepsWorkers(s, es[0]);
      RunKeepsInv(Step(s, es[0]), es[1..], t);
    }
  }

  // ----- what every run guarantees -----

  lemma ReachableInv(n: nat, es: seq<Event>, s: State)
    requires Run(Init(n), es, s)
    ensures Inv(s) && |s.workers| == n
  {
    InitInv(n);
    RunKeepsInv(Init(n), es, s);
  }

  /**
   * The pool: in every reachable state the free stack, the worker in the dispatcher's hand and the occupied workers
   * are together a permutation of the whole pool, and free workers are idle. Between requests this is the free prefix
   * and the occupied prefix alone.
   */
  lemma PoolIsPartitioned(n: nat, es: seq<Event>, s: State)
    requires Run(Init(n), es, s)
    ensures InPool(s) && |s.workers| == n
    ensures multiset(Everyone(s)) == Pool(n)
    ensures s.d == Receive ==>
              forall w: nat :: multiset(s.free + s.occupied)[w] == if w < n then 1 else 0
    ensures forall i :: 0 <= i < |s.free| ==> s.free[i] < n && !s.workers[s.free[i]].flag
  {
    ReachableInv(n, es, s);
    InvInPool(s);
    if s.d == Receive {
      assert Everyone(s) == s.free + s.occupied;
      forall w: nat ensures multiset(s.free + s.occupied)[w] == if w < n then 1 else 0 {
        PoolHasEachOnce(n, w);
      }
    }
  }

  lemma FlaggedIsBusy(s: State, w: nat)
    requires Inv(s) && w < |s.workers| && s.workers[w].flag
    ensures w in Busy(s) || s.d == Push(w)
  {
    PoolHasEachOnce(|s.workers|, w);
    assert w in multiset(Everyone(s));
    assert w in Everyone(s);
    assert w !in s.free;
  }

  /** A worker whose flag is set is on its way to the occupied list or in it. */
  lemma FlaggedWorkerIsOccupied(n: nat, es: seq<Event>, s: State, w: nat)
    requires Run(Init(n), es, s) && w < |s.workers| && s.workers[w].flag
    ensures w in Busy(s) || s.d == Push(w)
    ensures s.d == Receive ==> w in s.occupied
  {
    ReachableInv(n, es, s);
    FlaggedIsBusy(s, w);
  }

  /**
   * The answers: at most one reply per accepted request, sent to its requester with its number plus one
   * (as a C int); and no accepted request is lost: it has been answered or a working thread still holds it.
   */
  lemma EveryRequestAnsweredOnce(n: nat, es: seq<Event>, s: State)
    requires Run(Init(n), es, s)
    ensures forall i :: 0 <= i < |s.replies| ==>
              var r := s.replies[i];
              && 0 <= r.job < |s.accepted|
              && r.client == s.accepted[r.job].client && r.info == Answer(s.accepted[r.job].info)
    ensures forall i, j :: 0 <= i < j < |s.replies| ==> s.replies[i].job != s.replies[j].job
    ensures forall j :: 0 <= j < |s.accepted| ==> JobInv(s, j)
  {
    ReachableInv(n, es, s);
    forall i | 0 <= i < |s.replies|
      ensures var r := s.replies[i];
              && 0 <= r.job < |s.accepted|
              && r.client == s.accepted[r.job].client && r.info == Answer(s.accepted[r.job].info)
              && forall j :: 0 <= j < i ==> s.replies[j].job != r.job
    {
      assert ReplyInv(s, i);
    }
  }

  /** No accepted request is lost: it has been answered, or a worker whose flag is set still holds it. */
  lemma RequestIsAnsweredOrHeld(n: nat, es: seq<Event>, s: State, j: nat)
    requires Run(Init(n), es, s) && j < |s.accepted|
    ensures || (exists i :: 0 <= i < |s.replies| && s.replies[i].job == j)
            || exists w :: 0 <= w < |s.workers| && s.workers[w].flag && s.workers[w].job == j
  {
    EveryRequestAnsweredOnce(n, es, s);
    assert JobInv(s, j);
  }

  lemma OthersLeaveBusy(s: State, e: Event, w: nat)
    requires FreeIdle(s) && DispatcherInv(s) && InPool(s) && Enabled(s, e)
    requires w < |s.workers| && s.workers[w].flag && e != Work(w)
    ensures |Step(s, e).workers| == |s.workers| && Step(s, e).workers[w] == s.workers[w]
  {
  }

  /** Whatever anyone else does, a worker whose flag is set keeps its order, address and flag. */
  lemma BusyWorkerIsUntouched(n: nat, es: seq<Event>, s: State, e: Event, w: nat)
    requires Run(Init(n), es, s) && InPool(s) && Enabled(s, e)
    requires w < |s.workers| && s.workers[w].flag && e != Work(w)
    ensures |Step(s, e).workers| == |s.workers| && Step(s, e).workers[w] == s.workers[w]
  {
    ReachableInv(n, es, s);
    OthersLeaveBusy(s, e, w);
  }

  /** A worker on the free stack has answered the last request it was given, if it was given any. */
  lemma FreeWorkerHasAnswered(n: nat, es: seq<Event>, s: State, i: nat)
    requires Run(Init(n), es, s) && i < |s.free|
    ensures s.free[i] < |s.workers|
    ensures || s.workers[s.free[i]].job == -1
            || exists k :: 0 <= k < |s.replies| && s.replies[k].job == s.workers[s.free[i]].job
  {
    ReachableInv(n, es, s);
    assert WorkerInv(s, s.free[i]);
  }

  /** The reclaim leaves the workers it saw flagged, in their order, although flags may drop while it scans. */
  lemma ReclaimKeepsOrder(n: nat, es: seq<Event>, s: State) returns (at: seq<nat>)
    requires Run(Init(n), es, s) && InPool(s) && s.d.Scan? && |s.d.flags| == |s.occupied|
    ensures |Step(s, Dispatch).occupied| == |at|
    ensures forall i :: 0 <= i < |at| ==>
              at[i] < |s.occupied| && Step(s, Dispatch).occupied[i] == s.occupied[at[i]]
    ensures forall i, j :: 0 <= i < j < |at| ==> at[i] < at[j]
    ensures forall x :: 0 <= x < |s.occupied| ==> (x in at <==> s.d.flags[x])
  {
    ReachableInv(n, es, s);
    assert s.occupied[..|s.d.flags|] == s.occupied;
    at := SeenKeepsOrder(s.occupied, s.d.flags, true);
  }

  /** Three turns of a worker that sees its flag set carry its request from the order to the reply, a fourth ends it. */
  lemma FourTurnsAnswer(s: State, w: nat)
    requires JobsInv(s) && w < |s.workers| && s.workers[w].flag && s.workers[w].pc == Poll
    ensures var s1 := WorkStep(s, w); var s2 := WorkStep(s1, w); var s3 := WorkStep(s2, w); var s4 := WorkStep(s3, w);
            && !s4.workers[w].flag && s4.workers[w].pc == Poll
            && var job := s.workers[w].job;
               0 <= job < |s.accepted|
               && s4.replies == s.replies + [Reply(job, Answer(s.accepted[job].info), s.accepted[job].client)]
  {
    assert WorkerInv(s, w);
  }
}
