// Why the barrier of the shared-memory chat needs its sections to be atomic: two clients inside at once, each loading
// and storing the reader count in steps of its own.

module ShmChatOverlap {
  import opened ShmChat
  import opened ShmChatFaults

  /** `permits` is the semaphore; `loaded` holds the reader count a client inside has read and is about to increase. */
  datatype Fine = Fine(s: State, permits: nat, loaded: map<nat, nat>)

  /** A client's reading section in two steps: up to the load of the reader count, and from its store on. */
  datatype FineEvent = Load(c: nat) | Store(c: nat)

  predicate FineEnabled(f: Fine, e: FineEvent) {
    && |f.s.shm.status| == CLIENT_MAX && e.c < |f.s.clients|
    && match e
       case Load(c) =>
         && f.permits > 0 && c !in f.loaded
         && !f.s.clients[c].left && f.s.clients[c].slot < CLIENT_MAX && Unread(f.s.shm, f.s.clients[c].slot)
       case Store(c) => c in f.loaded && f.s.clients[c].received != []
  }

  /** A client that has read a quit message leaves with its permit. */
  function FineStep(f: Fine, e: FineEvent): Fine
    requires FineEnabled(f, e)
  {
    var s, c := f.s, e.c;
    var m, cl := s.shm, s.clients[c];
    match e
    case Load(_) =>
      Fine(s.(shm := m.(status := m.status[cl.slot := true]),
              clients := s.clients[c := cl.(received := cl.received + [m.buf])]),
           f.permits - 1, f.loaded[c := m.recvd])
    case Store(_) =>
      var leaves := IsQuit(cl.received[|cl.received| - 1]);
      Fine(s.(shm := m.(recvd := f.loaded[c] + 1), clients := s.clients[c := cl.(left := leaves)]),
           f.permits + (if leaves then 0 else 1), f.loaded - {c})
  }

  ghost predicate FineRun(f: Fine, es: seq<FineEvent>, g: Fine)
    decreases |es|
  {
    if es == [] then g == f else FineEnabled(f, es[0]) && FineRun(FineStep(f, es[0]), es[1..], g)
  }

  lemma FineCons(f: Fine, e: FineEvent, es: seq<FineEvent>, g: Fine)
    requires FineEnabled(f, e) && FineRun(FineStep(f, e), es, g)
    ensures FineRun(f, [e] + es, g)
  {
    assert ([e] + es)[1..] == es;
  }

  /** A section that nobody overlaps is the one step it is taken for elsewhere. */
  lemma AloneIsOneStep(s: State, permits: nat, c: nat)
    requires Enabled(s, ClientTurn(c, None)) && Unread(s.shm, s.clients[c].slot) && permits > 0
    ensures var f := Fine(s, permits, map[]);
            && FineEnabled(f, Load(c)) && FineEnabled(FineStep(f, Load(c)), Store(c))
            && FineStep(FineStep(f, Load(c)), Store(c)).s == Step(s, ClientTurn(c, None))
  {
    var f := Fine(s, permits, map[]);
    var g := FineStep(f, Load(c));
    assert g.s.clients[c].received[|s.clients[c].received|] == s.shm.buf;
  }

  /** What the participants share after clients c and d have both loaded and then both stored. */
  ghost predicate BothRead(s: State, t: State, c: nat, d: nat) {
    && c < |s.clients| && d < |s.clients| && c != d && s.clients[c].slot != s.clients[d].slot
    && s.clients[c].slot < |s.shm.status| && s.clients[d].slot < |s.shm.status|
    && t.shm == s.shm.(status := s.shm.status[s.clients[c].slot := true][s.clients[d].slot := true],
                       recvd := s.shm.recvd + 1)
    && t.log == s.log && t.serverLeft == s.serverLeft && t.serverRead == s.serverRead
    && |t.clients| == |s.clients|
    && forall k :: 0 <= k < |s.clients| ==>
         t.clients[k].slot == s.clients[k].slot
         && t.clients[k].left == (if k == c || k == d then IsQuit(s.shm.buf) else s.clients[k].left)
  }

  lemma LoadsThenStores(s: State, permits: nat, c: nat, d: nat) returns (es: seq<FineEvent>, g: Fine)
    requires permits >= 2 && c != d && Enabled(s, ClientTurn(c, None)) && Enabled(s, ClientTurn(d, None))
    requires Unread(s.shm, s.clients[c].slot) && Unread(s.shm, s.clients[d].slot)
    requires s.clients[c].slot != s.clients[d].slot
    ensures es == [Load(c), Load(d), Store(c), Store(d)]
    ensures FineRun(Fine(s, permits, map[]), es, g) && g.loaded == map[] && BothRead(s, g.s, c, d)
  {
    var f0 := Fine(s, permits, map[]);
    var f1 := FineStep(f0, Load(c));
    var f2 := FineStep(f1, Load(d));
    var f3 := FineStep(f2, Store(c));
    g := FineStep(f3, Store(d));
    FineCons(f3, Store(d), [], g);
    FineCons(f2, Store(c), [Store(d)] + [], g);
    FineCons(f1, Load(d), [Store(c)] + ([Store(d)] + []), g);
    FineCons(f0, Load(c), [Load(d)] + ([Store(c)] + ([Store(d)] + [])), g);
    es := [Load(c), Load(d), Store(c), Store(d)];
    assert es == [Load(c)] + ([Load(d)] + ([Store(c)] + ([Store(d)] + [])));
  }

  lemma TwoMarks(s: State, n: nat, i: nat, j: nat)
    requires |s.shm.status| == CLIENT_MAX && i < n <= CLIENT_MAX && j < n && i != j
    requires !s.shm.status[i] && !s.shm.status[j]
    ensures CountSet(s.shm.status[i := true][j := true][..n]) == CountSet(s.shm.status[..n]) + 2
  {
    MarkInUse(s.shm.status, n, i);
    MarkInUse(s.shm.status[i := true], n, j);
  }

  lemma SlotsInOrder(s: State)
    requires Inv(s)
    ensures forall k :: 0 <= k < |s.clients| ==>
              s.clients[k].slot == k + 1
              && (s.clients[k].left <==> s.shm.messageNew && IsQuit(s.shm.buf) && s.shm.status[k + 1])
  {
    forall k | 0 <= k < |s.clients|
      ensures s.clients[k].slot == k + 1
              && (s.clients[k].left <==> s.shm.messageNew && IsQuit(s.shm.buf) && s.shm.status[k + 1])
    {
      assert ClientInv(s, k);
    }
  }

  lemma OverlapJams(s: State, t: State, c: nat, d: nat)
    requires Inv(s) && s.shm.messageNew && BothRead(s, t, c, d) && !JoinPending(s.shm)
    requires !s.shm.status[c + 1] && !s.shm.status[d + 1]
    ensures Jammed(t, Members(s))
  {
    SlotsInOrder(s);
    TwoMarks(s, Members(s), c + 1, d + 1);
  }

  lemma OverlapOpens(s: State, t: State, c: nat, d: nat)
    requires Inv(s) && s.shm.messageNew && BothRead(s, t, c, d) && JoinPending(s.shm)
    requires !s.shm.status[c + 1] && !s.shm.status[d + 1]
    ensures Open(t, Members(s))
  {
    SlotsInOrder(s);
    TwoMarks(s, Members(s), c + 1, d + 1);
  }

  /**
   * In any reachable state with a message that two clients have not read and two permits to be had, the schedule in
   * which both load the reader count before either stores it loses one of them. That stops the chat for good, even if
   * every section from then on is atomic, exactly when the message is not a "/new" the server has yet to take; that
   * one a client that joins just then could read in the server's place.
   */
  lemma OverlapStopsChatExactlyWhen(es: seq<Event>, s: State, permits: nat, c: nat, d: nat)
    returns (fs: seq<FineEvent>, g: Fine)
    requires Run(Init(), es, s) && permits >= 2 && s.shm.messageNew && c < |s.clients| && d < |s.clients| && c != d
    requires c + 1 < |s.shm.status| && Unread(s.shm, c + 1) && d + 1 < |s.shm.status| && Unread(s.shm, d + 1)
    ensures fs == [Load(c), Load(d), Store(c), Store(d)] && FineRun(Fine(s, permits, map[]), fs, g)
    ensures g.s.shm.recvd == s.shm.recvd + 1
    ensures Stopped(g.s) <==> !JoinPending(s.shm)
  {
    InitInv();
    RunKeepsInv(Init(), es, s);
    SlotsInOrder(s);
    fs, g := LoadsThenStores(s, permits, c, d);
    if JoinPending(s.shm) {
      OverlapOpens(s, g.s, c, d);
      OpenIsNotStopped(g.s, Members(s));
    } else {
      OverlapJams(s, g.s, c, d);
      JammedIsStopped(g.s, Members(s));
    }
  }

  // ----- such a state is reached -----

  lemma {:induction false} Grown(k: nat) returns (es: seq<Event>, s: State)
    requires k < CLIENT_MAX
    ensures Run(Init(), es, s) && Inv(s) && |s.clients| == k && !s.shm.messageNew
  {
    if k == 0 {
      es, s := [], Init();
      InitInv();
    } else {
      var u;
      es, u := Grown(k - 1);
      var v := Step(u, NewClient);
      NewClientKeepsInv(u);
      OneTurnRun(u, NewClient);
      s := OneRoundDelivers(v, 0);
      RunConcat(u, [NewClient], v, Round(0, |v.clients|), s);
      RunConcat(Init(), es, u, [NewClient] + Round(0, |v.clients|), s);
      es := es + ([NewClient] + Round(0, |v.clients|));
    }
  }

  /**
   * Three clients have joined and the first has said "hi", which the other two have not read: with the permits that
   * four active participants leave (ShmSemaphore.PermitAccounting) they stop the chat.
   */
  lemma OverlapReached() returns (es: seq<Event>, s: State, fs: seq<FineEvent>, g: Fine)
    ensures Run(Init(), es, s) && s.shm.messageNew && s.shm.buf == "hi"
    ensures FineRun(Fine(s, 4, map[]), fs, g) && Stopped(g.s)
  {
    var u;
    es, u := Grown(3);
    SlotsInOrder(u);
    s := Step(u, ClientTurn(0, Some("hi")));
    OneTurnRun(u, ClientTurn(0, Some("hi")));
    RunConcat(Init(), es, u, [ClientTurn(0, Some("hi"))], s);
    es := es + [ClientTurn(0, Some("hi"))];
    fs, g := OverlapStopsChatExactlyWhen(es, s, 4, 1, 2);
  }
}
