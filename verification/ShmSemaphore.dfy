// Permit accounting of the shared-memory chat's semaphore, one transition per sem_wait and sem_post as written.
// A joining client posts twice, and a participant that leaves keeps the permit it holds.

module ShmSemaphore {

  datatype ServerPhase = Waiting | Inside | Gone

  /** The places of a client: the joining section, between its two posts, then the message loop. */
  datatype ClientPhase = JoinWaiting | JoinInside | PostedOnce | LoopWaiting | LoopInside | Left

  datatype State = State(sem: nat, server: ServerPhase, clients: seq<ClientPhase>)

  datatype Event = ServerWait | ServerPost | ServerBreak
                 | Arrive | ClientWait(c: nat) | ClientPost(c: nat) | ClientBreak(c: nat)

  function Init(): State { State(1, Waiting, []) }

  predicate Enabled(s: State, e: Event) {
    match e
    case ServerWait => s.server == Waiting && s.sem > 0
    case ServerPost => s.server == Inside
    case ServerBreak => s.server == Inside
    case Arrive => true
    case ClientWait(c) => c < |s.clients| && s.clients[c] in {JoinWaiting, LoopWaiting} && s.sem > 0
    case ClientPost(c) => c < |s.clients| && s.clients[c] in {JoinInside, PostedOnce, LoopInside}
    case ClientBreak(c) => c < |s.clients| && s.clients[c] == LoopInside
  }

  function Step(s: State, e: Event): State
    requires Enabled(s, e)
  {
    match e
    case ServerWait => s.(sem := s.sem - 1, server := Inside)
    case ServerPost => s.(sem := s.sem + 1, server := Waiting)
    case ServerBreak => s.(server := Gone)
    case Arrive => s.(clients := s.clients + [JoinWaiting])
    case ClientWait(c) =>
      s.(sem := s.sem - 1,
         clients := s.clients[c := if s.clients[c] == JoinWaiting then JoinInside else LoopInside])
    case ClientPost(c) =>
      s.(sem := s.sem + 1,
         clients := s.clients[c := if s.clients[c] == JoinInside then PostedOnce else LoopWaiting])
    case ClientBreak(c) => s.(clients := s.clients[c := Left])
  }

  ghost predicate Run(s: State, es: seq<Event>, t: State)
    decreases |es|
  {
    if es == [] then t == s else Enabled(s, es[0]) && Run(Step(s, es[0]), es[1..], t)
  }

  lemma {:induction false} RunConcat(s: State, es: seq<Event>, t: State, fs: seq<Event>, u: State)
    requires Run(s, es, t) && Run(t, fs, u)
    ensures Run(s, es + fs, u)
    decreases |es|
  {
    if es == [] {
      assert es + fs == fs;
    } else {
      var e, rest := es[0], es[1..];
      assert (es + fs)[0] == e && (es + fs)[1..] == rest + fs;
      RunConcat(Step(s, e), rest, t, fs, u);
    }
  }

  lemma OneStepRun(s: State, e: Event)
    requires Enabled(s, e)
    ensures Run(s, [e], Step(s, e))
  {
    assert [e][1..] == [];
  }

  // ----- counting -----

  function Holds(p: ClientPhase): nat { if p in {JoinInside, LoopInside} then 1 else 0 }
  function Takes(p: ClientPhase): nat { if p in {LoopWaiting, LoopInside} then 1 else 0 }
  function Joining(p: ClientPhase): nat { if p == JoinInside then 1 else 0 }

  function Total(cs: seq<ClientPhase>, f: ClientPhase -> nat): nat {
    if cs == [] then 0 else f(cs[0]) + Total(cs[1..], f)
  }

  lemma {:induction false} TotalUpdate(cs: seq<ClientPhase>, i: nat, p: ClientPhase, f: ClientPhase -> nat)
    requires i < |cs|
    ensures Total(cs[i := p], f) + f(cs[i]) == Total(cs, f) + f(p)
  {
    if i > 0 {
      TotalUpdate(cs[1..], i - 1, p, f);
      assert cs[i := p][1..] == cs[1..][i - 1 := p];
    } else {
      assert cs[0 := p][1..] == cs[1..];
    }
  }

  lemma {:induction false} TotalAppend(cs: seq<ClientPhase>, p: ClientPhase, f: ClientPhase -> nat)
    ensures Total(cs + [p], f) == Total(cs, f) + f(p)
  {
    if cs == [] {
      assert ([p])[1..] == [];
    } else {
      TotalAppend(cs[1..], p, f);
      assert (cs + [p])[1..] == cs[1..] + [p];
    }
  }

  /** Participants between a sem_wait and the matching sem_post. */
  function InsideCount(s: State): nat {
    (if s.server == Inside then 1 else 0) + Total(s.clients, Holds)
  }

  /** The server until it leaves, and the clients that have joined and not left. */
  function ActiveCount(s: State): nat {
    (if s.server == Gone then 0 else 1) + Total(s.clients, Takes)
  }

  ghost predicate Accounted(s: State) { s.sem + InsideCount(s) == ActiveCount(s) }

  // A client that moves on shifts permits, holders and active clients by what the two phases count.
  lemma ClientMoveAccounts(s: State, c: nat, p: ClientPhase, sem: nat)
    requires Accounted(s) && c < |s.clients|
    requires sem + Holds(p) + Takes(s.clients[c]) == s.sem + Holds(s.clients[c]) + Takes(p)
    ensures Accounted(s.(sem := sem, clients := s.clients[c := p]))
  {
    TotalUpdate(s.clients, c, p, Holds);
    TotalUpdate(s.clients, c, p, Takes);
  }

  lemma StepAccounts(s: State, e: Event)
    requires Enabled(s, e) && Accounted(s)
    ensures Accounted(Step(s, e))
  {
    match e
    case Arrive =>
      TotalAppend(s.clients, JoinWaiting, Holds);
      TotalAppend(s.clients, JoinWaiting, Takes);
    case ClientWait(c) => ClientMoveAccounts(s, c, Step(s, e).clients[c], s.sem - 1);
    case ClientPost(c) => ClientMoveAccounts(s, c, Step(s, e).clients[c], s.sem + 1);
    case ClientBreak(c) => ClientMoveAccounts(s, c, Left, s.sem);
    case _ =>
  }

  lemma {:induction false} RunAccounts(s: State, es: seq<Event>, t: State)
    requires Accounted(s) && Run(s, es, t)
    ensures Accounted(t)
    decreases |es|
  {
    if es != [] {
      StepAccounts(s, es[0]);
      RunAccounts(Step(s, es[0]), es[1..], t);
    }
  }

  /** Permits available plus permits held equal the active participants, over every run of the code as written. */
  lemma PermitAccounting(es: seq<Event>, s: State)
    requires Run(Init(), es, s)
    ensures s.sem + InsideCount(s) == ActiveCount(s)
  {
    RunAccounts(Init(), es, s);
  }

  lemma {:induction false} SomeClientCounts(cs: seq<ClientPhase>, f: ClientPhase -> nat) returns (c: nat)
    requires Total(cs, f) > 0
    ensures c < |cs| && f(cs[c]) > 0
  {
    if f(cs[0]) > 0 {
      c := 0;
    } else {
      c := SomeClientCounts(cs[1..], f);
      c := c + 1;
    }
  }

  lemma {:induction false} WaitingExists(cs: seq<ClientPhase>) returns (c: nat)
    requires Total(cs, Joining) == 0 && Total(cs, Holds) < Total(cs, Takes)
    ensures c < |cs| && cs[c] == LoopWaiting
  {
    if cs[0] == LoopWaiting {
      c := 0;
    } else {
      c := WaitingExists(cs[1..]);
      c := c + 1;
    }
  }

  /** Somebody is inside, and whoever is can always post. */
  ghost predicate SomeoneInside(s: State) {
    s.server == Inside || exists c :: 0 <= c < |s.clients| && s.clients[c] in {JoinInside, LoopInside}
  }

  lemma InsideExists(s: State)
    requires InsideCount(s) > 0
    ensures SomeoneInside(s)
  {
    if s.server != Inside {
      var c := SomeClientCounts(s.clients, Holds);
      assert s.clients[c] in {JoinInside, LoopInside};
    }
  }

  lemma {:induction false} CountedWhenTaking(cs: seq<ClientPhase>, c: nat)
    requires c < |cs| && Takes(cs[c]) > 0
    ensures Total(cs, Takes) > 0
  {
    if c > 0 {
      CountedWhenTaking(cs[1..], c - 1);
    }
  }

  /**
   * An exit that keeps its permit strands nobody: each active participant that waits either finds a permit now or
   * waits for somebody inside, who can post.
   */
  lemma NobodyStranded(es: seq<Event>, s: State)
    requires Run(Init(), es, s)
    ensures s.server == Waiting ==> Enabled(s, ServerWait) || SomeoneInside(s)
    ensures forall c :: 0 <= c < |s.clients| && s.clients[c] == LoopWaiting ==>
              Enabled(s, ClientWait(c)) || SomeoneInside(s)
    ensures s.server == Inside ==> Enabled(s, ServerPost)
    ensures forall c :: 0 <= c < |s.clients| && s.clients[c] in {JoinInside, LoopInside} ==> Enabled(s, ClientPost(c))
  {
    PermitAccounting(es, s);
    if InsideCount(s) > 0 {
      InsideExists(s);
    }
    forall c | 0 <= c < |s.clients| && s.clients[c] == LoopWaiting
      ensures Enabled(s, ClientWait(c)) || SomeoneInside(s)
    {
      CountedWhenTaking(s.clients, c);
    }
  }

  lemma {:induction false} JoinersHold(cs: seq<ClientPhase>)
    ensures Total(cs, Joining) <= Total(cs, Holds)
  {
    if cs != [] {
      JoinersHold(cs[1..]);
    }
  }

  /** While anyone is active, some participant that has already arrived can move. */
  lemma SomeParticipantCanMove(es: seq<Event>, s: State) returns (e: Event)
    requires Run(Init(), es, s) && ActiveCount(s) > 0
    ensures e != Arrive && Enabled(s, e)
  {
    PermitAccounting(es, s);
    if s.server == Inside {
      e := ServerPost;
    } else if InsideCount(s) > 0 {
      var c := SomeClientCounts(s.clients, Holds);
      e := ClientPost(c);
    } else if s.server == Waiting {
      e := ServerWait;
    } else {
      JoinersHold(s.clients);
      var c := WaitingExists(s.clients);
      e := ClientWait(c);
    }
  }

  // With every active participant gone there is no permit, so no wait can succeed as things stand.
  lemma StrandedWhenAllGone(es: seq<Event>, s: State, c: nat)
    requires Run(Init(), es, s) && ActiveCount(s) == 0
    ensures s.sem == 0 && InsideCount(s) == 0 && !Enabled(s, ServerWait) && !Enabled(s, ClientWait(c))
  {
    PermitAccounting(es, s);
  }

  /** From any accounted state a schedule of posts and waits puts every active participant inside at once. */
  lemma {:induction false} EveryoneInside(s: State) returns (es: seq<Event>, t: State)
    requires Accounted(s)
    ensures Run(s, es, t) && ActiveCount(t) == ActiveCount(s) && InsideCount(t) == ActiveCount(t)
    decreases Total(s.clients, Joining), s.sem
  {
    var e;
    if Total(s.clients, Joining) > 0 {
      var c := SomeClientCounts(s.clients, Joining);
      e := ClientPost(c);
      TotalUpdate(s.clients, c, PostedOnce, Joining);
      TotalUpdate(s.clients, c, PostedOnce, Takes);
    } else if s.sem == 0 {
      es, t := [], s;
      return;
    } else if s.server == Waiting {
      e := ServerWait;
    } else {
      var c := WaitingExists(s.clients);
      e := ClientWait(c);
      TotalUpdate(s.clients, c, LoopInside, Joining);
      TotalUpdate(s.clients, c, LoopInside, Takes);
    }
    StepAccounts(s, e);
    var rest;
    rest, t := EveryoneInside(Step(s, e));
    es := [e] + rest;
    assert es[1..] == rest;
  }

  /** The events `es` lead the same active participants to a state with two of them inside. */
  ghost predicate Overlap(s: State, es: seq<Event>, t: State) {
    Run(s, es, t) && ActiveCount(t) == ActiveCount(s) && InsideCount(t) >= 2
  }

  /**
   * The semaphore is a lock exactly while at most one participant is active. As soon as there are two (the server
   * and one client that has joined) some schedule of the same participants has both inside at once.
   */
  lemma LockExactlyWhileAlone(es: seq<Event>, s: State)
    requires Run(Init(), es, s)
    ensures ActiveCount(s) >= 2 <==> exists fs, t :: Overlap(s, fs, t)
  {
    PermitAccounting(es, s);
    if ActiveCount(s) >= 2 {
      var fs, t := EveryoneInside(s);
      assert Overlap(s, fs, t);
    }
    forall fs, t | Overlap(s, fs, t) ensures ActiveCount(s) >= 2 {
      RunAccounts(s, fs, t);
    }
  }

  lemma ArrivesAndWaits()
    ensures Run(Init(), [Arrive, ClientWait(0)], State(0, Waiting, [JoinInside]))
  {
    assert Step(Init(), Arrive) == State(1, Waiting, [JoinWaiting]);
    assert [Arrive, ClientWait(0)][1..] == [ClientWait(0)] && [ClientWait(0)][1..] == [];
    assert Step(State(1, Waiting, [JoinWaiting]), ClientWait(0)) == State(0, Waiting, [JoinInside]);
  }

  lemma PostsTwice()
    ensures Run(State(0, Waiting, [JoinInside]), [ClientPost(0), ClientPost(0)], State(2, Waiting, [LoopWaiting]))
  {
    assert Step(State(0, Waiting, [JoinInside]), ClientPost(0)) == State(1, Waiting, [PostedOnce]);
    assert [ClientPost(0), ClientPost(0)][1..] == [ClientPost(0)] && [ClientPost(0)][1..] == [];
    assert Step(State(1, Waiting, [PostedOnce]), ClientPost(0)) == State(2, Waiting, [LoopWaiting]);
  }

  lemma BothEnter()
    ensures Run(State(2, Waiting, [LoopWaiting]), [ServerWait, ClientWait(0)], State(0, Inside, [LoopInside]))
  {
    assert Step(State(2, Waiting, [LoopWaiting]), ServerWait) == State(1, Inside, [LoopWaiting]);
    assert [ServerWait, ClientWait(0)][1..] == [ClientWait(0)] && [ClientWait(0)][1..] == [];
    assert Step(State(1, Inside, [LoopWaiting]), ClientWait(0)) == State(0, Inside, [LoopInside]);
  }

  /** A run with two inside: a client joins, posts twice, and both it and the server get a permit. */
  lemma TwoInsideAfterSixSteps() returns (es: seq<Event>, t: State)
    ensures es == [Arrive, ClientWait(0), ClientPost(0), ClientPost(0), ServerWait, ClientWait(0)]
    ensures Run(Init(), es, t) && ActiveCount(t) == 2 && InsideCount(t) == 2
  {
    var joining, joined := State(0, Waiting, [JoinInside]), State(2, Waiting, [LoopWaiting]);
    t := State(0, Inside, [LoopInside]);
    ArrivesAndWaits();
    PostsTwice();
    BothEnter();
    RunConcat(joining, [ClientPost(0), ClientPost(0)], joined, [ServerWait, ClientWait(0)], t);
    RunConcat(Init(), [Arrive, ClientWait(0)], joining,
              [ClientPost(0), ClientPost(0)] + [ServerWait, ClientWait(0)], t);
    es := [Arrive, ClientWait(0), ClientPost(0), ClientPost(0), ServerWait, ClientWait(0)];
    assert es == [Arrive, ClientWait(0)] + ([ClientPost(0), ClientPost(0)] + [ServerWait, ClientWait(0)]);
  }

  // ----- when nobody gets in any more -----

  /** Nobody is inside, now or after any later run. */
  ghost predicate NobodyGetsIn(s: State) {
    forall es, t :: Run(s, es, t) ==> InsideCount(t) == 0
  }

  /** No permit, and nobody left who could post one: the clients are newcomers that wait, or gone. */
  ghost predicate Dead(s: State) {
    && s.sem == 0 && s.server == Gone
    && forall c :: 0 <= c < |s.clients| ==> s.clients[c] in {JoinWaiting, Left}
  }

  lemma {:induction false} NoneTotal(cs: seq<ClientPhase>, f: ClientPhase -> nat)
    requires forall c :: 0 <= c < |cs| ==> f(cs[c]) == 0
    ensures Total(cs, f) == 0
  {
    if cs == [] {
    } else {
      NoneTotal(cs[1..], f);
    }
  }

  lemma {:induction false} TotalBounds(cs: seq<ClientPhase>, c: nat, f: ClientPhase -> nat)
    requires c < |cs|
    ensures f(cs[c]) <= Total(cs, f)
  {
    if c > 0 {
      TotalBounds(cs[1..], c - 1, f);
    }
  }

  lemma {:induction false} DeadStaysDead(s: State, es: seq<Event>, t: State)
    requires Dead(s) && Run(s, es, t)
    ensures Dead(t)
    decreases |es|
  {
    if es == [] {
    } else {
      DeadStaysDead(Step(s, es[0]), es[1..], t);
    }
  }

  lemma AllGoneIsDead(s: State)
    requires Accounted(s) && ActiveCount(s) == 0
    requires forall c :: 0 <= c < |s.clients| ==> s.clients[c] != PostedOnce
    ensures Dead(s)
  {
    forall c | 0 <= c < |s.clients| ensures s.clients[c] in {JoinWaiting, Left} {
      TotalBounds(s.clients, c, Takes);
      TotalBounds(s.clients, c, Holds);
    }
  }

  // A client between its two posts has its second permit to itself.
  lemma PostedOnceGetsIn(s: State, c: nat) returns (es: seq<Event>, t: State)
    requires c < |s.clients| && s.clients[c] == PostedOnce
    ensures Run(s, es, t) && InsideCount(t) > 0
  {
    var u := Step(s, ClientPost(c));
    t := Step(u, ClientWait(c));
    OneStepRun(s, ClientPost(c));
    OneStepRun(u, ClientWait(c));
    RunConcat(s, [ClientPost(c)], u, [ClientWait(c)], t);
    es := [ClientPost(c)] + [ClientWait(c)];
    TotalBounds(t.clients, c, Holds);
  }

  /**
   * From a reachable state on nobody ever gets in, newcomers included, exactly when no participant is active and no
   * client stands between its two posts.
   */
  lemma NobodyGetsInExactlyWhen(es: seq<Event>, s: State)
    requires Run(Init(), es, s)
    ensures NobodyGetsIn(s) <==>
            ActiveCount(s) == 0 && forall c :: 0 <= c < |s.clients| ==> s.clients[c] != PostedOnce
  {
    PermitAccounting(es, s);
    if ActiveCount(s) > 0 {
      var fs, t := EveryoneInside(s);
    } else if c :| 0 <= c < |s.clients| && s.clients[c] == PostedOnce {
      var fs, t := PostedOnceGetsIn(s, c);
    } else {
      AllGoneIsDead(s);
      forall fs, t | Run(s, fs, t) ensures InsideCount(t) == 0 {
        DeadStaysDead(s, fs, t);
        NoneTotal(t.clients, Holds);
      }
    }
  }

  lemma ServerLeavesOnFirstPost()
    ensures Run(State(0, Waiting, [JoinInside]), [ClientPost(0), ServerWait, ServerBreak], State(0, Gone, [PostedOnce]))
  {
    var posted := State(1, Waiting, [PostedOnce]);
    assert Step(State(0, Waiting, [JoinInside]), ClientPost(0)) == posted;
    OneStepRun(State(0, Waiting, [JoinInside]), ClientPost(0));
    OneStepRun(posted, ServerWait);
    OneStepRun(State(0, Inside, [PostedOnce]), ServerBreak);
    RunConcat(posted, [ServerWait], State(0, Inside, [PostedOnce]), [ServerBreak], State(0, Gone, [PostedOnce]));
    RunConcat(State(0, Waiting, [JoinInside]), [ClientPost(0)], posted, [ServerWait] + [ServerBreak],
              State(0, Gone, [PostedOnce]));
    assert [ClientPost(0), ServerWait, ServerBreak] == [ClientPost(0)] + ([ServerWait] + [ServerBreak]);
  }

  /** The server leaves with a client's first post: nobody is active, and yet the second post lets that client in. */
  lemma LateClientGetsIn() returns (s: State, t: State)
    ensures Run(Init(), [Arrive, ClientWait(0), ClientPost(0), ServerWait, ServerBreak], s) && ActiveCount(s) == 0
    ensures Run(s, [ClientPost(0), ClientWait(0)], t) && InsideCount(t) == 1
  {
    s, t := State(0, Gone, [PostedOnce]), State(0, Gone, [LoopInside]);
    ArrivesAndWaits();
    ServerLeavesOnFirstPost();
    RunConcat(Init(), [Arrive, ClientWait(0)], State(0, Waiting, [JoinInside]),
              [ClientPost(0), ServerWait, ServerBreak], s);
    assert [Arrive, ClientWait(0)] + [ClientPost(0), ServerWait, ServerBreak]
           == [Arrive, ClientWait(0), ClientPost(0), ServerWait, ServerBreak];
    var u := State(1, Gone, [LoopWaiting]);
    assert Step(s, ClientPost(0)) == u && Step(u, ClientWait(0)) == t;
    OneStepRun(s, ClientPost(0));
    OneStepRun(u, ClientWait(0));
    RunConcat(s, [ClientPost(0)], u, [ClientWait(0)], t);
    assert [ClientPost(0), ClientWait(0)] == [ClientPost(0)] + [ClientWait(0)];
  }
}
