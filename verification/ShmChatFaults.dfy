// What goes wrong in the shared-memory chat when a client joins, or a user types "/new", at the wrong moment.

module ShmChatFaults {
  import opened ShmChat

  // ----- a client that joins while a message is pending -----

  /** `t` is reached from `s` by any events the programs allow, orderly or not. */
  ghost predicate AnyRun(s: State, es: seq<Event>, t: State)
    decreases |es|
  {
    if es == [] then t == s else Enabled(s, es[0]) && AnyRun(Step(s, es[0]), es[1..], t)
  }

  /** How many messages of the log the server has neither acted on nor can still read. */
  function Missed(s: State): int
    requires |s.shm.status| > 0
  {
    |s.log| - |s.serverRead| - (if !s.serverLeft && Unread(s.shm, 0) then 1 else 0)
  }

  lemma MissedNeverShrinks(s: State, e: Event)
    requires Enabled(s, e)
    ensures |Step(s, e).shm.status| == CLIENT_MAX && Missed(Step(s, e)) >= Missed(s)
  {
  }

  lemma {:induction false} MissedForGood(s: State, es: seq<Event>, t: State)
    requires |s.shm.status| == CLIENT_MAX && AnyRun(s, es, t)
    ensures |t.shm.status| == CLIENT_MAX && Missed(t) >= Missed(s)
    decreases |es|
  {
    if es != [] {
      MissedNeverShrinks(s, es[0]);
      MissedForGood(Step(s, es[0]), es[1..], t);
    }
  }

  lemma InvMissesNothing(s: State)
    requires Inv(s)
    ensures Missed(s) == 0
  {
  }

  /**
   * A client that joins while the server has not read the pending message shares slot 0 with it. One turn of that
   * client and the server never acts on the message: whatever happens afterwards, its sequence stays short of the log.
   */
  lemma AliasMakesServerMiss(es: seq<Event>, s: State, fs: seq<Event>, t: State)
    requires Run(Init(), es, s) && |s.shm.status| == CLIENT_MAX && Unread(s.shm, 0) && !s.serverLeft
    ensures var s1 := Step(s, NewClient);
            && s1.clients[|s.clients|].slot == 0 && Enabled(s1, ClientTurn(|s.clients|, None))
            && (AnyRun(Step(s1, ClientTurn(|s.clients|, None)), fs, t) ==>
                  |t.shm.status| == CLIENT_MAX && Missed(t) > 0 && !ServerCaughtUp(t))
  {
    InitInv();
    RunKeepsInv(Init(), es, s);
    InvMissesNothing(s);
    var s2 := Step(Step(s, NewClient), ClientTurn(|s.clients|, None));
    if AnyRun(s2, fs, t) {
      MissedForGood(s2, fs, t);
    }
  }

  // ----- ... and after the server has read it -----

  /** The system with one more client. */
  function Plus(s: State, cl: Client): State { s.(clients := s.clients + [cl]) }

  lemma PlusStep(s: State, e: Event, cl: Client)
    requires Enabled(s, e) && (e == ServerTurn || e.ClientTurn?)
    ensures Enabled(Plus(s, cl), e) && Step(Plus(s, cl), e) == Plus(Step(s, e), cl)
    ensures Orderly(s, e) ==> Orderly(Plus(s, cl), e)
  {
  }

  lemma {:induction false} PlusRun(s: State, es: seq<Event>, t: State, cl: Client)
    requires Run(s, es, t) && forall i :: 0 <= i < |es| ==> es[i] == ServerTurn || es[i].ClientTurn?
    ensures Run(Plus(s, cl), es, Plus(t, cl))
    decreases |es|
  {
    if es != [] {
      PlusStep(s, es[0], cl);
      PlusRun(Step(s, es[0]), es[1..], t, cl);
    }
  }

  lemma {:induction false} RoundIsTurns(from: nat, n: nat)
    requires from <= n
    ensures forall i :: 0 <= i < |Round(from, n)| ==> Round(from, n)[i] == ServerTurn || Round(from, n)[i].ClientTurn?
    decreases n - from
  {
    if from < n {
      RoundIsTurns(from + 1, n);
    }
  }

  // A client in slot 0 that posts into a free buffer reads its own line before the server can.
  lemma AliasPosts(t: State, cl: Client) returns (u: State)
    requires Inv(t) && !t.shm.messageNew && cl.slot == 0 && !cl.left
    ensures Run(Plus(t, cl), [ClientTurn(|t.clients|, Some("hi"))], u)
    ensures |u.shm.status| == CLIENT_MAX && Missed(u) > 0
  {
    var e := ClientTurn(|t.clients|, Some("hi"));
    u := Step(Plus(t, cl), e);
    InvMissesNothing(t);
    assert [e][1..] == [];
  }

  lemma AliasMissesLater(s: State) returns (es: seq<Event>, t: State)
    requires Inv(s) && s.shm.messageNew && !Unread(s.shm, 0)
    ensures Run(Step(s, NewClient), es, t) && |t.shm.status| == CLIENT_MAX && Missed(t) > 0
  {
    var cl := Client(0, |s.log|, [], false);
    var u := OneRoundDelivers(s, 0);
    RoundIsTurns(0, |s.clients|);
    PlusRun(s, Round(0, |s.clients|), u, cl);
    t := AliasPosts(u, cl);
    var turn := [ClientTurn(|u.clients|, Some("hi"))];
    RunConcat(Plus(s, cl), Round(0, |s.clients|), Plus(u, cl), turn, t);
    es := Round(0, |s.clients|) + turn;
    assert Step(s, NewClient) == Plus(s, cl);
  }

  // Once the server has left nothing is posted any more, so nothing can be missed.
  lemma {:induction false} NothingAfterServerLeft(s: State, es: seq<Event>, t: State)
    requires |s.shm.status| == CLIENT_MAX && s.serverLeft && s.shm.messageNew && Run(s, es, t)
    ensures |t.shm.status| == CLIENT_MAX && Missed(t) == Missed(s)
    decreases |es|
  {
    if es != [] {
      NothingAfterServerLeft(Step(s, es[0]), es[1..], t);
    }
  }

  // An eleventh participant: the server gives up on its "/new" without acting on it.
  lemma JoinWhenFull(s: State)
    requires Inv(s) && !s.shm.messageNew && !s.serverLeft
    ensures var t := Step(Step(s, NewClient), ServerTurn);
            t.serverLeft <==> s.shm.clientCount == CLIENT_MAX
    ensures s.shm.clientCount == CLIENT_MAX ==> Missed(Step(Step(s, NewClient), ServerTurn)) > 0
  {
    InvMissesNothing(s);
  }

  /** Some orderly continuation leaves the server without a message of the log. */
  ghost predicate CanMiss(s: State) {
    exists es, t :: Run(s, es, t) && |t.shm.status| == CLIENT_MAX && Missed(t) > 0
  }

  /**
   * When a join harms the broadcast: after it some continuation makes the server miss a message exactly when a
   * message was pending and the server still there, or all ten slots were taken.
   */
  lemma JoinCanMissExactlyWhen(es: seq<Event>, s: State)
    requires Run(Init(), es, s)
    ensures |s.shm.status| == CLIENT_MAX
    ensures CanMiss(Step(s, NewClient)) <==> if s.shm.messageNew then !s.serverLeft else s.shm.clientCount == 10
  {
    InitInv();
    RunKeepsInv(Init(), es, s);
    InvMissesNothing(s);
    var s1 := Step(s, NewClient);
    if s.shm.messageNew && !s.serverLeft {
      if Unread(s.shm, 0) {
        OneTurnRun(s1, ClientTurn(|s.clients|, None));
      } else {
        var fs, t := AliasMissesLater(s);
      }
    } else if s.shm.messageNew {
      forall fs, t | Run(s1, fs, t) ensures |t.shm.status| == CLIENT_MAX && Missed(t) == 0 {
        NothingAfterServerLeft(s1, fs, t);
      }
    } else if s.shm.clientCount == CLIENT_MAX {
      JoinWhenFull(s);
      OneTurnRun(s1, ServerTurn);
    } else {
      NewClientKeepsInv(s);
      forall fs, t | Run(s1, fs, t) ensures |t.shm.status| == CLIENT_MAX && Missed(t) == 0 {
        RunKeepsInv(s1, fs, t);
        InvMissesNothing(t);
      }
    }
  }

  /** The server gives up for want of a slot exactly when a client joins after ten participants have registered. */
  lemma ServerRunsOutExactlyWhenFull(es: seq<Event>, s: State)
    requires Run(Init(), es, s)
    ensures |s.shm.status| == CLIENT_MAX && ServerSection(s.shm).1 != TooMany
    ensures !s.shm.messageNew ==>
              (ServerSection(Step(s, NewClient).shm).1 == TooMany <==> s.shm.clientCount == 10)
  {
    InitInv();
    RunKeepsInv(Init(), es, s);
  }

  // ----- runs that never free the buffer, and runs that do -----

  /** Whatever the programs do from here on, joins at any moment included, this message stays and no other is posted. */
  ghost predicate Stopped(s: State) {
    forall es, t :: AnyRun(s, es, t) ==> t.shm.messageNew && t.shm.buf == s.shm.buf && t.log == s.log
  }

  /** With n slots in use the barrier waits for more readers than there are slots that have not read. */
  ghost predicate Jammed(s: State, n: nat) {
    var m := s.shm;
    && |m.status| == CLIENT_MAX && 1 <= n <= CLIENT_MAX && m.messageNew
    && (s.serverLeft || m.clientCount + CountSet(m.status[..n]) >= m.recvd + n + 1)
    && forall k :: 0 <= k < |s.clients| ==> s.clients[k].slot < n
  }

  lemma MarkInUse(status: seq<bool>, n: nat, slot: nat)
    requires slot < n <= |status| && !status[slot]
    ensures CountSet(status[slot := true][..n]) == CountSet(status[..n]) + 1 <= n
  {
    assert status[slot := true][..n] == status[..n][slot := true];
    CountAfterSet(status[..n], slot);
  }

  lemma JamServerTurn(s: State, n: nat)
    requires Jammed(s, n) && Enabled(s, ServerTurn)
    ensures var t := Step(s, ServerTurn);
            Jammed(t, n) && t.log == s.log && t.shm.buf == s.shm.buf
  {
    if !s.shm.status[0] {
      MarkInUse(s.shm.status, n, 0);
    }
  }

  lemma JamClientTurn(s: State, n: nat, c: nat, input: Option<Message>)
    requires Jammed(s, n) && Enabled(s, ClientTurn(c, input))
    ensures var t := Step(s, ClientTurn(c, input));
            Jammed(t, n) && t.log == s.log && t.shm.buf == s.shm.buf
  {
    if !s.shm.status[s.clients[c].slot] {
      MarkInUse(s.shm.status, n, s.clients[c].slot);
    }
  }

  lemma {:induction false} JamIsForever(s: State, n: nat, es: seq<Event>, t: State)
    requires Jammed(s, n) && AnyRun(s, es, t)
    ensures t.shm.messageNew && t.shm.buf == s.shm.buf && t.log == s.log
    decreases |es|
  {
    if es == [] {
    } else {
      match es[0] {
        case ServerTurn => JamServerTurn(s, n);
        case ClientTurn(c, input) => JamClientTurn(s, n, c, input);
        case NewClient =>
      }
      JamIsForever(Step(s, es[0]), n, es[1..], t);
    }
  }

  lemma JammedIsStopped(s: State, n: nat)
    requires Jammed(s, n)
    ensures Stopped(s)
  {
    forall es, t | AnyRun(s, es, t) ensures t.shm.messageNew && t.shm.buf == s.shm.buf && t.log == s.log {
      JamIsForever(s, n, es, t);
    }
  }

  /** Each of the slots 1 to n - 1 belongs to a client, who has read if it has left; no client has any other but 0. */
  ghost predicate Manned(s: State, n: nat)
    requires |s.shm.status| == CLIENT_MAX
  {
    && 1 <= n <= CLIENT_MAX && n <= Members(s)
    && (forall c :: 0 <= c < |s.clients| ==> s.clients[c].slot < n)
    && forall c :: 0 <= c < n - 1 ==> s.clients[c].slot == c + 1 && (s.clients[c].left ==> s.shm.status[c + 1])
  }

  /**
   * The barrier waits for as many readers as there are slots that have not read, and each of those slots but the
   * server's belongs to a client that is still there.
   */
  ghost predicate Open(s: State, n: nat) {
    var m := s.shm;
    && |m.status| == CLIENT_MAX && m.messageNew && !s.serverLeft
    && Manned(s, n) && m.clientCount + CountSet(m.status[..n]) == m.recvd + n
  }

  lemma ReadingStep(s: State, c: nat)
    requires Enabled(s, ClientTurn(c, None)) && s.shm.messageNew && !s.shm.status[s.clients[c].slot]
    ensures var slot, t := s.clients[c].slot, Step(s, ClientTurn(c, None));
            && t.shm == s.shm.(status := s.shm.status[slot := true], recvd := s.shm.recvd + 1)
            && t.log == s.log && t.serverLeft == s.serverLeft && t.serverRead == s.serverRead
            && |t.clients| == |s.clients| && t.clients[c].slot == slot
            && forall k :: 0 <= k < |s.clients| && k != c ==> t.clients[k] == s.clients[k]
  {
  }

  lemma IdleStep(s: State, c: nat)
    requires Enabled(s, ClientTurn(c, None)) && s.shm.status[s.clients[c].slot]
    ensures Step(s, ClientTurn(c, None)) == s
  {
  }

  lemma OpenClientTurn(s: State, n: nat, c: nat)
    requires Open(s, n) && Enabled(s, ClientTurn(c, None))
    ensures var t := Step(s, ClientTurn(c, None));
            && Open(t, n) && t.shm.status == s.shm.status[s.clients[c].slot := true]
            && t.log == s.log && t.serverRead == s.serverRead && t.shm.buf == s.shm.buf
  {
    var slot := s.clients[c].slot;
    if s.shm.status[slot] {
      IdleStep(s, c);
      assert s.shm.status[slot := true] == s.shm.status;
    } else {
      ReadingStep(s, c);
      MarkInUse(s.shm.status, n, slot);
    }
  }

  lemma OpenServerTurn(s: State, n: nat)
    requires Open(s, n) && forall i :: 0 <= i < n ==> s.shm.status[i]
    ensures Enabled(s, ServerTurn) && !Step(s, ServerTurn).shm.messageNew && !Step(s, ServerTurn).serverLeft
  {
    CountFull(s.shm.status[..n]);
  }

  lemma AnyRunCons(s: State, e: Event, es: seq<Event>, t: State)
    requires Enabled(s, e) && AnyRun(Step(s, e), es, t)
    ensures AnyRun(s, [e] + es, t)
  {
    assert ([e] + es)[1..] == es;
  }

  // The clients whose slots are still unread take their turns, then the server resets.
  lemma {:induction false} TurnsFree(s: State, n: nat, from: nat) returns (es: seq<Event>, t: State)
    requires Open(s, n) && 1 <= from <= n && forall i :: 0 <= i < from ==> s.shm.status[i]
    ensures AnyRun(s, es, t) && !t.shm.messageNew && !t.serverLeft
    decreases n - from
  {
    if from == n {
      OpenServerTurn(s, n);
      t := Step(s, ServerTurn);
      AnyRunCons(s, ServerTurn, [], t);
      es := [ServerTurn] + [];
    } else if s.shm.status[from] {
      es, t := TurnsFree(s, n, from + 1);
    } else {
      var e := ClientTurn(from - 1, None);
      OpenClientTurn(s, n, from - 1);
      es, t := TurnsFree(Step(s, e), n, from + 1);
      AnyRunCons(s, e, es, t);
      es := [e] + es;
    }
  }

  // If the server has not read, a newcomer reads in its place.
  lemma OpenIsFreed(s: State, n: nat) returns (es: seq<Event>, t: State)
    requires Open(s, n)
    ensures AnyRun(s, es, t) && !t.shm.messageNew && !t.serverLeft
  {
    if s.shm.status[0] {
      es, t := TurnsFree(s, n, 1);
    } else {
      var s1 := Step(s, NewClient);
      var e := ClientTurn(|s.clients|, None);
      OpenClientTurn(s1, n, |s.clients|);
      es, t := TurnsFree(Step(s1, e), n, 1);
      AnyRunCons(s1, e, es, t);
      AnyRunCons(s, NewClient, [e] + es, t);
      es := [NewClient] + ([e] + es);
    }
  }

  lemma OpenIsNotStopped(s: State, n: nat)
    requires Open(s, n)
    ensures !Stopped(s)
  {
    var es, t := OpenIsFreed(s, n);
  }

  lemma {:induction false} RunIsAnyRun(s: State, es: seq<Event>, t: State)
    requires Run(s, es, t)
    ensures AnyRun(s, es, t)
    decreases |es|
  {
    if es == [] {
    } else {
      RunIsAnyRun(Step(s, es[0]), es[1..], t);
    }
  }

  // ----- a message that ends the chat -----

  lemma {:induction false} NothingMovesWithoutServer(s: State, es: seq<Event>, t: State)
    requires s.serverLeft && s.shm.messageNew && AnyRun(s, es, t)
    ensures t.shm.messageNew && t.shm.buf == s.shm.buf && t.log == s.log
    decreases |es|
  {
    if es == [] {
    } else {
      NothingMovesWithoutServer(Step(s, es[0]), es[1..], t);
    }
  }

  lemma QuitIsOpen(s: State)
    requires Inv(s) && s.shm.messageNew && IsQuit(s.shm.buf) && !s.serverLeft
    ensures Open(s, Members(s))
  {
    forall k | 0 <= k < |s.clients|
      ensures s.clients[k].slot == k + 1 && (s.clients[k].left ==> s.shm.status[k + 1])
    {
      assert ClientInv(s, k);
    }
  }

  /**
   * After an orderly run a pending message stays for good exactly when the server has left on it. Before that even a
   * quit message does not end the chat for certain: a client that joins just then reads it in the server's place, and
   * when all clients have read it too the server clears the barrier and goes on.
   */
  lemma PendingIsFinalExactlyWhenServerLeft(es: seq<Event>, s: State)
    requires Run(Init(), es, s) && s.shm.messageNew
    ensures Stopped(s) <==> s.serverLeft
  {
    InitInv();
    RunKeepsInv(Init(), es, s);
    if s.serverLeft {
      forall fs, t | AnyRun(s, fs, t) ensures t.shm.messageNew && t.shm.buf == s.shm.buf && t.log == s.log {
        NothingMovesWithoutServer(s, fs, t);
      }
    } else if IsQuit(s.shm.buf) {
      QuitIsOpen(s);
      OpenIsNotStopped(s, Members(s));
    } else {
      var t := OneRoundDelivers(s, 0);
      RunIsAnyRun(s, Round(0, |s.clients|), t);
    }
  }

  // ----- a user who types "/new" -----

  /** A line that meets a pending message is lost: the turn is as if nothing had been typed. */
  lemma LostLineChangesNothing(s: State, c: nat, line: Message)
    requires Enabled(s, ClientTurn(c, Some(line))) && s.shm.messageNew
    ensures Step(s, ClientTurn(c, Some(line))) == Step(s, ClientTurn(c, None))
  {
  }

  /** A typed "/new" is in the buffer. The server takes it by registering a client that does not exist, or gives up. */
  ghost predicate TypedPending(s: State, n: nat) {
    && s.shm.messageNew && s.shm.buf == JOIN
    && if s.serverLeft || s.serverRead == s.log then Jammed(s, n) && (s.serverLeft || s.shm.status[0])
       else Open(s, n) && s.log == s.serverRead + [JOIN]
  }

  lemma TypedIsPending(s: State, c: nat)
    requires Inv(s) && !s.shm.messageNew && Enabled(s, ClientTurn(c, Some(JOIN)))
    ensures TypedPending(Step(s, ClientTurn(c, Some(JOIN))), Members(s))
  {
    forall k | 0 <= k < |s.clients| ensures s.clients[k].slot == k + 1 && !s.clients[k].left {
      assert ClientInv(s, k);
    }
    MarkCounts(s, c + 1);
  }

  lemma TypedServerTurn(s: State, n: nat)
    requires TypedPending(s, n) && Enabled(s, ServerTurn)
    ensures var t := Step(s, ServerTurn);
            t.log == s.log && (t.shm.messageNew ==> TypedPending(t, n))
  {
    if s.serverRead == s.log {
      JamServerTurn(s, n);
    } else if !s.shm.status[0] {
      MarkInUse(s.shm.status, n, 0);
    }
  }

  lemma TypedClientTurn(s: State, n: nat, c: nat, input: Option<Message>)
    requires TypedPending(s, n) && Enabled(s, ClientTurn(c, input))
    ensures var t := Step(s, ClientTurn(c, input));
            t.log == s.log && (t.shm.messageNew ==> TypedPending(t, n))
  {
    if s.serverLeft || s.serverRead == s.log {
      JamClientTurn(s, n, c, input);
    } else {
      assert Step(s, ClientTurn(c, input)) == Step(s, ClientTurn(c, None));
      OpenClientTurn(s, n, c);
    }
  }

  lemma TypedStep(s: State, n: nat, e: Event)
    requires TypedPending(s, n) && Enabled(s, e)
    ensures Step(s, e).log == s.log && (Step(s, e).shm.messageNew ==> TypedPending(Step(s, e), n))
  {
    match e
    case ServerTurn => TypedServerTurn(s, n);
    case ClientTurn(c, input) => TypedClientTurn(s, n, c, input);
    case NewClient =>
  }

  // Once the buffer has been free a pending message is a new one.
  lemma {:induction false} PendingIsNew(s: State, es: seq<Event>, t: State)
    requires AnyRun(s, es, t)
    ensures |t.log| >= |s.log|
    ensures !s.shm.messageNew && t.shm.messageNew ==> |t.log| > |s.log|
    decreases |es|
  {
    if es == [] {
    } else {
      PendingIsNew(Step(s, es[0]), es[1..], t);
    }
  }

  lemma {:induction false} TypedStaysPending(s: State, n: nat, es: seq<Event>, t: State)
    requires TypedPending(s, n) && AnyRun(s, es, t) && t.shm.messageNew && t.log == s.log
    ensures TypedPending(t, n)
    decreases |es|
  {
    if es == [] {
    } else {
      var u := Step(s, es[0]);
      TypedStep(s, n, es[0]);
      PendingIsNew(u, es[1..], t);
      TypedStaysPending(u, n, es[1..], t);
    }
  }

  /**
   * A user types "/new" into a free buffer. As long as that line is pending, whatever has happened since, the chat is
   * stopped for good exactly when the server has taken it, or has given up on it because all ten slots are taken.
   * Until then a client that joins can read it in the server's place, and the chat goes on.
   */
  lemma TypedJoinStopsChatExactlyWhen(es: seq<Event>, s: State, c: nat, fs: seq<Event>, u: State)
    requires Run(Init(), es, s) && !s.shm.messageNew && Enabled(s, ClientTurn(c, Some(JOIN)))
    requires AnyRun(Step(s, ClientTurn(c, Some(JOIN))), fs, u)
    requires u.shm.messageNew && u.log == Step(s, ClientTurn(c, Some(JOIN))).log
    ensures Stopped(u) <==> u.serverRead == u.log || u.serverLeft
  {
    InitInv();
    RunKeepsInv(Init(), es, s);
    TypedIsPending(s, c);
    TypedStaysPending(Step(s, ClientTurn(c, Some(JOIN))), Members(s), fs, u);
    if u.serverRead == u.log || u.serverLeft {
      JammedIsStopped(u, Members(s));
    } else {
      OpenIsNotStopped(u, Members(s));
    }
  }

  // ----- the same two mistakes, seen from the invariant -----

  /** A join keeps the protocol's invariant exactly when the buffer and a slot are free. */
  lemma JoinIsSafeExactlyWhenFree(s: State)
    requires Inv(s) && Enabled(s, NewClient)
    ensures Inv(Step(s, NewClient)) <==> !s.shm.messageNew && s.shm.clientCount < 10
  {
    if Orderly(s, NewClient) {
      NewClientKeepsInv(s);
    } else if s.shm.messageNew {
      var s' := Step(s, NewClient);
      if |s'.clients| < CLIENT_MAX {
        assert !ClientInv(s', |s.clients|);
      }
    }
  }

  /** A typed line keeps it exactly when it is lost to a pending message or is not "/new". */
  lemma TypedLineIsSafeExactlyWhenNotJoin(s: State, c: nat, line: Message)
    requires Inv(s) && Enabled(s, ClientTurn(c, Some(line)))
    ensures Inv(Step(s, ClientTurn(c, Some(line)))) <==> s.shm.messageNew || line != JOIN
  {
    if !s.shm.messageNew && line == JOIN {
      assert ClientInv(s, c);
    } else {
      ClientKeepsInv(s, c, Some(line));
    }
  }

  // ----- runs that show it -----

  /** Two clients join one after the other before the server's first turn: the server misses the first "/new". */
  lemma TwoEarlyClients()
    ensures var s := Step(Init(), NewClient);
            && Run(Init(), [NewClient], s) && Enabled(s, NewClient)
            && var t := Step(Step(s, NewClient), ClientTurn(1, None));
               && |t.shm.status| == CLIENT_MAX && t.clients[1].slot == 0 && t.log == [JOIN]
               && !Unread(t.shm, 0) && t.serverRead == [] && !ServerCaughtUp(t)
  {
    OneTurnRun(Init(), NewClient);
  }

  lemma AnyRunOfThree(s: State, e: Event, f: Event, g: Event)
    requires Enabled(s, e) && Enabled(Step(s, e), f) && Enabled(Step(Step(s, e), f), g)
    ensures AnyRun(s, [e, f, g], Step(Step(Step(s, e), f), g))
  {
    var s1 := Step(s, e);
    var s2 := Step(s1, f);
    var t := Step(s2, g);
    AnyRunCons(s2, g, [], t);
    AnyRunCons(s1, f, [g] + [], t);
    AnyRunCons(s, e, [f] + ([g] + []), t);
    assert [e] + ([f] + ([g] + [])) == [e, f, g];
  }

  /** The state after a single client has joined, read its "/new" and been registered. */
  function Registered(): State {
    State(InitSegment().(clientCount := 2, buf := JOIN), false, [JOIN], [Client(1, 0, [JOIN], false)], [JOIN])
  }

  lemma RegisteredIsReached()
    ensures Run(Init(), [NewClient, ClientTurn(0, None), ServerTurn], Registered())
  {
    var s1 := Step(Init(), NewClient);
    var s2 := Step(s1, ClientTurn(0, None));
    assert Cleared(s2.shm.status[0 := true], 2) == InitSegment().status;
    assert Step(s2, ServerTurn) == Registered();
    var es := [NewClient, ClientTurn(0, None), ServerTurn];
    assert es[1..] == [ClientTurn(0, None), ServerTurn];
    assert es[1..][1..] == [ServerTurn];
    OneTurnRun(s2, ServerTurn);
    assert Run(s1, es[1..], Registered());
  }

  /** That client types "/new" and the server takes it: the chat never moves again. */
  lemma TypedJoinTaken()
    ensures var s := Registered();
            && !s.shm.messageNew && Enabled(s, ClientTurn(0, Some(JOIN)))
            && var typed := Step(s, ClientTurn(0, Some(JOIN)));
               Enabled(typed, ServerTurn) && Stopped(Step(typed, ServerTurn))
  {
    var s := Registered();
    var typed := Step(s, ClientTurn(0, Some(JOIN)));
    var u := Step(typed, ServerTurn);
    RegisteredIsReached();
    AnyRunCons(typed, ServerTurn, [], u);
    TypedJoinStopsChatExactlyWhen([NewClient, ClientTurn(0, None), ServerTurn], s, 0, [ServerTurn] + [], u);
  }

  /** A second client joins before the server's turn and reads the typed "/new" in its place: the chat goes on. */
  lemma TypedJoinAbsorbed() returns (t: State)
    ensures AnyRun(Step(Registered(), ClientTurn(0, Some(JOIN))), [NewClient, ClientTurn(1, None), ServerTurn], t)
    ensures !t.shm.messageNew && !t.serverLeft && t.shm.clientCount == 2
  {
    var s1 := Step(Step(Registered(), ClientTurn(0, Some(JOIN))), NewClient);
    t := Step(Step(s1, ClientTurn(1, None)), ServerTurn);
    AnyRunOfThree(Step(Registered(), ClientTurn(0, Some(JOIN))), NewClient, ClientTurn(1, None), ServerTurn);
  }

  /** The same with "/quit": the server neither stops nor learns of it. */
  lemma QuitAbsorbed() returns (t: State)
    ensures AnyRun(Step(Registered(), ClientTurn(0, Some("/quit"))), [NewClient, ClientTurn(1, None), ServerTurn], t)
    ensures IsQuit("/quit") && !t.shm.messageNew && !t.serverLeft && t.clients[0].left
  {
    var s1 := Step(Step(Registered(), ClientTurn(0, Some("/quit"))), NewClient);
    t := Step(Step(s1, ClientTurn(1, None)), ServerTurn);
    AnyRunOfThree(Step(Registered(), ClientTurn(0, Some("/quit"))), NewClient, ClientTurn(1, None), ServerTurn);
  }
}
