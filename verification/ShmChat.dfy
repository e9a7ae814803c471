// The shared-memory chat: one message buffer, one read flag per participant, a count of readers.
// Participant 0 is the server. Each critical section between sem_wait and sem_post is one step.

module ShmChat {

  const CLIENT_MAX := 10

  type Message = string

  const JOIN: Message := "/new"

  /** A slash message other than the joining one ends the chat for everyone who reads it. */
  predicate IsQuit(m: Message) { |m| > 0 && m[0] == '/' && m != JOIN }

  lemma SlashTexts(m: Message, text: string)
    ensures m == "/" + text ==> (IsQuit(m) <==> text != "new")
    ensures m == "" || m[0] != '/' ==> !IsQuit(m)
  {
    assert JOIN == "/" + "new" && JOIN[1..] == "new";
    assert ("/" + text)[1..] == text;
  }

  datatype Option<T> = None | Some(value: T)

  // ----- counting set flags -----

  function CountSet(b: seq<bool>): (n: nat)
    ensures n <= |b|
  {
    if b == [] then 0 else CountSet(b[..|b| - 1]) + (if b[|b| - 1] then 1 else 0)
  }

  lemma {:induction false} CountAfterSet(b: seq<bool>, i: nat)
    requires i < |b| && !b[i]
    ensures CountSet(b[i := true]) == CountSet(b) + 1
  {
    var b' := b[i := true];
    if i == |b| - 1 {
      assert b'[..|b| - 1] == b[..|b| - 1];
    } else {
      CountAfterSet(b[..|b| - 1], i);
      assert b'[..|b| - 1] == b[..|b| - 1][i := true];
    }
  }

  lemma {:induction false} CountFull(b: seq<bool>)
    ensures CountSet(b) == |b| <==> (forall i :: 0 <= i < |b| ==> b[i])
    ensures CountSet(b) == 0 <==> (forall i :: 0 <= i < |b| ==> !b[i])
  {
    if b != [] {
      CountFull(b[..|b| - 1]);
      assert forall i :: 0 <= i < |b| ==> b[i] == if i < |b| - 1 then b[..|b| - 1][i] else b[|b| - 1];
    }
  }

  lemma CountExtended(b: seq<bool>, x: bool)
    ensures CountSet(b + [x]) == CountSet(b) + (if x then 1 else 0)
  {
    assert (b + [x])[..|b|] == b;
  }

  // ----- the shared segment -----

  datatype Segment = Segment(messageNew: bool, clientCount: nat, recvd: nat, status: seq<bool>, buf: Message)

  function InitSegment(): Segment {
    Segment(false, 1, 0, seq(CLIENT_MAX, _ => false), "")
  }

  datatype ServerOutcome = Idle | Took | Quit | TooMany

  /** memset(status, 0, n). */
  function Cleared(status: seq<bool>, n: nat): (r: seq<bool>)
    ensures |r| == |status|
  {
    seq(|status|, i requires 0 <= i < |status| => if i < n then false else status[i])
  }

  function ResetIfAllRead(m: Segment): Segment {
    if m.recvd == m.clientCount then
      m.(messageNew := false, status := Cleared(m.status, m.clientCount), recvd := 0)
    else m
  }

  function ServerSection(m: Segment): (Segment, ServerOutcome)
    requires |m.status| == CLIENT_MAX
  {
    if !m.status[0] && m.messageNew then
      if IsQuit(m.buf) then (m, Quit)
      else
        var m1 := if m.buf == JOIN then m.(clientCount := m.clientCount + 1) else m;
        if m.buf == JOIN && m1.clientCount > CLIENT_MAX then (m1, TooMany)
        else (ResetIfAllRead(m1.(status := m1.status[0 := true], recvd := m1.recvd + 1)), Took)
    else (ResetIfAllRead(m), Idle)
  }

  /**
   * The server's section, said of the characters in the buffer, the ten flags and the two counters: whether it takes
   * the message, leaves on it, or has no slot for the client it announces; and when it clears the barrier.
   */
  lemma ServerSectionMeans(m: Segment)
    requires |m.status| == 10
    ensures var (m', outcome) := ServerSection(m);
            && (outcome == Idle <==> m.status[0] || !m.messageNew)
            && (outcome == Quit <==>
                  !m.status[0] && m.messageNew && |m.buf| > 0 && m.buf[0] == '/' && m.buf[1..] != "new")
            && (outcome == TooMany <==> !m.status[0] && m.messageNew && m.buf == "/new" && m.clientCount >= 10)
            && (outcome == Quit ==> m' == m)
            && m'.buf == m.buf
            && m'.clientCount == m.clientCount + (if outcome in {Took, TooMany} && m.buf == "/new" then 1 else 0)
    ensures var (m', outcome) := ServerSection(m);
            var read := m.recvd + (if outcome == Took then 1 else 0);
            outcome in {Idle, Took} ==>
              && |m'.status| == 10
              && if read == m'.clientCount then
                   && !m'.messageNew && m'.recvd == 0
                   && forall i :: 0 <= i < 10 ==> m'.status[i] == (m'.clientCount <= i && m.status[i])
                 else
                   && m'.messageNew == m.messageNew && m'.recvd == read
                   && forall i :: 0 <= i < 10 ==> m'.status[i] == (m.status[i] || (outcome == Took && i == 0))
  {
    assert |m.buf| > 0 && m.buf[0] == '/' ==> m.buf == "/" + m.buf[1..];
    assert JOIN == "/" + "new";
    SlashTexts(m.buf, if m.buf == "" then "" else m.buf[1..]);
  }

  /** A new client posts its "/new" and takes the next slot; if a message is pending it is left with slot 0. */
  function JoinSection(m: Segment): (Segment, nat) {
    if !m.messageNew then (m.(messageNew := true, buf := JOIN), m.clientCount) else (m, 0)
  }

  predicate Unread(m: Segment, slot: nat)
    requires slot < |m.status|
  {
    m.messageNew && !m.status[slot]
  }

  function Posted(m: Segment, input: Option<Message>): Segment {
    if input.Some? && !m.messageNew then m.(buf := input.value, messageNew := true) else m
  }

  /** Post the typed line if the buffer is free (otherwise the line is lost), then read the buffer if it is unread. */
  function ClientSection(m: Segment, slot: nat, input: Option<Message>): (Segment, Option<Message>)
    requires slot < |m.status|
  {
    var m1 := Posted(m, input);
    if Unread(m1, slot) then
      (m1.(status := m1.status[slot := true], recvd := m1.recvd + 1), Some(m1.buf))
    else (m1, None)
  }

  /** The segment as the programs see it: fields updated in place. */
  class SharedMemory {
    var messageNew: bool
    var clientCount: nat
    var recvd: nat
    var status: array<bool>
    var buf: Message

    ghost function View(): Segment
      reads this, status
    {
      Segment(messageNew, clientCount, recvd, status[..], buf)
    }

    constructor ()
      ensures fresh(status) && View() == InitSegment()
    {
      messageNew := false;
      clientCount := 1;
      recvd := 0;
      status := new bool[CLIENT_MAX](_ => false);
      buf := "";
      new;
      assert status[..] == seq(CLIENT_MAX, _ => false);
    }

    // The loop body of shm_chat_server.
    method ServerStep() returns (outcome: ServerOutcome)
      requires status.Length == CLIENT_MAX && clientCount <= CLIENT_MAX
      modifies this, status
      ensures status == old(status)
      ensures (View(), outcome) == ServerSection(old(View()))
    {
      outcome := Idle;
      if !status[0] && messageNew {
        if |buf| > 0 && buf[0] == '/' {
          if buf[1..] == "new" {
            assert buf == [buf[0]] + buf[1..];
            clientCount := clientCount + 1;
            if clientCount > CLIENT_MAX {
              return TooMany;
            }
          } else {
            return Quit;
          }
        }
        status[0] := true;
        recvd := recvd + 1;
        outcome := Took;
      }
      ghost var before := View();
      if recvd == clientCount {
        messageNew := false;
        forall i | 0 <= i < clientCount {
          status[i] := false;
        }
        recvd := 0;
        assert status[..] == Cleared(before.status, clientCount);
      }
    }

    // The joining section of shm_chat_client.
    method Join() returns (slot: nat)
      modifies this
      ensures status == old(status)
      ensures (View(), slot) == JoinSection(old(View()))
      ensures messageNew && clientCount == old(clientCount) && recvd == old(recvd) && status[..] == old(status[..])
      ensures buf == (if old(messageNew) then old(buf) else "/new")
      ensures slot == if old(messageNew) then 0 else clientCount
    {
      slot := 0;
      if !messageNew {
        messageNew := true;
        buf := JOIN;
        slot := clientCount;
      }
    }

    // The loop body of shm_chat_client.
    method ClientStep(slot: nat, input: Option<Message>) returns (received: Option<Message>)
      requires slot < status.Length
      modifies this, status
      ensures status == old(status)
      ensures (View(), received) == ClientSection(old(View()), slot, input)
      ensures clientCount == old(clientCount) && messageNew == (old(messageNew) || input.Some?)
      ensures buf == if input.Some? && !old(messageNew) then input.value else old(buf)
      ensures received == if messageNew && !old(status[slot]) then Some(buf) else None
      ensures recvd == old(recvd) + (if received.Some? then 1 else 0)
      ensures forall i :: 0 <= i < status.Length ==> status[i] == (old(status[i]) || (received.Some? && i == slot))
    {
      received := None;
      if input.Some? {
        if !messageNew {
          buf := input.value;
          messageNew := true;
        }
      }
      if !status[slot] {
        if messageNew {
          received := Some(buf);
          status[slot] := true;
          recvd := recvd + 1;
        }
      }
    }
  }

  // ----- the whole system -----

  /** `start` is the position of the client's own "/new" in the log; `received` is what it printed. */
  datatype Client = Client(slot: nat, start: nat, received: seq<Message>, left: bool)

  /** `log` lists every message ever placed in the buffer; `serverRead` those the server acted on. */
  datatype State = State(shm: Segment, serverLeft: bool, serverRead: seq<Message>,
                         clients: seq<Client>, log: seq<Message>)

  datatype Event = ServerTurn | NewClient | ClientTurn(c: nat, input: Option<Message>)

  function Init(): State { State(InitSegment(), false, [], [], []) }

  /** What the programs can do next. A client's turn needs its slot inside the status array. */
  predicate Enabled(s: State, e: Event) {
    && |s.shm.status| == CLIENT_MAX
    && match e
       case ServerTurn => !s.serverLeft
       case NewClient => true
       case ClientTurn(c, _) => c < |s.clients| && !s.clients[c].left && s.clients[c].slot < CLIENT_MAX
  }

  /** The intended use: clients join while buffer and slot are free, and nobody types "/new" into a free buffer. */
  predicate Orderly(s: State, e: Event) {
    match e
    case ServerTurn => true
    case NewClient => !s.shm.messageNew && s.shm.clientCount < CLIENT_MAX
    case ClientTurn(_, input) => input == Some(JOIN) ==> s.shm.messageNew
  }

  function Step(s: State, e: Event): State
    requires Enabled(s, e)
  {
    match e
    case ServerTurn =>
      var (m, o) := ServerSection(s.shm);
      s.(shm := m, serverLeft := o == Quit || o == TooMany,
         serverRead := if o == Took || o == Quit then s.serverRead + [s.shm.buf] else s.serverRead)
    case NewClient =>
      var (m, slot) := JoinSection(s.shm);
      s.(shm := m, clients := s.clients + [Client(slot, |s.log|, [], false)],
         log := if s.shm.messageNew then s.log else s.log + [JOIN])
    case ClientTurn(c, input) =>
      var cl := s.clients[c];
      var (m, got) := ClientSection(s.shm, cl.slot, input);
      var cl' := if got.Some? then cl.(received := cl.received + [got.value], left := IsQuit(got.value)) else cl;
      s.(shm := m, clients := s.clients[c := cl'],
         log := if input.Some? && !s.shm.messageNew then s.log + [input.value] else s.log)
  }

  /** `t` is reached from `s` by the events `es`, all of them orderly. */
  ghost predicate Run(s: State, es: seq<Event>, t: State)
    decreases |es|
  {
    if es == [] then t == s
    else Enabled(s, es[0]) && Orderly(s, es[0]) && Run(Step(s, es[0]), es[1..], t)
  }

  // ----- the invariant -----

  /** A "/new" is in the buffer and the server has not registered its client yet. */
  predicate JoinPending(m: Segment)
    requires |m.status| > 0
  {
    m.messageNew && m.buf == JOIN && !m.status[0]
  }

  /** The participants: the server in slot 0, the k-th client in slot k + 1. */
  function Members(s: State): nat { |s.clients| + 1 }

  /** What a participant that started at `start` has read: everything since, but for an unread message in the buffer. */
  ghost predicate CaughtUp(s: State, received: seq<Message>, start: nat, slot: nat)
    requires slot < |s.shm.status|
  {
    var unread := if Unread(s.shm, slot) then 1 else 0;
    start + unread <= |s.log| && received == s.log[start..|s.log| - unread]
  }

  ghost predicate FlagsInv(s: State) {
    var m := s.shm;
    && |m.status| == CLIENT_MAX && Members(s) <= CLIENT_MAX
    && m.clientCount + (if JoinPending(m) then 1 else 0) == Members(s)
    && m.recvd == CountSet(m.status[..Members(s)])
    && (forall i :: Members(s) <= i < CLIENT_MAX ==> !m.status[i])
    && (!m.messageNew ==> forall i :: 0 <= i < CLIENT_MAX ==> !m.status[i])
  }

  ghost predicate ClientInv(s: State, k: nat)
    requires k < |s.clients| < |s.shm.status|
  {
    var c := s.clients[k];
    && c.slot == k + 1
    && c.start < |s.log| && s.log[c.start] == JOIN
    && CaughtUp(s, c.received, c.start, c.slot)
    && (c.left <==> s.shm.messageNew && IsQuit(s.shm.buf) && s.shm.status[c.slot])
  }

  ghost predicate Inv(s: State) {
    && FlagsInv(s)
    && (s.shm.messageNew ==> |s.log| > 0 && s.log[|s.log| - 1] == s.shm.buf)
    && (s.serverLeft ==> s.shm.messageNew && IsQuit(s.shm.buf))
    && (s.shm.messageNew && IsQuit(s.shm.buf) ==> !s.shm.status[0])
    && (if s.serverLeft then s.serverRead == s.log else CaughtUp(s, s.serverRead, 0, 0))
    && forall k :: 0 <= k < |s.clients| ==> ClientInv(s, k)
  }

  lemma InitInv()
    ensures Inv(Init())
  {
    var b := Init().shm.status;
    assert b[..1] == [false];
  }

  // Setting the flag of a participant that had not read yet adds one reader.
  lemma MarkCounts(s: State, slot: nat)
    requires FlagsInv(s) && slot < Members(s) && !s.shm.status[slot]
    ensures CountSet(s.shm.status[slot := true][..Members(s)]) == s.shm.recvd + 1
  {
    var n := Members(s);
    assert s.shm.status[slot := true][..n] == s.shm.status[..n][slot := true];
    CountAfterSet(s.shm.status[..n], slot);
  }

  // The reset fires exactly when every participant has read a pending message.
  lemma ResetCondition(s: State)
    requires FlagsInv(s) && !JoinPending(s.shm)
    ensures s.shm.recvd == s.shm.clientCount <==> forall i :: 0 <= i < Members(s) ==> s.shm.status[i]
    ensures !s.shm.messageNew ==> s.shm.recvd != s.shm.clientCount
  {
    var b := s.shm.status[..Members(s)];
    CountFull(b);
    assert forall i :: 0 <= i < Members(s) ==> b[i] == s.shm.status[i];
    assert !s.shm.messageNew ==> !b[0];
  }

  lemma ResetKeepsInv(s: State)
    requires Inv(s) && !JoinPending(s.shm)
    ensures Inv(s.(shm := ResetIfAllRead(s.shm)))
  {
    ResetCondition(s);
    if s.shm.recvd == s.shm.clientCount {
      var s' := s.(shm := ResetIfAllRead(s.shm));
      var b := s'.shm.status[..Members(s)];
      CountFull(b);
      forall k | 0 <= k < |s.clients| ensures ClientInv(s', k) {
        assert ClientInv(s, k);
      }
    }
  }

  /** The server's reading of an unread message, before it checks whether everybody has read. */
  function Marked(s: State): State
    requires |s.shm.status| == CLIENT_MAX
  {
    var m := s.shm;
    var m1 := if m.buf == JOIN then m.(clientCount := m.clientCount + 1) else m;
    s.(shm := m1.(status := m1.status[0 := true], recvd := m1.recvd + 1), serverRead := s.serverRead + [m.buf])
  }

  lemma MarkKeepsFlags(s: State)
    requires FlagsInv(s) && Unread(s.shm, 0)
    ensures FlagsInv(Marked(s)) && !JoinPending(Marked(s).shm) && Marked(s).shm.clientCount == Members(s)
  {
    MarkCounts(s, 0);
  }

  lemma MarkKeepsClient(s: State, k: nat)
    requires Inv(s) && Unread(s.shm, 0) && k < |s.clients|
    ensures ClientInv(Marked(s), k)
  {
    assert ClientInv(s, k);
  }

  lemma MarkKeepsInv(s: State)
    requires Inv(s) && !s.serverLeft && Unread(s.shm, 0) && !IsQuit(s.shm.buf)
    ensures Inv(Marked(s)) && !JoinPending(Marked(s).shm)
    ensures Marked(s).shm.clientCount == Members(s)
  {
    MarkKeepsFlags(s);
    forall k | 0 <= k < |s.clients| ensures ClientInv(Marked(s), k) {
      MarkKeepsClient(s, k);
    }
  }

  lemma ServerQuitKeepsInv(s: State)
    requires Inv(s) && Unread(s.shm, 0) && IsQuit(s.shm.buf) && !s.serverLeft
    ensures Inv(s.(serverLeft := true, serverRead := s.serverRead + [s.shm.buf]))
  {
    var s' := s.(serverLeft := true, serverRead := s.serverRead + [s.shm.buf]);
    forall k | 0 <= k < |s.clients| ensures ClientInv(s', k) {
      assert ClientInv(s, k);
    }
  }

  lemma ServerKeepsInv(s: State)
    requires Inv(s) && Enabled(s, ServerTurn)
    ensures Inv(Step(s, ServerTurn))
  {
    if !Unread(s.shm, 0) {
      ResetKeepsInv(s);
      assert Step(s, ServerTurn) == s.(shm := ResetIfAllRead(s.shm));
    } else if IsQuit(s.shm.buf) {
      ServerQuitKeepsInv(s);
    } else {
      MarkKeepsInv(s);
      ResetKeepsInv(Marked(s));
      assert Step(s, ServerTurn) == Marked(s).(shm := ResetIfAllRead(Marked(s).shm));
    }
  }

  lemma NewClientKeepsInv(s: State)
    requires Inv(s) && Enabled(s, NewClient) && Orderly(s, NewClient)
    ensures Inv(Step(s, NewClient))
  {
    var s' := Step(s, NewClient);
    var n := Members(s);
    assert s'.shm.status[..n + 1] == s.shm.status[..n] + [s.shm.status[n]];
    CountExtended(s.shm.status[..n], s.shm.status[n]);
    forall k | 0 <= k < |s'.clients| ensures ClientInv(s', k) {
      if k < |s.clients| {
        assert ClientInv(s, k);
      }
    }
  }

  /** The client's posting, before it reads. */
  function AfterPost(s: State, input: Option<Message>): State {
    s.(shm := Posted(s.shm, input), log := if input.Some? && !s.shm.messageNew then s.log + [input.value] else s.log)
  }

  lemma PostKeepsInv(s: State, input: Option<Message>)
    requires Inv(s) && (input == Some(JOIN) ==> s.shm.messageNew)
    ensures Inv(AfterPost(s, input))
  {
    assert s.shm.messageNew ==> AfterPost(s, input) == s;
    var s' := AfterPost(s, input);
    forall k | 0 <= k < |s.clients| ensures ClientInv(s', k) {
      assert ClientInv(s, k);
    }
  }

  lemma ReadKeepsFlags(s: State, c: nat)
    requires Inv(s) && Enabled(s, ClientTurn(c, None))
    ensures FlagsInv(Step(s, ClientTurn(c, None)))
  {
    assert ClientInv(s, c);
    if Unread(s.shm, c + 1) {
      MarkCounts(s, c + 1);
    }
  }

  lemma ReadKeepsClient(s: State, c: nat, k: nat)
    requires Inv(s) && Enabled(s, ClientTurn(c, None)) && k < |s.clients|
    ensures ClientInv(Step(s, ClientTurn(c, None)), k)
  {
    assert ClientInv(s, c) && ClientInv(s, k);
    var t, cl := Step(s, ClientTurn(c, None)), s.clients[k];
    if c == k && Unread(s.shm, c + 1) {
      assert cl.received + [s.shm.buf] == s.log[cl.start..|s.log| - 0];
    } else {
      assert t.clients[k] == cl && t.log == s.log && Unread(t.shm, cl.slot) == Unread(s.shm, cl.slot);
      assert CaughtUp(t, cl.received, cl.start, cl.slot);
    }
  }

  lemma ReadKeepsInv(s: State, c: nat)
    requires Inv(s) && Enabled(s, ClientTurn(c, None))
    ensures Inv(Step(s, ClientTurn(c, None)))
  {
    assert ClientInv(s, c);
    ReadKeepsFlags(s, c);
    forall k | 0 <= k < |s.clients| ensures ClientInv(Step(s, ClientTurn(c, None)), k) {
      ReadKeepsClient(s, c, k);
    }
  }

  lemma PostThenRead(s: State, c: nat, input: Option<Message>)
    requires Enabled(s, ClientTurn(c, input))
    ensures Step(s, ClientTurn(c, input)) == Step(AfterPost(s, input), ClientTurn(c, None))
  {
  }

  lemma ClientKeepsInv(s: State, c: nat, input: Option<Message>)
    requires Inv(s) && Enabled(s, ClientTurn(c, input)) && Orderly(s, ClientTurn(c, input))
    ensures Inv(Step(s, ClientTurn(c, input)))
  {
    PostKeepsInv(s, input);
    ReadKeepsInv(AfterPost(s, input), c);
    PostThenRead(s, c, input);
  }

  lemma StepKeepsInv(s: State, e: Event)
    requires Inv(s) && Enabled(s, e) && Orderly(s, e)
    ensures Inv(Step(s, e))
  {
    match e
    case ServerTurn => ServerKeepsInv(s);
    case NewClient => NewClientKeepsInv(s);
    case ClientTurn(c, input) => ClientKeepsInv(s, c, input);
  }

  lemma {:induction false} RunKeepsInv(s: State, es: seq<Event>, t: State)
    requires Inv(s) && Run(s, es, t)
    ensures Inv(t)
    decreases |es|
  {
    if es != [] {
      StepKeepsInv(s, es[0]);
      RunKeepsInv(Step(s, es[0]), es[1..], t);
    }
  }

  // ----- which messages end the chat -----

  /** The server leaves on a slash and any text but "new", and on no other message but a "/new" it has no slot for. */
  lemma ServerLeavesOnSlash(s: State, text: string)
    requires Enabled(s, ServerTurn) && Unread(s.shm, 0)
    ensures s.shm.buf == "/" + text && text != "new" ==> Step(s, ServerTurn).serverLeft
    ensures s.shm.buf == "" || s.shm.buf[0] != '/' ==> !Step(s, ServerTurn).serverLeft
    ensures s.shm.buf == "/" + "new" ==> (Step(s, ServerTurn).serverLeft <==> s.shm.clientCount >= 10)
  {
    SlashTexts(s.shm.buf, text);
    SlashTexts(s.shm.buf, "new");
  }

  /** A client that reads leaves exactly on a slash and any text but "new". */
  lemma ClientLeavesOnSlash(s: State, c: nat, text: string)
    requires Enabled(s, ClientTurn(c, None)) && Unread(s.shm, s.clients[c].slot)
    ensures s.shm.buf == "/" + text ==> (Step(s, ClientTurn(c, None)).clients[c].left <==> text != "new")
    ensures s.shm.buf == "" || s.shm.buf[0] != '/' ==> !Step(s, ClientTurn(c, None)).clients[c].left
  {
    SlashTexts(s.shm.buf, text);
  }

  // ----- what every run guarantees -----

  /** The server has acted on every message, except one that is in the buffer and that it has not read yet. */
  ghost predicate ServerCaughtUp(s: State)
    requires |s.shm.status| > 0
  {
    if s.serverLeft then s.serverRead == s.log else CaughtUp(s, s.serverRead, 0, 0)
  }

  /**
   * Broadcast: after any run, what the server acted on and what each client printed is one contiguous run
   * of the single log, from the participant's start to the present, lacking exactly a message in the buffer that the
   * participant has not read. A client's run starts with its own "/new".
   */
  lemma Broadcast(es: seq<Event>, s: State)
    requires Run(Init(), es, s)
    ensures |s.shm.status| == 10
    ensures var unread := if !s.serverLeft && s.shm.messageNew && !s.shm.status[0] then 1 else 0;
            unread <= |s.log| && s.serverRead == s.log[..|s.log| - unread]
    ensures forall k :: 0 <= k < |s.clients| ==>
              var c := s.clients[k];
              && c.slot < 10 && c.start < |s.log| && s.log[c.start] == "/new"
              && var unread := if s.shm.messageNew && !s.shm.status[c.slot] then 1 else 0;
                 c.start + unread <= |s.log| && c.received == s.log[c.start..|s.log| - unread]
  {
    InitInv();
    RunKeepsInv(Init(), es, s);
    assert s.log[0..|s.log|] == s.log && s.log[..|s.log|] == s.log;
    forall k | 0 <= k < |s.clients|
      ensures var c := s.clients[k];
              && c.slot < 10 && c.start < |s.log| && s.log[c.start] == "/new"
              && var unread := if s.shm.messageNew && !s.shm.status[c.slot] then 1 else 0;
                 c.start + unread <= |s.log| && c.received == s.log[c.start..|s.log| - unread]
    {
      assert ClientInv(s, k);
    }
  }

  /** The flags: the reader count is the number of set flags, nobody has a stale flag, slots are distinct. */
  lemma FlagAccounting(es: seq<Event>, s: State)
    requires Run(Init(), es, s)
    ensures |s.shm.status| == 10
    ensures var p := if s.shm.messageNew && s.shm.buf == "/new" && !s.shm.status[0] then 1 else 0;
            && s.shm.clientCount + p == |s.clients| + 1 <= 10
            && s.shm.recvd == CountSet(s.shm.status[..s.shm.clientCount + p])
    ensures !s.shm.messageNew ==> forall i :: 0 <= i < CLIENT_MAX ==> !s.shm.status[i]
    ensures forall k :: 0 <= k < |s.clients| ==> s.clients[k].slot == k + 1
  {
    InitInv();
    RunKeepsInv(Init(), es, s);
    forall k | 0 <= k < |s.clients| ensures s.clients[k].slot == k + 1 {
      assert ClientInv(s, k);
    }
  }

  /** No message is placed in the buffer before the server and every client have read all earlier ones. */
  lemma OverwriteOnlyWhenAllHaveRead(es: seq<Event>, s: State, e: Event)
    requires Run(Init(), es, s) && Enabled(s, e) && Orderly(s, e)
    ensures Step(s, e).log == s.log || |Step(s, e).log| == |s.log| + 1
    ensures Step(s, e).log != s.log ==> Step(s, e).log[..|s.log|] == s.log && s.serverRead == s.log
    ensures Step(s, e).log != s.log ==>
              forall k :: 0 <= k < |s.clients| ==>
                s.clients[k].start < |s.log| && s.clients[k].received == s.log[s.clients[k].start..]
  {
    InitInv();
    RunKeepsInv(Init(), es, s);
    forall k | 0 <= k < |s.clients| && !s.shm.messageNew
      ensures s.clients[k].start < |s.log| && s.clients[k].received == s.log[s.clients[k].start..]
    {
      assert ClientInv(s, k);
    }
  }

  /**
   * Shutdown: once a quit message is in the buffer no orderly run replaces it or clears the barrier, and in it a client
   * either prints nothing more or prints exactly that message once and leaves.
   */
  lemma {:induction false} QuitIsFinal(s: State, es: seq<Event>, t: State)
    requires Inv(s) && s.shm.messageNew && IsQuit(s.shm.buf) && Run(s, es, t)
    ensures t.shm.messageNew && t.shm.buf == s.shm.buf && t.log == s.log
    ensures |t.clients| == |s.clients|
    ensures forall k :: 0 <= k < |s.clients| ==>
              || (t.clients[k].received == s.clients[k].received && t.clients[k].left == s.clients[k].left)
              || (t.clients[k].received == s.clients[k].received + [s.shm.buf]
                  && !s.clients[k].left && t.clients[k].left)
    ensures s.serverLeft ==> t.serverLeft
    decreases |es|
  {
    if es != [] {
      var u := Step(s, es[0]);
      StepKeepsInv(s, es[0]);
      if es[0].ClientTurn? {
        assert ClientInv(s, es[0].c);
      }
      QuitIsFinal(u, es[1..], t);
      forall k | 0 <= k < |s.clients|
        ensures || (t.clients[k].received == s.clients[k].received && t.clients[k].left == s.clients[k].left)
                || (t.clients[k].received == s.clients[k].received + [s.shm.buf]
                    && !s.clients[k].left && t.clients[k].left)
      {
        assert ClientInv(s, k) && ClientInv(u, k);
      }
    }
  }

  // ----- progress -----

  /** Clients from..n-1 take an idle turn each, then the server does. */
  function Round(from: nat, n: nat): seq<Event>
    requires from <= n
    decreases n - from
  {
    if from == n then [ServerTurn] else [ClientTurn(from, None)] + Round(from + 1, n)
  }

  lemma ServerFreesBuffer(s: State)
    requires Inv(s) && s.shm.messageNew && !IsQuit(s.shm.buf)
    requires forall i :: 1 <= i < Members(s) ==> s.shm.status[i]
    ensures Enabled(s, ServerTurn)
    ensures !Step(s, ServerTurn).shm.messageNew && Step(s, ServerTurn).log == s.log
    ensures |Step(s, ServerTurn).clients| == |s.clients|
  {
    if Unread(s.shm, 0) {
      MarkKeepsInv(s);
      ResetCondition(Marked(s));
    } else {
      ResetCondition(s);
    }
  }

  lemma ReadingTurn(s: State, c: nat)
    requires Inv(s) && s.shm.messageNew && !IsQuit(s.shm.buf) && c < |s.clients|
    ensures Enabled(s, ClientTurn(c, None))
    ensures var t := Step(s, ClientTurn(c, None));
            && Inv(t) && t.shm.messageNew && t.shm.buf == s.shm.buf && t.log == s.log && |t.clients| == |s.clients|
            && t.shm.status == s.shm.status[c + 1 := true]
  {
    assert ClientInv(s, c);
    ReadKeepsInv(s, c);
  }

  /**
   * Nobody waits for ever behind an ordinary message: from any state that holds one, a single round of turns
   * delivers it to everybody still missing it and frees the buffer.
   */
  lemma {:induction false} OneRoundDelivers(s: State, from: nat) returns (t: State)
    requires Inv(s) && s.shm.messageNew && !IsQuit(s.shm.buf) && from <= |s.clients|
    requires forall i :: 1 <= i <= from ==> s.shm.status[i]
    ensures Run(s, Round(from, |s.clients|), t)
    ensures Inv(t) && !t.shm.messageNew && t.log == s.log && t.serverRead == t.log
    ensures |t.clients| == |s.clients|
    ensures forall k :: 0 <= k < |t.clients| ==>
              t.clients[k].start < |t.log| && t.clients[k].received == t.log[t.clients[k].start..]
    decreases |s.clients| - from
  {
    var n := |s.clients|;
    if from == n {
      t := Step(s, ServerTurn);
      ServerFreesBuffer(s);
      ServerKeepsInv(s);
      forall k | 0 <= k < |t.clients|
        ensures t.clients[k].start < |t.log| && t.clients[k].received == t.log[t.clients[k].start..]
      {
        assert ClientInv(t, k);
      }
      assert Round(from, n)[1..] == [];
    } else {
      ReadingTurn(s, from);
      t := OneRoundDelivers(Step(s, ClientTurn(from, None)), from + 1);
      assert Round(from, n)[0] == ClientTurn(from, None);
      assert Round(from, n)[1..] == Round(from + 1, n);
    }
  }

  /** Client c has left, or takes the turn in which it reads the quit message and leaves. */
  lemma QuitTurn(s: State, c: nat) returns (es: seq<Event>, t: State)
    requires Inv(s) && s.shm.messageNew && IsQuit(s.shm.buf) && c < |s.clients|
    ensures es == (if s.clients[c].left then [] else [ClientTurn(c, None)]) && Run(s, es, t)
    ensures Inv(t) && |t.clients| == |s.clients| && t.clients[c].left
    ensures forall k :: 0 <= k < |s.clients| && k != c ==> t.clients[k] == s.clients[k]
    ensures t.shm.messageNew && t.shm.buf == s.shm.buf && t.log == s.log && t.serverLeft == s.serverLeft
  {
    assert ClientInv(s, c);
    if s.clients[c].left {
      es, t := [], s;
    } else {
      es, t := [ClientTurn(c, None)], Step(s, ClientTurn(c, None));
      ReadKeepsInv(s, c);
      assert es[1..] == [];
    }
  }

  lemma {:induction false} RunConcat(s: State, es: seq<Event>, t: State, fs: seq<Event>, u: State)
    requires Run(s, es, t) && Run(t, fs, u)
    ensures Run(s, es + fs, u)
    decreases |es|
  {
    if es == [] {
      assert es + fs == fs;
    } else {
      var e, rest := es[0], es[1..];
      assert (es + fs)[0] == e && (es + fs)[1..] == rest + fs;
      RunConcat(Step(s, e), rest, t, fs, u);
    }
  }

  /**
   * The shutdown reaches everybody: from any state that holds a quit message, one turn each of the clients still there
   * and of the server ends with all of them gone, each having read everything up to that message.
   */
  lemma {:induction false} OneRoundQuits(s: State, from: nat) returns (es: seq<Event>, t: State)
    requires Inv(s) && s.shm.messageNew && IsQuit(s.shm.buf) && from <= |s.clients|
    requires forall k :: 0 <= k < from ==> s.clients[k].left
    ensures Run(s, es, t) && |es| <= |s.clients| - from + 1
    ensures t.log == s.log && t.serverLeft && t.serverRead == t.log
    ensures |t.clients| == |s.clients| && forall k :: 0 <= k < |t.clients| ==> t.clients[k].left
    ensures forall k :: 0 <= k < |t.clients| ==>
              t.clients[k].start < |t.log| && t.clients[k].received == t.log[t.clients[k].start..]
    decreases |s.clients| - from
  {
    if from < |s.clients| {
      var turn, u := QuitTurn(s, from);
      var rest;
      rest, t := OneRoundQuits(u, from + 1);
      RunConcat(s, turn, u, rest, t);
      es := turn + rest;
    } else {
      es := if s.serverLeft then [] else [ServerTurn];
      t := if s.serverLeft then s else Step(s, ServerTurn);
      assert es != [] ==> es[1..] == [];
      if !s.serverLeft {
        ServerKeepsInv(s);
      }
      forall k | 0 <= k < |t.clients|
        ensures t.clients[k].left
        ensures t.clients[k].start < |t.log| && t.clients[k].received == t.log[t.clients[k].start..]
      {
        assert ClientInv(s, k) && ClientInv(t, k);
      }
    }
  }

  lemma OneTurnRun(s: State, e: Event)
    requires Enabled(s, e) && Orderly(s, e)
    ensures Run(s, [e], Step(s, e))
  {
    assert [e][1..] == [];
  }

  lemma BufferIsFreed(s: State) returns (es: seq<Event>, t: State)
    requires Inv(s) && (s.shm.messageNew ==> !IsQuit(s.shm.buf))
    ensures Run(s, es, t)
    ensures Inv(t) && !t.shm.messageNew && t.log == s.log && |t.clients| == |s.clients|
  {
    if s.shm.messageNew {
      es := Round(0, |s.clients|);
      t := OneRoundDelivers(s, 0);
    } else {
      es, t := [], s;
    }
  }

  /** The chat stays open: unless a quit message is pending, a run registers the next of up to nine clients. */
  lemma NewcomerGetsIn(s: State) returns (es: seq<Event>, t: State)
    requires Inv(s) && |s.clients| < 9
    requires s.shm.messageNew && |s.shm.buf| > 0 && s.shm.buf[0] == '/' ==> s.shm.buf == "/new"
    ensures Run(s, es, t) && !t.shm.messageNew && t.log == s.log + ["/new"] && t.serverRead == t.log
    ensures |t.clients| == |s.clients| + 1 && t.clients[|s.clients|].slot == |s.clients| + 1
    ensures forall k :: 0 <= k < |t.clients| ==>
              t.clients[k].start < |t.log| && t.clients[k].received == t.log[t.clients[k].start..]
  {
    var before, u := BufferIsFreed(s);
    var v := Step(u, NewClient);
    OneTurnRun(u, NewClient);
    NewClientKeepsInv(u);
    RunConcat(s, before, u, [NewClient], v);
    t := OneRoundDelivers(v, 0);
    RunConcat(s, before + [NewClient], v, Round(0, |v.clients|), t);
    es := before + [NewClient] + Round(0, |v.clients|);
    assert ClientInv(t, |s.clients|);
  }

  /**
   * Whatever a client types next, but for "/new", a run brings to everybody, unless a quit message is pending; and it
   * ends the chat for everybody exactly when it starts with a slash.
   */
  lemma LineGetsThrough(s: State, c: nat, line: Message) returns (es: seq<Event>, t: State)
    requires Inv(s) && c < |s.clients| && line != "/new"
    requires s.shm.messageNew && |s.shm.buf| > 0 && s.shm.buf[0] == '/' ==> s.shm.buf == "/new"
    ensures Run(s, es, t) && t.log == s.log + [line] && t.serverRead == t.log
    ensures |t.clients| == |s.clients|
    ensures forall k :: 0 <= k < |t.clients| ==>
              t.clients[k].start < |t.log| && t.clients[k].received == t.log[t.clients[k].start..]
    ensures t.serverLeft <==> |line| > 0 && line[0] == '/'
    ensures forall k :: 0 <= k < |t.clients| ==> (t.clients[k].left <==> |line| > 0 && line[0] == '/')
  {
    var before, u := BufferIsFreed(s);
    assert ClientInv(u, c);
    var typed := ClientTurn(c, Some(line));
    var v := Step(u, typed);
    OneTurnRun(u, typed);
    ClientKeepsInv(u, c, Some(line));
    RunConcat(s, before, u, [typed], v);
    var rest;
    if IsQuit(line) {
      rest, t := OneRoundQuits(v, 0);
    } else {
      rest := Round(0, |v.clients|);
      t := OneRoundDelivers(v, 0);
    }
    RunConcat(s, before + [typed], v, rest, t);
    es := before + [typed] + rest;
    forall k | 0 <= k < |t.clients| ensures !IsQuit(line) ==> !t.clients[k].left {
      assert !IsQuit(line) ==> ClientInv(t, k);
    }
  }
}
