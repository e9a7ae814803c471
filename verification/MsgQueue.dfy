// The message-queue chat server: a fixed ring of messages from which every new message is sent to every client.

module MsgQueue {

  datatype Message = Message(text: string, clientId: nat, id: nat)

  /** A ring cell; calloc leaves text NULL and id 0. */
  datatype Slot = Empty | Full(msg: Message)

  function SlotId(s: Slot): nat { if s.Empty? then 0 else s.msg.id }

  // ----- the ring holds the tail of the log -----

  function Wrapped(log: seq<Message>): (r: seq<Slot>)
    ensures |r| == |log|
  {
    seq(|log|, i requires 0 <= i < |log| => Full(log[i]))
  }

  /** The ring, with its next write position, holds the newest messages of the log: the current lap, then the last. */
  ghost predicate RingOf(ring: seq<Slot>, iter: nat, log: seq<Message>) {
    var lap := |log| - iter;
    && iter < |ring|
    && (lap == 0 || |ring| <= lap)
    && (forall j :: 0 <= j < iter ==> ring[j] == Full(log[lap + j]))
    && (forall j :: iter <= j < |ring| ==> ring[j] == if lap == 0 then Empty else Full(log[lap - |ring| + j]))
    && (forall k :: 0 <= k < |log| ==> log[k].id == k)
  }

  /** The position after i, wrapping around: (i + 1) % n. */
  function Next(i: nat, n: nat): nat
    requires i < n
  {
    if i + 1 == n then 0 else i + 1
  }

  lemma NextIsModulo(i: nat, n: nat)
    requires i < n
    ensures (i + 1) % n == Next(i, n)
  {
  }

  lemma AddKeepsRing(ring: seq<Slot>, iter: nat, log: seq<Message>, m: Message)
    requires RingOf(ring, iter, log) && m.id == |log|
    ensures RingOf(ring[iter := Full(m)], Next(iter, |ring|), log + [m])
  {
    var ring', iter', log' := ring[iter := Full(m)], Next(iter, |ring|), log + [m];
    assert forall j :: 0 <= j < |ring| ==>
      ring'[j] == if j <= iter then Full(log'[|log| - iter + j])
                  else if |log| == iter then Empty else Full(log'[|log| - iter - |ring| + j]);
  }

  // ----- send_updates: which messages are selected -----

  /** The first position in [lo, hi) whose id is `last`, or hi. */
  function FindId(ring: seq<Slot>, last: int, lo: nat, hi: nat): (r: nat)
    requires lo <= hi <= |ring|
    ensures lo <= r <= hi
    ensures r < hi ==> SlotId(ring[r]) == last
    ensures forall i :: lo <= i < r ==> SlotId(ring[i]) != last
    decreases hi - lo
  {
    if lo == hi || SlotId(ring[lo]) == last then lo else FindId(ring, last, lo + 1, hi)
  }

  /** Where the selection starts. */
  function StartOf(ring: seq<Slot>, iter: nat, last: int): int
    requires iter < |ring|
  {
    if ring[iter].Empty? then last + 1
    else
      var p := FindId(ring, last, iter, |ring|);
      if p < |ring| then Next(p, |ring|)
      else
        var q := FindId(ring, last, 0, iter);
        if q < iter then Next(q, |ring|) else 0
  }

  /** The messages from position `start` up to the write position, around the ring if need be. */
  function SelectedFrom(ring: seq<Slot>, iter: nat, start: nat): seq<Slot>
    requires iter < |ring| && start < |ring|
  {
    if start < iter then ring[start..iter] else ring[start..] + ring[..iter]
  }

  function Selected(ring: seq<Slot>, iter: nat, last: int): seq<Slot>
    requires iter < |ring| && 0 <= StartOf(ring, iter, last) < |ring|
  {
    SelectedFrom(ring, iter, StartOf(ring, iter, last))
  }

  /** The lags for which the ring still tells what is new: `lag` messages were added since the last update. */
  predicate Recoverable(size: nat, iter: nat, lag: int) {
    1 <= lag < size || (lag == size && iter == 0)
  }

  // In a full ring position j holds the message with this id.
  function IdAt(iter: int, n: int, total: int, j: int): int {
    if j < iter then total - iter + j else total - iter - n + j
  }

  lemma FullRingIds(ring: seq<Slot>, iter: nat, log: seq<Message>, j: nat)
    requires RingOf(ring, iter, log) && ring[iter].Full? && j < |ring|
    ensures |log| >= iter + |ring|
    ensures SlotId(ring[j]) == IdAt(iter, |ring|, |log|, j)
    ensures 0 <= IdAt(iter, |ring|, |log|, j) < |log| && ring[j] == Full(log[IdAt(iter, |ring|, |log|, j)])
  {
  }

  // In a full ring the last update is found exactly when it has not been overwritten.
  lemma StartInFullRing(ring: seq<Slot>, iter: nat, log: seq<Message>, last: int)
    requires RingOf(ring, iter, log) && ring[iter].Full? && -1 <= last < |log|
    ensures StartOf(ring, iter, last) ==
            if last < |log| - |ring| then 0
            else if last >= |log| - iter then Next(last - (|log| - iter), |ring|)
            else Next(last - (|log| - iter) + |ring|, |ring|)
  {
    forall j | 0 <= j < |ring| ensures SlotId(ring[j]) == IdAt(iter, |ring|, |log|, j) {
      FullRingIds(ring, iter, log, j);
    }
    FullRingIds(ring, iter, log, iter);
    var p := FindId(ring, last, iter, |ring|);
    if |log| - |ring| <= last < |log| - iter {
      assert SlotId(ring[last - (|log| - iter) + |ring|]) == last;
    } else if last >= |log| - iter {
      assert SlotId(ring[last - (|log| - iter)]) == last;
    }
  }

  // A stretch of a full ring that does not cross the write position is a stretch of the log.
  lemma FullRingSpan(ring: seq<Slot>, iter: nat, log: seq<Message>, i: nat, j: nat, from: nat)
    requires RingOf(ring, iter, log) && ring[iter].Full? && i < j <= |ring| && (j <= iter || iter <= i)
    requires from == IdAt(iter, |ring|, |log|, i)
    ensures from + j - i <= |log| && ring[i..j] == Wrapped(log[from..from + j - i])
  {
    FullRingIds(ring, iter, log, j - 1);
    forall k | i <= k < j ensures ring[k] == Full(log[from + k - i]) {
      FullRingIds(ring, iter, log, k);
    }
  }

  lemma WrappedConcat(log: seq<Message>, a: nat, b: nat)
    requires a <= b <= |log|
    ensures Wrapped(log[a..b]) + Wrapped(log[b..]) == Wrapped(log[a..])
  {
  }

  // In a full ring the selection starts at the message after the last update.
  lemma StartIsNextMessage(ring: seq<Slot>, iter: nat, log: seq<Message>, last: int) returns (start: nat)
    requires RingOf(ring, iter, log) && ring[iter].Full? && -1 <= last < |log|
    requires Recoverable(|ring|, iter, |log| - 1 - last)
    ensures start == StartOf(ring, iter, last) < |ring| && iter < |ring| <= |log|
    ensures IdAt(iter, |ring|, |log|, start) == last + 1
    ensures start >= iter ==> |log| - last - 1 == |ring| - start + iter
  {
    FullRingIds(ring, iter, log, iter);
    StartInFullRing(ring, iter, log, last);
    start := StartOf(ring, iter, last);
  }

  lemma SpanToWritePosition(ring: seq<Slot>, iter: nat, log: seq<Message>, i: nat, from: nat)
    requires RingOf(ring, iter, log) && ring[iter].Full? && i <= iter && iter <= |log| && from == |log| - iter + i
    ensures ring[i..iter] == Wrapped(log[from..])
  {
    if i < iter {
      FullRingSpan(ring, iter, log, i, iter, from);
      assert log[from..from + iter - i] == log[from..];
    }
  }

  lemma SelectedFromSpans(ring: seq<Slot>, iter: nat, log: seq<Message>, start: nat, next: nat, lap: nat)
    requires iter < |ring| && start < |ring| && next <= |log| && lap <= |log|
    requires start < iter ==> ring[start..iter] == Wrapped(log[next..])
    requires start >= iter ==>
               next <= lap && ring[start..] == Wrapped(log[next..lap]) && ring[0..iter] == Wrapped(log[lap..])
    ensures SelectedFrom(ring, iter, start) == Wrapped(log[next..])
  {
    if start >= iter {
      assert ring[0..iter] == ring[..iter];
      WrappedConcat(log, next, lap);
    }
  }

  lemma SpanToEnd(ring: seq<Slot>, iter: nat, log: seq<Message>, i: nat, from: nat, to: nat)
    requires RingOf(ring, iter, log) && ring[iter].Full? && iter <= i < |ring|
    requires from == IdAt(iter, |ring|, |log|, i) && to == from + |ring| - i
    ensures to <= |log| && ring[i..] == Wrapped(log[from..to])
  {
    FullRingSpan(ring, iter, log, i, |ring|, from);
    assert ring[i..|ring|] == ring[i..];
  }

  lemma RecoverableInFullRing(ring: seq<Slot>, iter: nat, log: seq<Message>, last: int)
    requires RingOf(ring, iter, log) && ring[iter].Full? && -1 <= last < |log|
    requires Recoverable(|ring|, iter, |log| - 1 - last)
    ensures 0 <= StartOf(ring, iter, last) < |ring|
    ensures Selected(ring, iter, last) == Wrapped(log[last + 1..])
  {
    var start := StartIsNextMessage(ring, iter, log, last);
    var lap := |log| - iter;
    if start < iter {
      SpanToWritePosition(ring, iter, log, start, last + 1);
    } else {
      SpanToEnd(ring, iter, log, start, last + 1, lap);
      SpanToWritePosition(ring, iter, log, 0, lap);
    }
    SelectedFromSpans(ring, iter, log, start, last + 1, lap);
  }

  lemma RecoverableInFreshRing(ring: seq<Slot>, iter: nat, log: seq<Message>, last: int)
    requires RingOf(ring, iter, log) && ring[iter].Empty? && -1 <= last < |log|
    requires Recoverable(|ring|, iter, |log| - 1 - last)
    ensures 0 <= StartOf(ring, iter, last) < |ring|
    ensures Selected(ring, iter, last) == Wrapped(log[last + 1..])
  {
  }

  lemma OtherLagsSelectWrongly(ring: seq<Slot>, iter: nat, log: seq<Message>, last: int)
    requires RingOf(ring, iter, log) && -1 <= last < |log|
    requires !Recoverable(|ring|, iter, |log| - 1 - last)
    ensures 0 <= StartOf(ring, iter, last) < |ring|
    ensures |Selected(ring, iter, last)| != |log| - 1 - last
  {
    if ring[iter].Full? {
      FullRingIds(ring, iter, log, iter);
      StartInFullRing(ring, iter, log, last);
    }
  }

  /**
   * For every ring, wrapped or not, and every last update: send_updates selects exactly the messages after it, in
   * order, if and only if the lag is between 1 and size - 1, or is the whole ring with the write position at 0.
   */
  lemma SelectionIsExactWhenRecoverable(ring: seq<Slot>, iter: nat, log: seq<Message>, last: int)
    requires RingOf(ring, iter, log) && -1 <= last < |log|
    ensures 0 <= StartOf(ring, iter, last) < |ring|
    ensures Selected(ring, iter, last) == Wrapped(log[last + 1..]) <==> Recoverable(|ring|, iter, |log| - 1 - last)
  {
    if Recoverable(|ring|, iter, |log| - 1 - last) {
      if ring[iter].Full? {
        RecoverableInFullRing(ring, iter, log, last);
      } else {
        RecoverableInFreshRing(ring, iter, log, last);
      }
    } else {
      OtherLagsSelectWrongly(ring, iter, log, last);
    }
  }

  // The dispatch loop calls send_updates after every message, so the server itself only ever has a lag of one.

  /** A ring of two with the write position at 1, and both its messages new: the older one is not selected. */
  lemma FullLagLosesMessages(ms: seq<Message>)
    requires |ms| == 3 && forall i :: 0 <= i < 3 ==> ms[i].id == i
    ensures var ring := [Full(ms[2]), Full(ms[1])];
            && RingOf(ring, 1, ms) && StartOf(ring, 1, 0) == 0
            && Selected(ring, 1, 0) == [Full(ms[2])] && Wrapped(ms[1..]) == [Full(ms[1]), Full(ms[2])]
  {
  }

  /** A ring of two with nothing new: both its messages are selected again. */
  lemma NoLagRepeatsRing(ms: seq<Message>)
    requires |ms| == 2 && forall i :: 0 <= i < 2 ==> ms[i].id == i
    ensures var ring := Wrapped(ms);
            RingOf(ring, 0, ms) && StartOf(ring, 0, 1) == 0 && Selected(ring, 0, 1) == ring && ms[2..] == []
  {
  }

  // ----- the server -----

  datatype Option<T> = None | Some(value: T)

  datatype ClientRec = ClientRec(id: nat, username: string)

  const CLIENTS_ALLOCATED := 10

  function Texts(ms: seq<Message>): (r: seq<string>)
    ensures |r| == |ms|
  {
    seq(|ms|, i requires 0 <= i < |ms| => ms[i].text)
  }

  lemma TextsAppend(ms: seq<Message>, m: Message, from: nat)
    requires from <= |ms|
    ensures Texts((ms + [m])[from..]) == Texts(ms[from..]) + Texts((ms + [m])[|ms|..])
  {
  }

  // Everyone is sent the new message, so everyone's history again reaches the end of the log.
  lemma HistoriesGrow(ms: seq<Message>, m: Message, joined: seq<nat>, before: seq<seq<string>>,
                      after: seq<seq<string>>)
    requires |joined| == |before| == |after|
    requires forall c :: 0 <= c < |joined| ==> joined[c] <= |ms| && before[c] == Texts(ms[joined[c]..])
    requires forall c :: 0 <= c < |joined| ==> after[c] == before[c] + Texts((ms + [m])[|ms|..])
    ensures forall c :: 0 <= c < |joined| ==> after[c] == Texts((ms + [m])[joined[c]..])
  {
    forall c | 0 <= c < |joined| ensures after[c] == Texts((ms + [m])[joined[c]..]) {
      TextsAppend(ms, m, joined[c]);
    }
  }

  lemma TextsDrop(ms: seq<Message>, from: nat)
    requires from <= |ms|
    ensures Texts(ms[from..]) == Texts(ms)[from..]
  {
  }

  /** strncpy into 100 bytes with a terminator in the last one. */
  function Truncated(name: string): string { if |name| > 99 then name[..99] else name }

  /** The sender's name: the text before the first colon. */
  function NameOf(text: string): string {
    if text == "" || text[0] == ':' then "" else [text[0]] + NameOf(text[1..])
  }

  lemma {:induction false} NameIsUpToColon(text: string)
    requires ':' in text
    ensures ':' !in NameOf(text) && NameOf(text) + ":" <= text
  {
    if text[0] != ':' {
      NameIsUpToColon(text[1..]);
    }
  }

  // ----- the packets of a whole run -----

  datatype Event = Connection(name: string) | Text(text: string) | Shutdown

  /** The packets handled before the first shutdown request. */
  function Live(events: seq<Event>): seq<Event> {
    if events == [] || events[0] == Shutdown then [] else [events[0]] + Live(events[1..])
  }

  function Received(events: seq<Event>): seq<string> {
    if events == [] then []
    else Received(events[..|events| - 1]) +
         match events[|events| - 1] case Text(text) => [text] case _ => []
  }

  /** For each connection, in order, the number of messages received before it. */
  function JoinTimes(events: seq<Event>): seq<nat> {
    if events == [] then []
    else JoinTimes(events[..|events| - 1]) +
         match events[|events| - 1] case Connection(_) => [|Received(events[..|events| - 1])|] case _ => []
  }

  function Usernames(events: seq<Event>): seq<string> {
    if events == [] then []
    else Usernames(events[..|events| - 1]) +
         match events[|events| - 1] case Connection(name) => [Truncated(name)] case _ => []
  }

  function Names(clients: seq<ClientRec>): (r: seq<string>)
    ensures |r| == |clients|
  {
    seq(|clients|, i requires 0 <= i < |clients| => clients[i].username)
  }

  /** After `past`, a text comes from a connected user and a connection finds room in the client table. */
  ghost predicate CanServe(past: seq<Event>, event: Event) {
    match event
    case Connection(_) => |Usernames(past)| < CLIENTS_ALLOCATED
    case Text(text) => ':' in text && exists u :: 0 <= u < |Usernames(past)| && Usernames(past)[u] == NameOf(text)
    case Shutdown => true
  }

  ghost predicate Serveable(events: seq<Event>) {
    var live := Live(events);
    forall i :: 0 <= i < |live| ==> CanServe(live[..i], live[i])
  }

  lemma {:induction false} LiveStep(events: seq<Event>, i: nat)
    requires i < |events| && i <= |Live(events)| && events[i] != Shutdown
    ensures i < |Live(events)| && Live(events)[i] == events[i]
  {
    if i > 0 {
      LiveStep(events[1..], i - 1);
    }
  }

  lemma {:induction false} LiveEnd(events: seq<Event>, i: nat)
    requires i <= |Live(events)| && i <= |events| && (i == |events| || events[i] == Shutdown)
    ensures i == |Live(events)|
  {
    if i > 0 {
      LiveEnd(events[1..], i - 1);
    }
  }

  // ----- what they say of the packets themselves -----

  lemma {:induction false} LiveIsUpToShutdown(events: seq<Event>, end: nat)
    requires end <= |events| && (end == |events| || events[end] == Shutdown)
    requires forall q :: 0 <= q < end ==> events[q] != Shutdown
    ensures Live(events) == events[..end]
  {
    if end == 0 {
    } else {
      LiveIsUpToShutdown(events[1..], end - 1);
      assert events[..end] == [events[0]] + events[1..][..end - 1];
    }
  }

  lemma OneMore(live: seq<Event>, k: nat)
    requires k < |live|
    ensures live[..k + 1] != [] && live[..k + 1][..k] == live[..k] && live[..k + 1][k] == live[k]
  {
  }

  lemma {:induction false} ReceivedGrows(live: seq<Event>, k: nat, n: nat)
    requires k <= n <= |live|
    ensures Received(live[..k]) <= Received(live[..n]) && JoinTimes(live[..k]) <= JoinTimes(live[..n])
  {
    if k < n {
      ReceivedGrows(live, k, n - 1);
      OneMore(live, n - 1);
    }
  }

  // The messages received after the first p packets are those of the text packets, in order.
  lemma {:induction false} TextPositions(live: seq<Event>, p: nat, n: nat) returns (at: seq<nat>)
    requires p <= n <= |live|
    ensures |Received(live[..n])| == |Received(live[..p])| + |at|
    ensures forall i :: 0 <= i < |at| ==>
              && p <= at[i] < n && live[at[i]].Text?
              && Received(live[..n])[|Received(live[..p])| + i] == live[at[i]].text
    ensures forall i, j :: 0 <= i < j < |at| ==> at[i] < at[j]
    ensures forall q :: p <= q < n && live[q].Text? ==> q in at
  {
    if p == n {
      at := [];
    } else {
      at := TextPositions(live, p, n - 1);
      OneMore(live, n - 1);
      if live[n - 1].Text? {
        at := at + [n - 1];
      }
    }
  }

  lemma {:induction false} JoinsCounted(live: seq<Event>, n: nat)
    requires n <= |live|
    ensures |JoinTimes(live[..n])| == |Usernames(live[..n])| == |set q | 0 <= q < n && live[q].Connection?|
  {
    if n == 0 {
    } else {
      JoinsCounted(live, n - 1);
      OneMore(live, n - 1);
      var before := set q | 0 <= q < n - 1 && live[q].Connection?;
      var all := set q | 0 <= q < n && live[q].Connection?;
      assert all == if live[n - 1].Connection? then before + {n - 1} else before;
    }
  }

  lemma JoinTimeOf(live: seq<Event>, p: nat)
    requires p < |live| && live[p].Connection?
    ensures |JoinTimes(live[..p])| < |JoinTimes(live)|
    ensures JoinTimes(live)[|JoinTimes(live[..p])|] == |Received(live[..p])| == |Received(live[..p + 1])|
    ensures |Received(live[..p])| <= |Received(live)|
  {
    OneMore(live, p);
    ReceivedGrows(live, p + 1, |live|);
    assert live[..|live|] == live;
  }

  lemma HistoryInLive(live: seq<Event>, p: nat) returns (c: nat, at: seq<nat>)
    requires p < |live| && live[p].Connection?
    ensures c == |JoinTimes(live[..p])| < |JoinTimes(live)| && JoinTimes(live)[c] <= |Received(live)|
    ensures |Received(live)| == JoinTimes(live)[c] + |at|
    ensures forall i :: 0 <= i < |at| ==>
              p < at[i] < |live| && live[at[i]].Text? && Received(live)[JoinTimes(live)[c] + i] == live[at[i]].text
    ensures forall i, j :: 0 <= i < j < |at| ==> at[i] < at[j]
    ensures forall q :: p < q < |live| && live[q].Text? ==> q in at
  {
    c := |JoinTimes(live[..p])|;
    JoinTimeOf(live, p);
    assert live[..|live|] == live;
    at := TextPositions(live, p + 1, |live|);
  }

  lemma JoinsBefore(events: seq<Event>, end: nat, p: nat)
    requires p <= end <= |events|
    ensures |JoinTimes(events[..end][..p])| == |set q | 0 <= q < p && events[q].Connection?|
  {
    var live := events[..end];
    JoinsCounted(live, p);
    assert (set q | 0 <= q < p && live[q].Connection?) == set q | 0 <= q < p && events[q].Connection?;
  }

  /**
   * What Serve promises, said of the packets: the history of the client of packet p consists of the texts of exactly
   * the text packets after p, in order, up to the first shutdown request. That client is number c, where c connections
   * came before.
   */
  lemma HistoryIsLaterTexts(events: seq<Event>, end: nat, p: nat) returns (c: nat, at: seq<nat>)
    requires end <= |events| && (end == |events| || events[end] == Shutdown)
    requires forall q :: 0 <= q < end ==> events[q] != Shutdown
    requires p < end && events[p].Connection?
    ensures c == |set q | 0 <= q < p && events[q].Connection?| < |JoinTimes(Live(events))|
    ensures JoinTimes(Live(events))[c] <= |Received(Live(events))|
    ensures var history := Received(Live(events))[JoinTimes(Live(events))[c]..];
            && |history| == |at|
            && (forall i :: 0 <= i < |at| ==>
                  p < at[i] < end && events[at[i]].Text? && history[i] == events[at[i]].text)
            && (forall i, j :: 0 <= i < j < |at| ==> at[i] < at[j])
            && (forall q :: p < q < end && events[q].Text? ==> q in at)
  {
    LiveIsUpToShutdown(events, end);
    JoinsBefore(events, end, p);
    c, at := HistoryInLive(events[..end], p);
  }

  lemma {:induction false} ConnectedName(live: seq<Event>, p: nat, n: nat) returns (u: nat)
    requires p < n <= |live| && live[p].Connection?
    ensures u < |Usernames(live[..n])|
    ensures Usernames(live[..n])[u] == if |live[p].name| <= 99 then live[p].name else live[p].name[..99]
    decreases n
  {
    OneMore(live, n - 1);
    if p == n - 1 {
      u := |Usernames(live[..n - 1])|;
    } else {
      u := ConnectedName(live, p, n - 1);
    }
  }

  lemma NoLongerThan(text: string, u: string, v: string)
    requires ':' !in v && u + ":" <= text && v + ":" <= text
    ensures |v| <= |u|
  {
    assert text[|u|] == (u + ":")[|u|] == ':';
    assert forall i :: 0 <= i < |v| ==> text[i] == (v + ":")[i] == v[i];
  }

  lemma PrefixUpToColon(text: string, u: string, v: string)
    requires ':' !in u && ':' !in v && u + ":" <= text && v + ":" <= text
    ensures u == v
  {
    NoLongerThan(text, u, v);
    NoLongerThan(text, v, u);
    assert forall i :: 0 <= i < |u| ==> u[i] == (u + ":")[i] == text[i] && v[i] == (v + ":")[i] == text[i];
  }

  lemma FewerBefore(before: set<int>, all: set<int>, i: int)
    requires i !in before && before + {i} <= all
    ensures |before| < |all|
  {
    var rest := all - (before + {i});
    assert all == before + {i} + rest;
  }

  /** A text packet from the client of this connection. */
  predicate SentBy(text: Event, connection: Event) {
    && text.Text? && connection.Connection?
    && var name := if |connection.name| <= 99 then connection.name else connection.name[..99];
       ':' !in name && ':' in text.text && name + ":" <= text.text
  }

  /**
   * What Serve asks for, said of the packets: at most ten connections, and every text starts with the name, up to its
   * 99th character, of somebody connected before, and a colon.
   */
  lemma ServeableWhen(events: seq<Event>)
    requires forall q :: 0 <= q < |events| ==> events[q] != Shutdown
    requires |set q | 0 <= q < |events| && events[q].Connection?| <= 10
    requires forall q :: 0 <= q < |events| && events[q].Text? ==>
               exists p :: 0 <= p < q && SentBy(events[q], events[p])
    ensures Serveable(events)
  {
    LiveIsUpToShutdown(events, |events|);
    assert events[..|events|] == events;
    forall i | 0 <= i < |events| ensures CanServe(events[..i], events[i]) {
      if events[i].Connection? {
        JoinsCounted(events, i);
        var before := set q | 0 <= q < i && events[q].Connection?;
        var all := set q | 0 <= q < |events| && events[q].Connection?;
        assert before + {i} <= all;
        FewerBefore(before, all, i);
      } else {
        var p :| 0 <= p < i && SentBy(events[i], events[p]);
        var u := ConnectedName(events, p, i);
        NameIsUpToColon(events[i].text);
        PrefixUpToColon(events[i].text, NameOf(events[i].text), Usernames(events[..i])[u]);
      }
    }
  }

  // ----- the server's state -----

  class ChatServer {
    var ring: array<Slot>
    var iter: nat
    var clients: seq<ClientRec>
    var messageCount: nat
    var lastUpdate: int
    // What has been sent to each client's queue.
    var outbox: seq<seq<string>>
    // Every message ever received, and how many there were when each client joined.
    ghost var log: seq<Message>
    ghost var joined: seq<nat>

    ghost predicate Valid()
      reads this, ring
    {
      && RingOf(ring[..], iter, log)
      && messageCount == |log| && lastUpdate == |log| - 1
      && |outbox| == |clients| == |joined|
      && forall c :: 0 <= c < |clients| ==>
           clients[c].id == c && joined[c] <= |log| && outbox[c] == Texts(log[joined[c]..])
    }

    constructor (size: nat)
      requires size > 0
      ensures Valid() && fresh(ring) && ring.Length == size && log == [] && clients == []
    {
      ring := new Slot[size](_ => Empty);
      iter, messageCount, lastUpdate := 0, 0, -1;
      clients, outbox, log, joined := [], [], [], [];
    }

    // add_message
    method AddMessage(text: string, client: ClientRec, messageId: nat)
      requires RingOf(ring[..], iter, log) && messageId == |log|
      modifies this`iter, this`log, ring
      ensures log == old(log) + [Message(text, client.id, messageId)]
      ensures RingOf(ring[..], iter, log)
    {
      var m := Message(text, client.id, messageId);
      AddKeepsRing(ring[..], iter, log, m);
      ghost var before := ring[..];
      ring[iter] := Full(m);
      assert ring[..] == before[iter := Full(m)];
      NextIsModulo(iter, ring.Length);
      iter := (iter + 1) % ring.Length;
      log := log + [m];
    }

    // find_user_by_name
    method FindUserByName(name: string) returns (r: Option<nat>)
      ensures r.Some? ==>
                && r.value < |clients| && clients[r.value].username == name
                && forall j :: 0 <= j < r.value ==> clients[j].username != name
      ensures r.None? ==> forall j :: 0 <= j < |clients| ==> clients[j].username != name
    {
      for i := 0 to |clients|
        invariant forall j :: 0 <= j < i ==> clients[j].username != name
      {
        if clients[i].username == name {
          return Some(i);
        }
      }
      return None;
    }

    // The search at the start of send_updates.
    method UpdateStart(last: int) returns (start: int)
      requires iter < ring.Length
      ensures start == StartOf(ring[..], iter, last)
    {
      start := 0;
      if ring[iter].Empty? {
        start := last + 1;
      } else {
        var found := false;
        var i := iter;
        while i < ring.Length && !found
          invariant iter <= i <= ring.Length
          invariant !found ==> FindId(ring[..], last, iter, ring.Length) == FindId(ring[..], last, i, ring.Length)
          invariant found ==> FindId(ring[..], last, iter, ring.Length) < ring.Length
                              && start == Next(FindId(ring[..], last, iter, ring.Length), ring.Length)
          invariant !found ==> start == 0
          decreases ring.Length - i, !found
        {
          if SlotId(ring[i]) == last {
            NextIsModulo(i, ring.Length);
            start := (i + 1) % ring.Length;
            found := true;
          } else {
            i := i + 1;
          }
        }
        if !found {
          i := 0;
          while i < iter && !found
            invariant 0 <= i <= iter
            invariant !found ==> FindId(ring[..], last, 0, iter) == FindId(ring[..], last, i, iter)
            invariant found ==> FindId(ring[..], last, 0, iter) < iter
                                && start == Next(FindId(ring[..], last, 0, iter), ring.Length)
            invariant !found ==> start == 0
            decreases iter - i, !found
          {
            if SlotId(ring[i]) == last {
              NextIsModulo(i, ring.Length);
              start := (i + 1) % ring.Length;
              found := true;
            } else {
              i := i + 1;
            }
          }
        }
      }
    }

    // One of the copying loops: ring[from..to] goes to the batch from position `at` on.
    method CopySpan(batch: array<Slot>, at: nat, from: nat, to: nat)
      requires batch != ring && from <= to <= ring.Length && at + to - from <= batch.Length
      modifies batch
      ensures batch[..at + to - from] == old(batch[..at]) + ring[from..to]
    {
      ghost var head := batch[..at];
      var i := 0;
      while from + i < to
        invariant 0 <= i <= to - from && batch[..at + i] == head + ring[from..from + i]
      {
        batch[at + i] := ring[from + i];
        i := i + 1;
      }
    }

    // The messages from position `start` up to the write position, copied out of the ring.
    method CopyOut(start: nat) returns (batch: array<Slot>)
      requires iter < ring.Length && start < ring.Length
      ensures fresh(batch)
      ensures batch[..] == SelectedFrom(ring[..], iter, start)
    {
      var count := if start < iter then iter - start
                   else if start > iter then ring.Length - start + iter
                   else ring.Length;
      batch := new Slot[count](_ => Empty);
      ghost var slots := ring[..];
      if start < iter {
        CopySpan(batch, 0, start, iter);
        assert ring[start..iter] == slots[start..iter];
      } else {
        CopySpan(batch, 0, start, ring.Length);
        assert ring[start..ring.Length] == slots[start..];
        CopySpan(batch, ring.Length - start, 0, iter);
        assert ring[0..iter] == slots[..iter];
      }
      assert batch[..] == batch[..count];
    }

    // The messages after `last`.
    method SelectUpdates(last: int) returns (batch: array<Slot>)
      requires RingOf(ring[..], iter, log) && -1 <= last < |log|
      requires Recoverable(ring.Length, iter, |log| - 1 - last)
      ensures fresh(batch) && batch[..] == Wrapped(log[last + 1..])
    {
      SelectionIsExactWhenRecoverable(ring[..], iter, log, last);
      var start := UpdateStart(last);
      batch := CopyOut(start);
    }

    // The sending loops of send_updates.
    method SendBatch(batch: array<Slot>, ghost news: seq<Message>)
      requires batch[..] == Wrapped(news) && |outbox| == |clients|
      modifies this`outbox
      ensures |outbox| == old(|outbox|)
      ensures forall c :: 0 <= c < |clients| ==> outbox[c] == old(outbox[c]) + Texts(news)
    {
      for i := 0 to |clients|
        invariant |outbox| == old(|outbox|)
        invariant forall c :: 0 <= c < i ==> outbox[c] == old(outbox[c]) + Texts(news)
        invariant forall c :: i <= c < |outbox| ==> outbox[c] == old(outbox[c])
      {
        ghost var before := outbox;
        assert before[i] + [] == before[i];
        for j := 0 to batch.Length
          invariant outbox == before[i := before[i] + Texts(news)[..j]]
        {
          assert batch[j] == batch[..][j] == Full(news[j]);
          assert Texts(news)[..j + 1] == Texts(news)[..j] + [news[j].text];
          assert before[i] + Texts(news)[..j + 1] == before[i] + Texts(news)[..j] + [news[j].text];
          outbox := outbox[i := outbox[i] + [batch[j].msg.text]];
        }
        assert Texts(news)[..batch.Length] == Texts(news);
      }
    }

    // send_updates
    method SendUpdates(last: int) returns (newLast: int)
      requires RingOf(ring[..], iter, log) && -1 <= last < |log|
      requires Recoverable(ring.Length, iter, |log| - 1 - last)
      requires |outbox| == |clients|
      modifies this`outbox
      ensures newLast == |log| - 1
      ensures |outbox| == old(|outbox|)
      ensures forall c :: 0 <= c < |clients| ==> outbox[c] == old(outbox[c]) + Texts(log[last + 1..])
    {
      var batch := SelectUpdates(last);
      ghost var news := log[last + 1..];
      assert batch.Length == |batch[..]| == |news|;
      assert batch[batch.Length - 1] == batch[..][|news| - 1] == Full(log[|log| - 1]);
      newLast := SlotId(batch[batch.Length - 1]);
      SendBatch(batch, news);
    }

    // A priority-2 packet: a new connection.
    method Connect(name: string)
      requires Valid() && |clients| < CLIENTS_ALLOCATED
      modifies this`clients, this`outbox, this`joined
      ensures Valid()
      ensures clients == old(clients) + [ClientRec(old(|clients|), if |name| <= 99 then name else name[..99])]
      ensures joined == old(joined) + [|log|]
    {
      clients := clients + [ClientRec(|clients|, Truncated(name))];
      outbox := outbox + [[]];
      joined := joined + [|log|];
      assert log[|log|..] == [];
    }

    // A priority-1 packet: a message from a known user.
    method Receive(text: string)
      requires Valid() && ':' in text && exists i :: 0 <= i < |clients| && clients[i].username == NameOf(text)
      modifies this`iter, this`log, this`messageCount, this`lastUpdate, this`outbox, ring
      ensures Valid()
      ensures |log| == old(|log|) + 1 && log[..old(|log|)] == old(log)
      ensures var m := log[old(|log|)];
              && m.text == text && m.id == old(|log|) && m.clientId < |clients|
              && ':' !in clients[m.clientId].username && clients[m.clientId].username + ":" <= text
              && forall j :: 0 <= j < m.clientId ==> clients[j].username != clients[m.clientId].username
    {
      var sender := FindUserByName(NameOf(text));
      AddMessage(text, clients[sender.value], messageCount);
      messageCount := messageCount + 1;
      lastUpdate := SendUpdates(lastUpdate);
      HistoriesGrow(old(log), log[|log| - 1], joined, old(outbox), outbox);
      NameIsUpToColon(text);
    }

    /** The server is where the packets of `past` lead. */
    ghost predicate Follows(past: seq<Event>)
      reads this
    {
      Texts(log) == Received(past) && joined == JoinTimes(past) && Names(clients) == Usernames(past)
    }

    // One pass through the dispatch loop of chat_server.
    method Handle(event: Event, ghost past: seq<Event>)
      requires Valid() && Follows(past) && event != Shutdown && CanServe(past, event)
      modifies this, ring
      ensures Valid() && ring == old(ring) && Follows(past + [event])
    {
      assert (past + [event])[..|past|] == past;
      assert |clients| == |Names(clients)|;
      match event
      case Connection(name) =>
        Connect(name);
      case Text(text) =>
        ghost var u :| 0 <= u < |Usernames(past)| && Usernames(past)[u] == NameOf(text);
        assert clients[u].username == Names(clients)[u];
        Receive(text);
    }

    // The loop of chat_server over the packets it receives.
    method Serve(events: seq<Event>)
      requires Valid() && log == [] && clients == [] && Serveable(events)
      modifies this, ring
      ensures Valid() && |outbox| == |JoinTimes(Live(events))|
      ensures forall c :: 0 <= c < |outbox| ==>
                JoinTimes(Live(events))[c] <= |Received(Live(events))|
                && outbox[c] == Received(Live(events))[JoinTimes(Live(events))[c]..]
    {
      var i := 0;
      ghost var live := Live(events);
      while i < |events| && events[i] != Shutdown
        invariant 0 <= i <= |live| && i <= |events| && ring == old(ring)
        invariant Valid() && Follows(live[..i])
        decreases |events| - i
      {
        LiveStep(events, i);
        assert CanServe(live[..i], live[i]);
        assert live[..i + 1] == live[..i] + [events[i]];
        Handle(events[i], live[..i]);
        i := i + 1;
      }
      LiveEnd(events, i);
      assert live[..i] == live;
      forall c | 0 <= c < |outbox|
        ensures JoinTimes(live)[c] <= |Received(live)| && outbox[c] == Received(live)[JoinTimes(live)[c]..]
      {
        TextsDrop(log, joined[c]);
      }
    }
  }
}
