// What the worker-pool server gets done: a packet taken or dropped, the idle workers reclaimed after every packet, the
// answer sent, the server stopped.

module WorkerPoolProgress {
  import opened WorkerPool

  lemma RunCons(s: State, e: Event, es: seq<Event>, t: State)
    requires InPool(s) && Enabled(s, e) && Run(Step(s, e), es, t)
    ensures Run(s, [e] + es, t)
  {
    assert ([e] + es)[1..] == es;
  }

  lemma {:induction false} RunConcat(s: State, es: seq<Event>, t: State, fs: seq<Event>, u: State)
    requires Run(s, es, t) && Run(t, fs, u)
    ensures Run(s, es + fs, u)
    decreases |es|
  {
    if es == [] {
      assert es + fs == fs;
    } else {
      var e, rest := es[0], es[1..];
      assert (es + fs)[0] == e && (es + fs)[1..] == rest + fs;
      RunConcat(Step(s, e), rest, t, fs, u);
    }
  }

  function Turns(n: nat): seq<Event> { seq(n, _ => Dispatch) }

  lemma TurnsAdd(m: nat, n: nat)
    ensures Turns(m) + Turns(n) == Turns(m + n) && Turns(1) == [Dispatch]
  {
  }

  // ----- taking a request -----

  /** The request has been received, filled in and pushed; the scan is about to start. */
  function Accepted(s: State, r: Request): State
    requires s.free != [] && s.free[|s.free| - 1] < |s.workers|
  {
    var w := s.free[|s.free| - 1];
    s.(workers := s.workers[w := s.workers[w].(info := r.info, client := r.client, flag := true, job := |s.accepted|)],
       free := s.free[..|s.free| - 1], occupied := s.occupied + [w], d := Scan([], []), accepted := s.accepted + [r])
  }

  lemma AcceptedByRun(s: State, r: Request)
    requires s.d == Receive && r.info != -1 && s.free != [] && s.free[|s.free| - 1] < |s.workers|
    ensures Run(s, [Packet(r)] + Turns(4), Accepted(s, r))
  {
    var a := Step(s, Packet(r));
    var b := Step(a, Dispatch);
    var c := Step(b, Dispatch);
    var d := Step(c, Dispatch);
    var t := Accepted(s, r);
    assert Step(d, Dispatch) == t;
    RunCons(d, Dispatch, [], t);
    RunCons(c, Dispatch, [Dispatch] + [], t);
    RunCons(b, Dispatch, [Dispatch] + ([Dispatch] + []), t);
    RunCons(a, Dispatch, [Dispatch] + ([Dispatch] + ([Dispatch] + [])), t);
    assert Turns(4) == [Dispatch] + ([Dispatch] + ([Dispatch] + ([Dispatch] + [])));
    RunCons(s, Packet(r), Turns(4), t);
  }

  // ----- a scan that nobody disturbs -----

  /** The flags of the occupied workers. */
  predicate FlagsAre(s: State, flags: seq<bool>) {
    && |flags| == |s.occupied|
    && forall i :: 0 <= i < |flags| ==> s.occupied[i] < |s.workers| && flags[i] == s.workers[s.occupied[i]].flag
  }

  /** A scan that has looked at the first i occupied workers. */
  function MidScan(s: State, flags: seq<bool>, i: nat): State
    requires i <= |flags| == |s.occupied|
  {
    var seen := s.occupied[..i];
    s.(free := s.free + Seen(seen, flags[..i], false), d := Scan(flags[..i], Seen(seen, flags[..i], true)))
  }

  lemma Looked(s: State, flags: seq<bool>, i: nat)
    requires i < |flags| == |s.occupied|
    ensures var w, m := s.occupied[i], MidScan(s, flags, i);
            && MidScan(s, flags, i + 1).free == m.free + (if flags[i] then [] else [w])
            && MidScan(s, flags, i + 1).d == Scan(m.d.flags + [flags[i]], m.d.kept + (if flags[i] then [w] else []))
  {
    var before := flags[..i];
    assert flags[..i + 1] == before + [flags[i]];
    var freed := Seen(s.occupied[..i], before, false);
    SeenGrows(s.occupied, before, flags[i], true);
    SeenGrows(s.occupied, before, flags[i], false);
    assert s.free + (freed + [s.occupied[i]]) == (s.free + freed) + [s.occupied[i]];
    assert s.free + (freed + []) == (s.free + freed) + [];
  }

  lemma LookedAtOne(s: State, flags: seq<bool>, i: nat)
    requires FlagsAre(s, flags) && i < |flags|
    ensures var m := MidScan(s, flags, i);
            InPool(m) && Enabled(m, Dispatch) && Step(m, Dispatch) == MidScan(s, flags, i + 1)
  {
    Looked(s, flags, i);
    var m := MidScan(s, flags, i);
    assert m.free + [] == m.free && m.d.kept + [] == m.d.kept;
  }

  lemma {:induction false} LookedAtAll(s: State, flags: seq<bool>, i: nat)
    requires FlagsAre(s, flags) && i <= |flags|
    ensures Run(MidScan(s, flags, i), Turns(|flags| - i), MidScan(s, flags, |flags|))
    decreases |flags| - i
  {
    if i < |flags| {
      LookedAtOne(s, flags, i);
      LookedAtAll(s, flags, i + 1);
      TurnsAdd(1, |flags| - i - 1);
      RunCons(MidScan(s, flags, i), Dispatch, Turns(|flags| - i - 1), MidScan(s, flags, |flags|));
    }
  }

  lemma ScanRunsThrough(s: State, flags: seq<bool>) returns (t: State)
    requires s.d == Scan([], []) && FlagsAre(s, flags)
    ensures Run(s, Turns(|s.occupied| + 1), t)
    ensures t == s.(free := s.free + Seen(s.occupied, flags, false), occupied := Seen(s.occupied, flags, true),
                    d := Receive)
  {
    var u := MidScan(s, flags, |flags|);
    t := Step(u, Dispatch);
    assert s.free + [] == s.free;
    assert MidScan(s, flags, 0) == s;
    LookedAtAll(s, flags, 0);
    RunCons(u, Dispatch, [], t);
    TurnsAdd(|flags|, 1);
    RunConcat(s, Turns(|flags|), u, [Dispatch] + [], t);
    assert Turns(|flags|) + ([Dispatch] + []) == Turns(|flags| + 1);
    assert s.occupied[..|flags|] == s.occupied && flags[..|flags|] == flags;
  }

  lemma FlagsRead(s: State) returns (flags: seq<bool>)
    requires ApartInPool(s.occupied, |s.workers|)
    ensures FlagsAre(s, flags)
  {
    flags := seq(|s.occupied|, i requires 0 <= i < |s.occupied| => s.workers[s.occupied[i]].flag);
  }

  /**
   * A packet that finds no free worker is dropped, but the scan it sets off reclaims the pool: after so many turns of
   * the dispatcher every occupied worker whose flag was clear is on the free stack, the others are still occupied, both
   * in their order, and nothing has been accepted or sent.
   */
  lemma FullPoolIsReclaimed(s: State, r: Request) returns (t: State, freed: seq<nat>, kept: seq<nat>)
    requires Inv(s) && s.d == Receive && s.free == [] && r.info != -1
    ensures Run(s, [Packet(r)] + Turns(|s.occupied| + 1), t) && t.d == Receive
    ensures t.workers == s.workers && t.accepted == s.accepted && t.replies == s.replies
    ensures |t.free| == |freed| && |t.occupied| == |kept|
    ensures forall i :: 0 <= i < |freed| ==> freed[i] < |s.occupied| && t.free[i] == s.occupied[freed[i]]
    ensures forall i :: 0 <= i < |kept| ==> kept[i] < |s.occupied| && t.occupied[i] == s.occupied[kept[i]]
    ensures forall i, j :: 0 <= i < j < |freed| ==> freed[i] < freed[j]
    ensures forall i, j :: 0 <= i < j < |kept| ==> kept[i] < kept[j]
    ensures forall x :: 0 <= x < |s.occupied| ==>
              && s.occupied[x] < |s.workers|
              && (x in kept <==> s.workers[s.occupied[x]].flag) && (x in freed <==> !s.workers[s.occupied[x]].flag)
  {
    BusyAreApart(s);
    var a := Step(s, Packet(r));
    var flags := FlagsRead(a);
    t := ScanRunsThrough(a, flags);
    RunCons(s, Packet(r), Turns(|s.occupied| + 1), t);
    freed := SeenKeepsOrder(s.occupied, flags, false);
    kept := SeenKeepsOrder(s.occupied, flags, true);
    assert [] + Seen(s.occupied, flags, false) == Seen(s.occupied, flags, false);
  }

  lemma AcceptedIsApart(s: State, r: Request)
    requires Inv(s) && s.d == Receive && s.free != []
    ensures s.free[|s.free| - 1] < |s.workers|
    ensures ApartInPool(Accepted(s, r).occupied, |s.workers|)
  {
    var w := s.free[|s.free| - 1];
    BusyAreApart(s);
    assert w in Everyone(s);
    PoolFacts(s, w);
    assert w in multiset(s.free);
    assert w !in s.occupied;
  }

  /**
   * A packet that finds a free worker is accepted: the worker on top of the stack gets the order, the address and the
   * flag and is occupied last; then the scan goes over the occupied workers as always.
   */
  lemma RequestIsTaken(s: State, r: Request) returns (t: State, freed: seq<nat>, kept: seq<nat>)
    requires Inv(s) && s.d == Receive && s.free != [] && r.info != -1
    ensures Run(s, [Packet(r)] + Turns(|s.occupied| + 6), t) && t.d == Receive && t.replies == s.replies
    ensures t.accepted == s.accepted + [r]
    ensures var w := s.free[|s.free| - 1];
            w < |s.workers| && t.workers == s.workers[w := Worker(r.info, r.client, true, Poll, |s.accepted|)]
    ensures var below, all := s.free[..|s.free| - 1], s.occupied + [s.free[|s.free| - 1]];
            && |t.free| == |below| + |freed| && t.free[..|below|] == below && |t.occupied| == |kept|
            && (forall i :: 0 <= i < |freed| ==> freed[i] < |all| && t.free[|below| + i] == all[freed[i]])
            && (forall i :: 0 <= i < |kept| ==> kept[i] < |all| && t.occupied[i] == all[kept[i]])
            && (forall i, j :: 0 <= i < j < |freed| ==> freed[i] < freed[j])
            && (forall i, j :: 0 <= i < j < |kept| ==> kept[i] < kept[j])
            && forall x :: 0 <= x < |all| ==>
                 && all[x] < |t.workers|
                 && (x in kept <==> t.workers[all[x]].flag) && (x in freed <==> !t.workers[all[x]].flag)
  {
    BusyAreApart(s);
    var a := Accepted(s, r);
    AcceptedByRun(s, r);
    AcceptedIsApart(s, r);
    var flags := FlagsRead(a);
    t := ScanRunsThrough(a, flags);
    RunConcat(s, [Packet(r)] + Turns(4), a, Turns(|a.occupied| + 1), t);
    TurnsAdd(4, |a.occupied| + 1);
    assert [Packet(r)] + Turns(4) + Turns(|a.occupied| + 1) == [Packet(r)] + Turns(|s.occupied| + 6);
    freed := SeenKeepsOrder(a.occupied, flags, false);
    kept := SeenKeepsOrder(a.occupied, flags, true);
  }

  // ----- answering and stopping -----

  /** Four turns of a worker that finds its flag set send its one answer and make it idle again. */
  lemma AnswerIsSent(s: State, w: nat) returns (t: State)
    requires Inv(s) && w < |s.workers| && s.workers[w].flag && s.workers[w].pc == Poll
    ensures InPool(s) && Run(s, [Work(w), Work(w), Work(w), Work(w)], t)
    ensures t.d == s.d && t.free == s.free && t.occupied == s.occupied && t.accepted == s.accepted
    ensures |t.workers| == |s.workers| && !t.workers[w].flag && t.workers[w].pc == Poll
    ensures var job := s.workers[w].job;
            && 0 <= job < |s.accepted| && |t.replies| == |s.replies| + 1 && t.replies[..|s.replies|] == s.replies
            && var reply, asked := t.replies[|s.replies|], s.accepted[job];
               && reply.job == job && reply.client == asked.client
               && (-0x8000_0000 <= asked.info < 0x7fff_ffff ==> reply.info == asked.info + 1)
               && (asked.info == 0x7fff_ffff ==> reply.info == -0x8000_0000)
  {
    InvInPool(s);
    FourTurnsAnswer(s, w);
    var a := WorkStep(s, w);
    var b := WorkStep(a, w);
    var c := WorkStep(b, w);
    t := WorkStep(c, w);
    RunCons(c, Work(w), [], t);
    RunCons(b, Work(w), [Work(w)] + [], t);
    RunCons(a, Work(w), [Work(w)] + ([Work(w)] + []), t);
    RunCons(s, Work(w), [Work(w)] + ([Work(w)] + ([Work(w)] + [])), t);
    assert [Work(w), Work(w), Work(w), Work(w)] == [Work(w)] + ([Work(w)] + ([Work(w)] + ([Work(w)] + [])));
  }

  /** The number -1, and no other, stops the server. */
  lemma StopsExactlyOnMinusOne(s: State, r: Request)
    requires Inv(s) && s.d == Receive
    ensures InPool(s) && Enabled(s, Packet(r)) && (Step(s, Packet(r)).d == Stopped <==> r.info == -1)
    ensures r.info == -1 ==> Step(s, Packet(r)) == s.(d := Stopped)
  {
  }

  /** Once stopped it takes no packet, hands out no order and reclaims no worker. */
  lemma {:induction false} StoppedForGood(s: State, es: seq<Event>, t: State)
    requires s.d == Stopped && Run(s, es, t)
    ensures t.d == Stopped && t.accepted == s.accepted && t.free == s.free && t.occupied == s.occupied
    ensures forall i :: 0 <= i < |es| ==> es[i].Work?
    decreases |es|
  {
    if es == [] {
    } else {
      StoppedForGood(Step(s, es[0]), es[1..], t);
      assert forall i :: 1 <= i < |es| ==> es[i] == es[1..][i - 1];
    }
  }
}
