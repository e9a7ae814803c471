// Threads that read a shared number once, count up a local copy, and write it back: the final value under every
// interleaving.

module LostUpdate {

  const ROUNDS := 100000

  /** One increment of the local copy: a turn of the loop, and of a thread that counts. */
  function Counted(local: int): int { local + 1 }

  /** The loop of thread_start on the local copy. */
  method CountUp(start: int) returns (a: int)
    ensures a == start + 100000
  {
    a := start;
    for i := 0 to ROUNDS
      invariant a == start + i
    {
      a := Counted(a);
    }
  }

  /** A thread before its read, with its local copy after `done` increments, and after its write. */
  datatype Thread = Fresh | Counting(local: int, done: nat) | Finished(returned: int)

  datatype State = State(a: int, threads: seq<Thread>)

  function Init(n: nat): State { State(0, seq(n, _ => Fresh)) }

  predicate Enabled(s: State, j: nat) { j < |s.threads| && !s.threads[j].Finished? }

  /** One turn of thread j. */
  function Step(s: State, j: nat): State
    requires Enabled(s, j)
  {
    match s.threads[j]
    case Fresh => s.(threads := s.threads[j := Counting(s.a, 0)])
    case Counting(local, done) =>
      if done < ROUNDS then s.(threads := s.threads[j := Counting(Counted(local), done + 1)])
      else State(local, s.threads[j := Finished(local)])
    case Finished(_) => s
  }

  ghost predicate Run(s: State, js: seq<nat>, t: State)
    decreases |js|
  {
    if js == [] then t == s else Enabled(s, js[0]) && Run(Step(s, js[0]), js[1..], t)
  }

  predicate AllFinished(s: State) { forall j :: 0 <= j < |s.threads| ==> s.threads[j].Finished? }

  // ----- every final value is a multiple of the rounds -----

  function FinishedCount(ts: seq<Thread>): (r: nat)
    ensures r <= |ts|
  {
    if ts == [] then 0 else (if ts[0].Finished? then 1 else 0) + FinishedCount(ts[1..])
  }

  lemma {:induction false} FinishedUpdate(ts: seq<Thread>, j: nat, x: Thread)
    requires j < |ts| && !ts[j].Finished?
    ensures FinishedCount(ts[j := x]) == FinishedCount(ts) + if x.Finished? then 1 else 0
  {
    if j == 0 {
      assert ts[0 := x][1..] == ts[1..];
    } else {
      assert ts[j := x][1..] == ts[1..][j - 1 := x];
      FinishedUpdate(ts[1..], j - 1, x);
    }
  }

  lemma {:induction false} FinishedWhenAll(ts: seq<Thread>)
    requires forall j :: 0 <= j < |ts| ==> ts[j].Finished?
    ensures FinishedCount(ts) == |ts|
  {
    if ts != [] {
      FinishedWhenAll(ts[1..]);
    }
  }

  /** v is the work of at most `most` threads on top of each other. */
  ghost predicate Layers(v: int, least: nat, most: nat) { exists k :: least <= k <= most && v == ROUNDS * k }

  ghost predicate ThreadInv(s: State, j: nat)
    requires j < |s.threads|
  {
    s.threads[j].Counting? ==>
      s.threads[j].done <= ROUNDS && Layers(s.threads[j].local - s.threads[j].done, 0, FinishedCount(s.threads))
  }

  ghost predicate Inv(s: State) {
    && Layers(s.a, if FinishedCount(s.threads) > 0 then 1 else 0, FinishedCount(s.threads))
    && forall j :: 0 <= j < |s.threads| ==> ThreadInv(s, j)
  }

  lemma StepKeepsInv(s: State, j: nat)
    requires Inv(s) && Enabled(s, j)
    ensures Inv(Step(s, j))
  {
    var t := Step(s, j);
    FinishedUpdate(s.threads, j, t.threads[j]);
    var f := FinishedCount(s.threads);
    assert ThreadInv(s, j);
    if t.threads[j].Finished? {
      var k :| 0 <= k <= f && s.threads[j].local - s.threads[j].done == ROUNDS * k;
      assert t.a == ROUNDS * (k + 1);
    }
    forall i | 0 <= i < |t.threads| ensures ThreadInv(t, i) {
      assert ThreadInv(s, i);
      if i != j && s.threads[i].Counting? {
        var k :| 0 <= k <= f && s.threads[i].local - s.threads[i].done == ROUNDS * k;
        assert Layers(t.threads[i].local - t.threads[i].done, 0, FinishedCount(t.threads));
      }
    }
  }

  lemma {:induction false} RunKeepsInv(s: State, js: seq<nat>, t: State)
    requires Inv(s) && Run(s, js, t)
    ensures Inv(t) && |t.threads| == |s.threads|
    decreases |js|
  {
    if js != [] {
      StepKeepsInv(s, js[0]);
      RunKeepsInv(Step(s, js[0]), js[1..], t);
    }
  }

  lemma {:induction false} NoneFinished(n: nat)
    ensures FinishedCount(Init(n).threads) == 0
  {
    if n > 0 {
      NoneFinished(n - 1);
      assert Init(n).threads[1..] == Init(n - 1).threads;
    }
  }

  lemma FinalValueIsLayers(n: nat, js: seq<nat>, t: State)
    requires n > 0 && Run(Init(n), js, t) && AllFinished(t)
    ensures Layers(t.a, 1, n)
  {
    NoneFinished(n);
    assert Init(n).a == ROUNDS * 0;
    RunKeepsInv(Init(n), js, t);
    FinishedWhenAll(t.threads);
  }

  // ----- every such value is reached -----

  lemma {:induction false} RunConcat(s: State, js: seq<nat>, t: State, ks: seq<nat>, u: State)
    requires Run(s, js, t) && Run(t, ks, u)
    ensures Run(s, js + ks, u)
    decreases |js|
  {
    if js == [] {
      assert js + ks == ks;
    } else {
      RunConcat(Step(s, js[0]), js[1..], t, ks, u);
      assert (js + ks)[1..] == js[1..] + ks;
    }
  }

  // Thread j alone from its local copy to its write.
  lemma {:induction false} FinishOne(s: State, j: nat) returns (js: seq<nat>)
    requires j < |s.threads| && s.threads[j].Counting? && s.threads[j].done <= ROUNDS
    ensures var v := s.threads[j].local + (ROUNDS - s.threads[j].done);
            Run(s, js, State(v, s.threads[j := Finished(v)]))
    decreases ROUNDS - s.threads[j].done
  {
    var t := Step(s, j);
    if s.threads[j].done == ROUNDS {
      js := [j];
      assert js[1..] == [];
    } else {
      var ks := FinishOne(t, j);
      js := [j] + ks;
      assert js[1..] == ks;
      var v := s.threads[j].local + (ROUNDS - s.threads[j].done);
      assert t.threads[j := Finished(v)] == s.threads[j := Finished(v)];
    }
  }

  /** The threads from `from` on are untouched. */
  ghost predicate FreshFrom(s: State, from: nat) {
    from <= |s.threads| && forall j :: from <= j < |s.threads| ==> s.threads[j] == Fresh
  }

  // Threads j..m - 1 all read before any of them writes.
  lemma {:induction false} ReadTogether(s: State, j: nat, m: nat) returns (js: seq<nat>, t: State)
    requires j <= m <= |s.threads| && FreshFrom(s, j)
    ensures Run(s, js, t) && t.a == s.a && |t.threads| == |s.threads|
    ensures forall i :: 0 <= i < |t.threads| ==> t.threads[i] == if j <= i < m then Counting(s.a, 0) else s.threads[i]
    decreases m - j
  {
    if j == m {
      js, t := [], s;
    } else {
      var ks;
      ks, t := ReadTogether(Step(s, j), j + 1, m);
      js := [j] + ks;
      assert js[1..] == ks;
    }
  }

  // Threads j..m - 1, which all read v, write one after the other: the last write leaves v + ROUNDS.
  lemma {:induction false} WriteInTurn(s: State, j: nat, m: nat, v: int) returns (js: seq<nat>, t: State)
    requires j < m <= |s.threads| && forall i :: j <= i < m ==> s.threads[i] == Counting(v, 0)
    ensures Run(s, js, t) && t.a == v + ROUNDS && |t.threads| == |s.threads|
    ensures forall i :: 0 <= i < |t.threads| ==>
              t.threads[i] == if j <= i < m then Finished(v + ROUNDS) else s.threads[i]
    decreases m - j
  {
    var s' := State(v + ROUNDS, s.threads[j := Finished(v + ROUNDS)]);
    js := FinishOne(s, j);
    t := s';
    if j + 1 < m {
      var ks;
      ks, t := WriteInTurn(s', j + 1, m, v);
      RunConcat(s, js, s', ks, t);
      js := js + ks;
    }
  }

  // Threads j.. one after the other, each reading what the one before wrote.
  lemma {:induction false} OneByOne(s: State, j: nat) returns (js: seq<nat>, t: State)
    requires FreshFrom(s, j) && forall i :: 0 <= i < j ==> s.threads[i].Finished?
    ensures Run(s, js, t) && AllFinished(t) && t.a == s.a + ROUNDS * (|s.threads| - j)
    decreases |s.threads| - j
  {
    if j == |s.threads| {
      js, t := [], s;
    } else {
      var r := Step(s, j);
      var one := FinishOne(r, j);
      var s' := State(s.a + ROUNDS, r.threads[j := Finished(s.a + ROUNDS)]);
      var ks;
      ks, t := OneByOne(s', j + 1);
      RunConcat(r, one, s', ks, t);
      js := [j] + (one + ks);
      assert js[1..] == one + ks;
    }
  }

  lemma LayersAreReached(n: nat, k: nat) returns (js: seq<nat>, t: State)
    requires 1 <= k <= n
    ensures Run(Init(n), js, t) && AllFinished(t) && t.a == ROUNDS * k
  {
    var m := n - k + 1;
    var js1, s1 := ReadTogether(Init(n), 0, m);
    var js2, s2 := WriteInTurn(s1, 0, m, 0);
    var js3;
    js3, t := OneByOne(s2, m);
    RunConcat(Init(n), js1, s1, js2, s2);
    RunConcat(Init(n), js1 + js2, s2, js3, t);
    js := js1 + js2 + js3;
  }

  /** Some interleaving of n threads, each run to its end, leaves v in the shared variable. */
  ghost predicate CanEndWith(n: nat, v: int) { exists js, t :: Run(Init(n), js, t) && AllFinished(t) && t.a == v }

  /** The possible final values of n threads are exactly 100000 * 1, ..., 100000 * n. */
  lemma FinalValues(n: nat, v: int)
    requires n > 0
    ensures CanEndWith(n, v) <==> exists k :: 1 <= k <= n && v == 100000 * k
  {
    if CanEndWith(n, v) {
      var js, t :| Run(Init(n), js, t) && AllFinished(t) && t.a == v;
      FinalValueIsLayers(n, js, t);
    }
    if exists k :: 1 <= k <= n && v == ROUNDS * k {
      var k :| 1 <= k <= n && v == ROUNDS * k;
      var js, t := LayersAreReached(n, k);
    }
  }

  /** Run one after the other, no update is lost. */
  lemma SequentialRunLosesNothing(n: nat) returns (js: seq<nat>, t: State)
    ensures Run(Init(n), js, t) && AllFinished(t) && t.a == 100000 * n
  {
    js, t := OneByOne(Init(n), 0);
  }
}
