// The day at the shops can always be brought to an end: whatever the threads have done so far, a run leads from there
// to the last join, as long as there are a shop and a supplier.

module ShopsProgress {
  import opened Shops

  // ----- threads inside or in front of a shop come out -----

  /** Turns a customer needs to be back outside, once it has the mutex. */
  function CustomerWay(c: CustomerRec): int {
    match c.pc
    case Queueing(_) => 4
    case Entered(_) => 3
    case Subtracted(_, _) => 2
    case Cleared(_) => 1
    case _ => 0
  }

  /** Turns a supplier needs to be back outside, once it has the mutex. */
  function SupplierWay(c: SupplierRec): int {
    match c.pc
    case Waiting(_) => 6
    case Inside(_) => 5
    case Looked(_, _) => 4
    case Loaded(_, _, _) => 3
    case Restocked(_) => 2
    case Recapped(_) => 1
    case _ => 0
  }

  function Owed(c: CustomerRec): int { if c.demand > 0 then c.demand else 0 }

  lemma {:induction false} SumNotNegative<T>(xs: seq<T>, f: T -> int)
    requires forall x :: f(x) >= 0
    ensures Sum(xs, f) >= 0
  {
    if xs != [] {
      SumNotNegative(xs[1..], f);
    }
  }

  function Way(s: State): (r: nat) {
    SumNotNegative(s.customers, CustomerWay);
    SumNotNegative(s.suppliers, SupplierWay);
    Sum(s.customers, CustomerWay) + Sum(s.suppliers, SupplierWay)
  }

  /** What the customers still want. */
  function TotalOwed(s: State): (r: nat) {
    SumNotNegative(s.customers, Owed);
    Sum(s.customers, Owed)
  }

  /** Nobody is inside a shop or in front of one. */
  ghost predicate Quiet(s: State) {
    && (forall k :: 0 <= k < |s.customers| ==> CustomerWay(s.customers[k]) == 0)
    && (forall p :: 0 <= p < |s.suppliers| ==> SupplierWay(s.suppliers[p]) == 0)
  }

  /** From s to t the joining has not moved, nobody owes more, and no supplier has lost its load. */
  ghost predicate Onwards(s: State, t: State) {
    && SameSizes(s, t) && t.main == s.main && t.satisfied == s.satisfied
    && TotalOwed(t) <= TotalOwed(s)
    && forall p :: 0 <= p < |s.suppliers| && s.suppliers[p].cap > 0 ==> t.suppliers[p].cap > 0
  }

  lemma CustomerOnItsWay(s: State, k: nat, i: nat)
    requires Inv(s) && Enabled(s, CustomerTurn(k, i)) && CustomerWay(s.customers[k]) > 0
    ensures var t := Step(s, CustomerTurn(k, i)); Inv(t) && Way(t) < Way(s) && Onwards(s, t)
  {
    var t := Step(s, CustomerTurn(k, i));
    assert CustomerInv(s, k);
    StepKeepsInv(s, CustomerTurn(k, i));
    SumUpdate(s.customers, k, t.customers[k], CustomerWay);
    SumUpdate(s.customers, k, t.customers[k], Owed);
  }

  lemma SupplierOnItsWay(s: State, p: nat, i: nat)
    requires Inv(s) && Enabled(s, SupplierTurn(p, i, 1)) && SupplierWay(s.suppliers[p]) > 0
    ensures var t := Step(s, SupplierTurn(p, i, 1)); Inv(t) && Way(t) < Way(s) && Onwards(s, t)
  {
    var t := Step(s, SupplierTurn(p, i, 1));
    assert SupplierInv(s, p);
    StepKeepsInv(s, SupplierTurn(p, i, 1));
    SumUpdate(s.suppliers, p, t.suppliers[p], SupplierWay);
  }

  lemma HolderMovesOn(s: State, i: nat) returns (e: Event)
    requires Inv(s) && i < |s.shops| && s.shops[i].holder != Nobody
    ensures Enabled(s, e) && Inv(Step(s, e)) && Way(Step(s, e)) < Way(s) && Onwards(s, Step(s, e))
  {
    match s.shops[i].holder
    case Customer(k) =>
      assert CustomerInv(s, k);
      e := CustomerTurn(k, i);
      CustomerOnItsWay(s, k, i);
    case Supplier(p) =>
      assert SupplierInv(s, p);
      e := SupplierTurn(p, i, 1);
      SupplierOnItsWay(s, p, i);
  }

  /** If anyone is in front of a shop or inside, someone can move on. */
  lemma SomeoneMovesOn(s: State) returns (e: Event)
    requires Inv(s) && !Quiet(s)
    ensures Enabled(s, e) && Inv(Step(s, e)) && Way(Step(s, e)) < Way(s) && Onwards(s, Step(s, e))
  {
    if k :| 0 <= k < |s.customers| && CustomerWay(s.customers[k]) > 0 {
      assert CustomerInv(s, k);
      var pc := s.customers[k].pc;
      if pc.Queueing? && s.shops[pc.i].holder != Nobody {
        e := HolderMovesOn(s, pc.i);
      } else {
        e := CustomerTurn(k, pc.i);
        CustomerOnItsWay(s, k, pc.i);
      }
    } else {
      var p :| 0 <= p < |s.suppliers| && SupplierWay(s.suppliers[p]) > 0;
      assert SupplierInv(s, p);
      var pc := s.suppliers[p].pc;
      if pc.Waiting? && s.shops[pc.i].holder != Nobody {
        e := HolderMovesOn(s, pc.i);
      } else {
        e := SupplierTurn(p, pc.i, 1);
        SupplierOnItsWay(s, p, pc.i);
      }
    }
  }

  lemma {:induction false} AllComeOut(s: State) returns (es: seq<Event>, t: State)
    requires Inv(s)
    ensures Run(s, es, t) && Inv(t) && Quiet(t) && Onwards(s, t)
    decreases Way(s)
  {
    if Quiet(s) {
      es, t := [], s;
    } else {
      var e := SomeoneMovesOn(s);
      var rest;
      rest, t := AllComeOut(Step(s, e));
      RunCons(s, e, rest, t);
      es := [e] + rest;
    }
  }

  lemma QuietIsFree(s: State)
    requires Inv(s) && Quiet(s)
    ensures forall i :: 0 <= i < |s.shops| ==> s.shops[i].holder == Nobody
  {
    forall i | 0 <= i < |s.shops| ensures s.shops[i].holder == Nobody {
      assert HolderExists(s, s.shops[i].holder);
      forall k | 0 <= k < |s.customers| ensures s.shops[i].holder != Customer(k) {
        assert CustomerInv(s, k) && CustomerWay(s.customers[k]) == 0;
      }
      forall p | 0 <= p < |s.suppliers| ensures s.shops[i].holder != Supplier(p) {
        assert SupplierInv(s, p) && SupplierWay(s.suppliers[p]) == 0;
      }
    }
  }

  /** Supplier p stands in shop 0, about to add its load to the shelf. */
  function AboutToRestock(s: State, p: nat): State
    requires |s.shops| > 0 && p < |s.suppliers|
  {
    var cap, stock := s.suppliers[p].cap, s.shops[0].stock;
    s.(shops := s.shops[0 := Shop(stock, Supplier(p))],
       suppliers := s.suppliers[p := SupplierRec(cap, Loaded(0, stock, cap))])
  }

  lemma SupplierComes(s: State, p: nat) returns (es: seq<Event>)
    requires |s.shops| > 0 && p < |s.suppliers| && s.suppliers[p].pc.Away? && !s.satisfied
    requires s.shops[0].holder == Nobody
    ensures Run(s, es, AboutToRestock(s, p))
  {
    var e, cap, stock, t := SupplierTurn(p, 0, 1), s.suppliers[p].cap, s.shops[0].stock, AboutToRestock(s, p);
    var s1 := WithSupplier(s, p, SupplierRec(cap, Waiting(0)));
    var s2 := WithSupplier(t, p, SupplierRec(cap, Inside(0)));
    var s3 := WithSupplier(t, p, SupplierRec(cap, Looked(0, stock)));
    assert Step(s, e) == s1;
    assert Step(s1, e) == s2;
    assert Step(s2, e) == s3;
    assert Step(s3, e) == t;
    RunCons(s3, e, [], t);
    RunCons(s2, e, [e] + [], t);
    RunCons(s1, e, [e] + ([e] + []), t);
    RunCons(s, e, [e] + ([e] + ([e] + [])), t);
    es := [e] + ([e] + ([e] + ([e] + [])));
  }

  lemma SupplierGoes(s: State, p: nat, t: State) returns (es: seq<Event>)
    requires |s.shops| > 0 && p < |s.suppliers|
    requires t == s.(shops := s.shops[0 := Shop(s.shops[0].stock + s.suppliers[p].cap, Nobody)],
                     suppliers := s.suppliers[p := SupplierRec(1, Away)], supplied := s.supplied + s.suppliers[p].cap)
    ensures Run(AboutToRestock(s, p), es, t)
  {
    var e, s4 := SupplierTurn(p, 0, 1), AboutToRestock(s, p);
    var s5 := Step(s4, e);
    var s6 := Step(s5, e);
    assert Step(s6, e) == t;
    RunCons(s6, e, [], t);
    RunCons(s5, e, [e] + [], t);
    RunCons(s4, e, [e] + ([e] + []), t);
    es := [e] + ([e] + ([e] + []));
  }

  /** A supplier goes to shop 0 undisturbed and draws a load of 1 for the next time. */
  lemma SupplierVisits(s: State, p: nat) returns (es: seq<Event>, t: State)
    requires Inv(s) && Quiet(s) && |s.shops| > 0 && p < |s.suppliers| && s.suppliers[p].pc.Away? && !s.satisfied
    ensures Run(s, es, t) && Inv(t) && Quiet(t)
    ensures t == s.(shops := s.shops[0 := Shop(s.shops[0].stock + s.suppliers[p].cap, Nobody)],
                    suppliers := s.suppliers[p := SupplierRec(1, Away)], supplied := s.supplied + s.suppliers[p].cap)
  {
    QuietIsFree(s);
    t := s.(shops := s.shops[0 := Shop(s.shops[0].stock + s.suppliers[p].cap, Nobody)],
            suppliers := s.suppliers[p := SupplierRec(1, Away)], supplied := s.supplied + s.suppliers[p].cap);
    var coming := SupplierComes(s, p);
    var going := SupplierGoes(s, p, t);
    es := coming + going;
    RunConcat(s, coming, AboutToRestock(s, p), going, t);
    RunConserves(s, es, t);
  }

  /** Customer k stands in shop 0 and has taken the shelf off its demand, but not cleared it. */
  function AboutToClear(s: State, k: nat): State
    requires |s.shops| > 0 && k < |s.customers|
  {
    var stock := s.shops[0].stock;
    s.(shops := s.shops[0 := Shop(stock, Customer(k))],
       customers := s.customers[k := CustomerRec(s.customers[k].demand - stock, Subtracted(0, stock))])
  }

  lemma CustomerComes(s: State, k: nat) returns (es: seq<Event>)
    requires |s.shops| > 0 && s.shops[0].holder == Nobody
    requires k < |s.customers| && s.customers[k].pc.Outside? && s.customers[k].demand > 0
    ensures Run(s, es, AboutToClear(s, k))
  {
    var e, demand, t := CustomerTurn(k, 0), s.customers[k].demand, AboutToClear(s, k);
    var s1 := WithCustomer(s, k, CustomerRec(demand, Queueing(0)));
    var s2 := WithCustomer(t, k, CustomerRec(demand, Entered(0)));
    assert Step(s, e) == s1;
    assert Step(s1, e) == s2;
    assert Step(s2, e) == t;
    RunCons(s2, e, [], t);
    RunCons(s1, e, [e] + [], t);
    RunCons(s, e, [e] + ([e] + []), t);
    es := [e] + ([e] + ([e] + []));
  }

  lemma CustomerGoes(s: State, k: nat, t: State) returns (es: seq<Event>)
    requires |s.shops| > 0 && k < |s.customers|
    requires t == s.(shops := s.shops[0 := Shop(0, Nobody)],
                     customers := s.customers[k := CustomerRec(s.customers[k].demand - s.shops[0].stock, Outside)])
    ensures Run(AboutToClear(s, k), es, t)
  {
    var e, s3 := CustomerTurn(k, 0), AboutToClear(s, k);
    var s4 := Step(s3, e);
    assert Step(s4, e) == t;
    RunCons(s4, e, [], t);
    RunCons(s3, e, [e] + [], t);
    es := [e] + ([e] + []);
  }

  /** A customer empties shop 0 undisturbed. */
  lemma CustomerVisits(s: State, k: nat) returns (es: seq<Event>, t: State)
    requires Inv(s) && Quiet(s) && |s.shops| > 0
    requires k < |s.customers| && s.customers[k].pc.Outside? && s.customers[k].demand > 0
    ensures Run(s, es, t) && Inv(t) && Quiet(t)
    ensures t == s.(shops := s.shops[0 := Shop(0, Nobody)],
                    customers := s.customers[k := CustomerRec(s.customers[k].demand - s.shops[0].stock, Outside)])
  {
    QuietIsFree(s);
    t := s.(shops := s.shops[0 := Shop(0, Nobody)],
            customers := s.customers[k := CustomerRec(s.customers[k].demand - s.shops[0].stock, Outside)]);
    var coming := CustomerComes(s, k);
    var going := CustomerGoes(s, k, t);
    es := coming + going;
    RunConcat(s, coming, AboutToClear(s, k), going, t);
    RunConserves(s, es, t);
  }

  /** Supplier 0 brings its load, and customer k takes it. */
  lemma SomeDemandIsMet(s: State, k: nat) returns (es: seq<Event>, t: State)
    requires Inv(s) && Quiet(s) && |s.shops| > 0 && |s.suppliers| > 0 && !s.satisfied && s.main.Joining?
    requires s.suppliers[0].cap > 0
    requires k < |s.customers| && s.customers[k].pc.Outside? && s.customers[k].demand > 0
    ensures Run(s, es, t) && Inv(t) && Quiet(t) && Onwards(s, t) && TotalOwed(t) < TotalOwed(s)
  {
    assert SupplierInv(s, 0);
    var supply, u := SupplierVisits(s, 0);
    var buy;
    buy, t := CustomerVisits(u, k);
    RunConcat(s, supply, u, buy, t);
    es := supply + buy;
    SumUpdate(s.customers, k, t.customers[k], Owed);
  }

  // ----- to the last join -----

  /** Turns of the main thread until it starts joining. */
  function ToJoining(s: State): (r: int) {
    match s.main
    case Creating(k) => 2 * (|s.customers| - k) + 2 * |s.suppliers| + 1
    case Assigning(k) => 2 * (|s.customers| - k) + 2 * |s.suppliers|
    case Hiring(p) => 2 * (|s.suppliers| - p) + 1
    case Loading(p) => 2 * (|s.suppliers| - p)
    case Joining(_) => 0
  }

  lemma {:induction false} AllAreCreated(s: State) returns (es: seq<Event>, t: State)
    requires Inv(s)
    ensures Run(s, es, t) && Inv(t) && t.main.Joining? && SameSizes(s, t)
    decreases ToJoining(s)
  {
    if s.main.Joining? {
      es, t := [], s;
    } else {
      var e := MainTurn(0);
      StepKeepsInv(s, e);
      var rest;
      rest, t := AllAreCreated(Step(s, e));
      RunCons(s, e, rest, t);
      es := [e] + rest;
    }
  }

  /** The thread to be joined next is still there. */
  predicate Awaited(s: State) {
    s.main.Joining? &&
    if s.main.j < |s.customers| then s.customers[s.main.j].pc != Done
    else s.main.j - |s.customers| < |s.suppliers| && s.suppliers[s.main.j - |s.customers|].pc != Stopped
  }

  /** The thread to be joined next has nothing left to do and leaves its loop. */
  lemma AwaitedLeaves(s: State) returns (e: Event)
    requires Inv(s) && Quiet(s) && |s.shops| > 0 && Awaited(s)
    requires s.main.j < |s.customers| ==> s.customers[s.main.j].demand <= 0
    ensures Enabled(s, e) && Inv(Step(s, e)) && Quiet(Step(s, e)) && Onwards(s, Step(s, e))
    ensures !Awaited(Step(s, e))
  {
    var j := s.main.j;
    if j < |s.customers| {
      e := CustomerTurn(j, 0);
      assert CustomerInv(s, j);
      SumUpdate(s.customers, j, Step(s, e).customers[j], Owed);
    } else {
      e := SupplierTurn(j - |s.customers|, 0, 1);
      assert SupplierInv(s, j - |s.customers|);
    }
    StepKeepsInv(s, e);
  }

  lemma {:induction false} AllAreJoined(s: State) returns (es: seq<Event>, t: State)
    requires Inv(s) && Quiet(s) && |s.shops| > 0 && |s.suppliers| > 0 && s.main.Joining?
    requires s.satisfied || s.suppliers[0].cap > 0
    ensures Run(s, es, t) && SameSizes(s, t) && t.main == Joining(|s.customers| + |s.suppliers|)
    decreases |s.customers| + |s.suppliers| - s.main.j, TotalOwed(s), Awaited(s)
  {
    var j := s.main.j;
    if j == |s.customers| + |s.suppliers| {
      es, t := [], s;
    } else if Awaited(s) && j < |s.customers| && s.customers[j].demand > 0 {
      assert CustomerInv(s, j);
      var visits, u := SomeDemandIsMet(s, j);
      var rest;
      rest, t := AllAreJoined(u);
      RunConcat(s, visits, u, rest, t);
      es := visits + rest;
    } else {
      var e := MainTurn(0);
      if Awaited(s) {
        e := AwaitedLeaves(s);
      } else {
        StepKeepsInv(s, e);
      }
      var rest;
      rest, t := AllAreJoined(Step(s, e));
      RunCons(s, e, rest, t);
      es := [e] + rest;
    }
  }

  /** From any state with everybody created and outside: the first supplier gets a load, then the joins go through. */
  lemma DayEnds(s: State) returns (es: seq<Event>, t: State)
    requires Inv(s) && Quiet(s) && |s.shops| > 0 && |s.suppliers| > 0 && s.main.Joining?
    ensures Run(s, es, t) && SameSizes(s, t) && t.main == Joining(|s.customers| + |s.suppliers|)
  {
    if s.satisfied {
      es, t := AllAreJoined(s);
    } else {
      assert SupplierInv(s, 0);
      var visit, u := SupplierVisits(s, 0);
      var rest;
      rest, t := AllAreJoined(u);
      RunConcat(s, visit, u, rest, t);
      es := visit + rest;
    }
  }

  /** The same from any state the invariant allows. */
  lemma DayEndsFrom(s: State) returns (es: seq<Event>, t: State)
    requires Inv(s) && |s.shops| > 0 && |s.suppliers| > 0
    ensures Run(s, es, t) && SameSizes(s, t) && t.main == Joining(|s.customers| + |s.suppliers|)
  {
    var created, u := AllAreCreated(s);
    var out, v := AllComeOut(u);
    var rest;
    rest, t := DayEnds(v);
    RunConcat(u, out, v, rest, t);
    RunConcat(s, created, u, out + rest, t);
    es := created + (out + rest);
  }

  /**
   * Whatever the threads have done, the day can still end: with a shop and a supplier, every run goes on to one in
   * which the main thread has joined every customer and every supplier.
   */
  lemma EveryRunCanEnd(s: State, es: seq<Event>, t: State) returns (fs: seq<Event>, u: State)
    requires Start(s) && |s.shops| > 0 && |s.suppliers| > 0 && Run(s, es, t)
    ensures Run(t, fs, u) && u.main == Joining(|t.customers| + |t.suppliers|)
    ensures Run(s, es + fs, u)
    ensures forall k :: 0 <= k < |u.customers| ==> u.customers[k].pc == Done
    ensures forall p :: 0 <= p < |u.suppliers| ==> u.suppliers[p].pc == Stopped
  {
    StartInv(s);
    RunConserves(s, es, t);
    fs, u := DayEndsFrom(t);
    RunConcat(s, es, t, fs, u);
    BooksBalanceAfterJoins(s, es + fs, u);
  }
}
