// Customers who empty shops and suppliers who restock them, one mutex per shop, and the main thread that creates them
// all, hands out demands and loads, and joins them. Every access to a shared variable is a step of its own, for any
// number of shops, customers and suppliers.

module Shops {

  const MAX_DEMAND := 10000
  const MAX_LOAD := 1000

  datatype Thread = Nobody | Customer(k: nat) | Supplier(p: nat)

  /** `taken` is the stock already subtracted from the demand but not yet cleared from the shelf. */
  datatype CustomerPc = Absent | Outside | Queueing(i: nat) | Entered(i: nat) | Subtracted(i: nat, taken: int)
                      | Cleared(i: nat) | Done

  datatype CustomerRec = CustomerRec(demand: int, pc: CustomerPc)

  /** `seen` is the stock the supplier has read, `load` the load it has read and is about to add. */
  datatype SupplierPc = Unhired | Away | Waiting(i: nat) | Inside(i: nat) | Looked(i: nat, seen: int)
                      | Loaded(i: nat, seen: int, load: int) | Restocked(i: nat) | Recapped(i: nat) | Stopped

  datatype SupplierRec = SupplierRec(cap: int, pc: SupplierPc)

  datatype Shop = Shop(stock: int, holder: Thread)

  /** The main thread creates a thread and then stores its demand or load; at the end it joins, customers first. */
  datatype Main = Creating(k: nat) | Assigning(k: nat) | Hiring(p: nat) | Loading(p: nat) | Joining(j: nat)

  /**
   * Three fields are history: all that was ever `supplied`, the sum of the demands `ordered`, and the customers who
   * had already left when a positive demand was stored for them.
   */
  datatype State = State(shops: seq<Shop>, customers: seq<CustomerRec>, suppliers: seq<SupplierRec>, main: Main,
                         satisfied: bool, supplied: int, ordered: int, missed: set<nat>)

  /** A thread's turn. `i` is the shop it picks, `cap` and `drawn` the random number it draws, where it needs one. */
  datatype Event = CustomerTurn(k: nat, i: nat) | SupplierTurn(p: nat, i: nat, cap: int) | MainTurn(drawn: int)

  /** The indices of a turn exist. Those inside a thread's place always do: CustomerInv and SupplierInv. */
  predicate InRange(s: State, e: Event) {
    match e
    case CustomerTurn(k, i) =>
      && k < |s.customers| && i < |s.shops|
      && (s.customers[k].pc.Absent? || s.customers[k].pc.Outside? || s.customers[k].pc.Done?
          || s.customers[k].pc.i < |s.shops|)
    case SupplierTurn(p, i, cap) =>
      && p < |s.suppliers| && i < |s.shops| && 0 <= cap < MAX_LOAD
      && (s.suppliers[p].pc.Unhired? || s.suppliers[p].pc.Away? || s.suppliers[p].pc.Stopped?
          || s.suppliers[p].pc.i < |s.shops|)
    case MainTurn(drawn) =>
      match s.main
      case Creating(k) => k < |s.customers|
      case Assigning(k) => k < |s.customers| && 0 <= drawn < MAX_DEMAND
      case Hiring(p) => p < |s.suppliers|
      case Loading(p) => p < |s.suppliers| && 0 <= drawn < MAX_LOAD
      case Joining(j) => j < |s.customers| + |s.suppliers|
  }

  /** A thread moves once it is created, until it has finished or waits for a mutex; a join waits for its thread. */
  predicate Enabled(s: State, e: Event) {
    InRange(s, e) &&
    match e
    case CustomerTurn(k, _) =>
      var pc := s.customers[k].pc;
      pc != Absent && pc != Done && (pc.Queueing? ==> s.shops[pc.i].holder == Nobody)
    case SupplierTurn(p, _, _) =>
      var pc := s.suppliers[p].pc;
      pc != Unhired && pc != Stopped && (pc.Waiting? ==> s.shops[pc.i].holder == Nobody)
    case MainTurn(_) =>
      s.main.Joining? ==>
        if s.main.j < |s.customers| then s.customers[s.main.j].pc == Done
        else s.suppliers[s.main.j - |s.customers|].pc == Stopped
  }

  function WithCustomer(s: State, k: nat, c: CustomerRec): State
    requires k < |s.customers|
  {
    s.(customers := s.customers[k := c])
  }

  function WithSupplier(s: State, p: nat, c: SupplierRec): State
    requires p < |s.suppliers|
  {
    s.(suppliers := s.suppliers[p := c])
  }

  function WithShop(s: State, i: nat, h: Shop): State
    requires i < |s.shops|
  {
    s.(shops := s.shops[i := h])
  }

  /** customer_routine */
  function CustomerStep(s: State, k: nat, i: nat): State
    requires Enabled(s, CustomerTurn(k, i))
  {
    var c := s.customers[k];
    match c.pc
    case Outside => WithCustomer(s, k, c.(pc := if c.demand > 0 then Queueing(i) else Done))
    case Queueing(j) => WithShop(WithCustomer(s, k, c.(pc := Entered(j))), j, s.shops[j].(holder := Customer(k)))
    case Entered(j) =>
      WithCustomer(s, k, CustomerRec(c.demand - s.shops[j].stock, Subtracted(j, s.shops[j].stock)))
    case Subtracted(j, _) => WithShop(WithCustomer(s, k, c.(pc := Cleared(j))), j, s.shops[j].(stock := 0))
    case Cleared(j) => WithShop(WithCustomer(s, k, c.(pc := Outside)), j, s.shops[j].(holder := Nobody))
  }

  /** supplier_routine */
  function SupplierStep(s: State, p: nat, i: nat, cap: int): State
    requires Enabled(s, SupplierTurn(p, i, cap))
  {
    var c := s.suppliers[p];
    match c.pc
    case Away => WithSupplier(s, p, c.(pc := if s.satisfied then Stopped else Waiting(i)))
    case Waiting(j) => WithShop(WithSupplier(s, p, c.(pc := Inside(j))), j, s.shops[j].(holder := Supplier(p)))
    case Inside(j) => WithSupplier(s, p, c.(pc := Looked(j, s.shops[j].stock)))
    case Looked(j, seen) => WithSupplier(s, p, c.(pc := Loaded(j, seen, c.cap)))
    case Loaded(j, seen, load) =>
      WithShop(WithSupplier(s, p, c.(pc := Restocked(j))), j, s.shops[j].(stock := seen + load))
        .(supplied := s.supplied + load)
    case Restocked(j) => WithSupplier(s, p, SupplierRec(cap, Recapped(j)))
    case Recapped(j) => WithShop(WithSupplier(s, p, c.(pc := Away)), j, s.shops[j].(holder := Nobody))
  }

  function HireFrom(s: State, p: nat): Main {
    if p < |s.suppliers| then Hiring(p) else Joining(0)
  }

  function CreateFrom(s: State, k: nat): Main {
    if k < |s.customers| then Creating(k) else HireFrom(s, 0)
  }

  /** shop_task */
  function MainStep(s: State, drawn: int): State
    requires Enabled(s, MainTurn(drawn))
  {
    match s.main
    case Creating(k) => WithCustomer(s, k, s.customers[k].(pc := Outside)).(main := Assigning(k))
    case Assigning(k) =>
      WithCustomer(s, k, s.customers[k].(demand := drawn))
        .(main := CreateFrom(s, k + 1), ordered := s.ordered + drawn,
          missed := if s.customers[k].pc == Done && drawn > 0 then s.missed + {k} else s.missed)
    case Hiring(p) => WithSupplier(s, p, s.suppliers[p].(pc := Away)).(main := Loading(p))
    case Loading(p) => WithSupplier(s, p, s.suppliers[p].(cap := drawn)).(main := HireFrom(s, p + 1))
    case Joining(j) => s.(main := Joining(j + 1), satisfied := s.satisfied || j + 1 == |s.customers|)
  }

  function Step(s: State, e: Event): State
    requires Enabled(s, e)
  {
    match e
    case CustomerTurn(k, i) => CustomerStep(s, k, i)
    case SupplierTurn(p, i, cap) => SupplierStep(s, p, i, cap)
    case MainTurn(drawn) => MainStep(s, drawn)
  }

  ghost predicate Run(s: State, es: seq<Event>, t: State)
    decreases |es|
  {
    if es == [] then t == s else Enabled(s, es[0]) && Run(Step(s, es[0]), es[1..], t)
  }

  lemma RunCons(s: State, e: Event, es: seq<Event>, t: State)
    requires Enabled(s, e) && Run(Step(s, e), es, t)
    ensures Run(s, [e] + es, t)
  {
    assert ([e] + es)[1..] == es;
  }

  /** No thread exists yet, no mutex is held, the static arrays of demands and loads hold zeros. */
  ghost predicate Start(s: State) {
    && |s.customers| > 0 && s.main == Creating(0) && !s.satisfied
    && s.supplied == 0 && s.ordered == 0 && s.missed == {}
    && (forall i :: 0 <= i < |s.shops| ==> s.shops[i].holder == Nobody && s.shops[i].stock >= 0)
    && (forall k :: 0 <= k < |s.customers| ==> s.customers[k] == CustomerRec(0, Absent))
    && (forall p :: 0 <= p < |s.suppliers| ==> s.suppliers[p] == SupplierRec(0, Unhired))
  }

  // ----- sums -----

  function Sum<T>(xs: seq<T>, f: T -> int): int {
    if xs == [] then 0 else f(xs[0]) + Sum(xs[1..], f)
  }

  lemma {:induction false} SumUpdate<T>(xs: seq<T>, i: nat, x: T, f: T -> int)
    requires i < |xs|
    ensures Sum(xs[i := x], f) == Sum(xs, f) - f(xs[i]) + f(x)
  {
    if i == 0 {
      assert xs[0 := x][1..] == xs[1..];
    } else {
      SumUpdate(xs[1..], i - 1, x, f);
      assert xs[i := x][1..] == xs[1..][i - 1 := x];
    }
  }

  lemma {:induction false} SumOfZeros<T>(xs: seq<T>, f: T -> int)
    requires forall k :: 0 <= k < |xs| ==> f(xs[k]) == 0
    ensures Sum(xs, f) == 0
  {
    if xs == [] {
    } else {
      SumOfZeros(xs[1..], f);
    }
  }

  function Stock(h: Shop): int { h.stock }
  function Demand(c: CustomerRec): int { c.demand }
  function Taken(c: CustomerRec): int { if c.pc.Subtracted? then c.pc.taken else 0 }

  function TotalStock(s: State): int { Sum(s.shops, Stock) }
  function TotalDemand(s: State): int { Sum(s.customers, Demand) }

  /** Stock counted twice: off a customer's demand and still on the shelf. */
  function InFlight(s: State): int { Sum(s.customers, Taken) }

  // ----- the invariant -----

  function ShopOfCustomer(pc: CustomerPc): (r: int) {
    if pc.Entered? || pc.Subtracted? || pc.Cleared? then pc.i else -1
  }

  function ShopOfSupplier(pc: SupplierPc): (r: int) {
    if pc.Inside? || pc.Looked? || pc.Loaded? || pc.Restocked? || pc.Recapped? then pc.i else -1
  }

  /** Customers below this exist. */
  function Created(s: State): nat {
    match s.main
    case Creating(k) => k
    case Assigning(k) => k + 1
    case _ => |s.customers|
  }

  /** Customers below this have been given their demand. */
  function Assigned(s: State): nat {
    match s.main
    case Creating(k) => k
    case Assigning(k) => k
    case _ => |s.customers|
  }

  /** Suppliers below this exist. */
  function Hired(s: State): nat {
    match s.main
    case Hiring(p) => p
    case Loading(p) => p + 1
    case Joining(_) => |s.suppliers|
    case _ => 0
  }

  /** A customer without its demand has only seen the zero; one that has left was satisfied or is among the missed. */
  ghost predicate CustomerInv(s: State, k: nat)
    requires k < |s.customers|
  {
    var c := s.customers[k];
    && (c.pc.Absent? || c.pc.Outside? || c.pc.Done? || c.pc.i < |s.shops|)
    && (c.pc.Absent? <==> Created(s) <= k)
    && (Assigned(s) <= k ==> c.demand == 0 && (c.pc.Absent? || c.pc.Outside? || c.pc.Done?))
    && (c.pc.Done? ==> (c.demand > 0 <==> k in s.missed))
    && (k in s.missed ==> c.pc.Done?)
    && (c.pc.Subtracted? ==> c.pc.taken == s.shops[c.pc.i].stock)
    && forall i :: 0 <= i < |s.shops| ==> (s.shops[i].holder == Customer(k) <==> ShopOfCustomer(c.pc) == i)
  }

  ghost predicate SupplierInv(s: State, p: nat)
    requires p < |s.suppliers|
  {
    var c := s.suppliers[p];
    && c.cap >= 0
    && (c.pc.Unhired? || c.pc.Away? || c.pc.Stopped? || c.pc.i < |s.shops|)
    && (c.pc.Unhired? <==> Hired(s) <= p)
    && (c.pc.Stopped? ==> s.satisfied)
    && (c.pc.Looked? || c.pc.Loaded? ==> c.pc.seen == s.shops[c.pc.i].stock)
    && (c.pc.Loaded? ==> c.pc.load >= 0)
    && forall i :: 0 <= i < |s.shops| ==> (s.shops[i].holder == Supplier(p) <==> ShopOfSupplier(c.pc) == i)
  }

  ghost predicate MainInv(s: State) {
    match s.main
    case Creating(k) => k < |s.customers| && !s.satisfied
    case Assigning(k) => k < |s.customers| && !s.satisfied
    case Hiring(p) => p < |s.suppliers| && !s.satisfied
    case Loading(p) => p < |s.suppliers| && !s.satisfied
    case Joining(j) =>
      && j <= |s.customers| + |s.suppliers|
      && (s.satisfied <==> j >= |s.customers|)
      && (forall k :: 0 <= k < |s.customers| && k < j ==> s.customers[k].pc == Done)
      && (forall p :: 0 <= p < |s.suppliers| && |s.customers| + p < j ==> s.suppliers[p].pc == Stopped)
  }

  /** A mutex is held by one of the threads, if by anyone. */
  predicate HolderExists(s: State, h: Thread) {
    (h.Customer? ==> h.k < |s.customers|) && (h.Supplier? ==> h.p < |s.suppliers|)
  }

  ghost predicate Inv(s: State) {
    && (forall i :: 0 <= i < |s.shops| ==> s.shops[i].stock >= 0 && HolderExists(s, s.shops[i].holder))
    && (forall k :: 0 <= k < |s.customers| ==> CustomerInv(s, k))
    && (forall p :: 0 <= p < |s.suppliers| ==> SupplierInv(s, p))
    && (forall k :: k in s.missed ==> k < |s.customers|)
    && |s.customers| > 0 && MainInv(s)
  }

  lemma StartInv(s: State)
    requires Start(s)
    ensures Inv(s)
  {
  }

  lemma CustomerKeepsCustomer(s: State, k: nat, i: nat, k': nat)
    requires Inv(s) && Enabled(s, CustomerTurn(k, i)) && k' < |s.customers|
    ensures CustomerInv(CustomerStep(s, k, i), k')
  {
    assert CustomerInv(s, k) && CustomerInv(s, k');
  }

  lemma CustomerKeepsSupplier(s: State, k: nat, i: nat, p: nat)
    requires Inv(s) && Enabled(s, CustomerTurn(k, i)) && p < |s.suppliers|
    ensures SupplierInv(CustomerStep(s, k, i), p)
  {
    assert CustomerInv(s, k) && SupplierInv(s, p);
  }

  lemma SupplierKeepsCustomer(s: State, p: nat, i: nat, cap: int, k: nat)
    requires Inv(s) && Enabled(s, SupplierTurn(p, i, cap)) && k < |s.customers|
    ensures CustomerInv(SupplierStep(s, p, i, cap), k)
  {
    assert SupplierInv(s, p) && CustomerInv(s, k);
  }

  lemma SupplierKeepsItself(s: State, p: nat, i: nat, cap: int)
    requires Inv(s) && Enabled(s, SupplierTurn(p, i, cap))
    ensures SupplierInv(SupplierStep(s, p, i, cap), p)
  {
    assert SupplierInv(s, p);
  }

  lemma SupplierKeepsOther(s: State, p: nat, i: nat, cap: int, p': nat)
    requires Inv(s) && Enabled(s, SupplierTurn(p, i, cap)) && p' < |s.suppliers| && p' != p
    ensures SupplierInv(SupplierStep(s, p, i, cap), p')
  {
    assert SupplierInv(s, p) && SupplierInv(s, p');
    var t := SupplierStep(s, p, i, cap);
    var pc := s.suppliers[p].pc;
    if pc.Away? {
      assert t.shops == s.shops;
    } else {
      assert forall j :: 0 <= j < |s.shops| && j != pc.i ==> t.shops[j] == s.shops[j];
    }
  }

  lemma CustomerKeepsInv(s: State, k: nat, i: nat)
    requires Inv(s) && Enabled(s, CustomerTurn(k, i))
    ensures Inv(CustomerStep(s, k, i))
  {
    var t := CustomerStep(s, k, i);
    forall k' | 0 <= k' < |t.customers| ensures CustomerInv(t, k') {
      CustomerKeepsCustomer(s, k, i, k');
    }
    forall p | 0 <= p < |t.suppliers| ensures SupplierInv(t, p) {
      CustomerKeepsSupplier(s, k, i, p);
    }
  }

  lemma SupplierKeepsInv(s: State, p: nat, i: nat, cap: int)
    requires Inv(s) && Enabled(s, SupplierTurn(p, i, cap))
    ensures Inv(SupplierStep(s, p, i, cap))
  {
    var t := SupplierStep(s, p, i, cap);
    assert SupplierInv(s, p);
    forall k | 0 <= k < |t.customers| ensures CustomerInv(t, k) {
      SupplierKeepsCustomer(s, p, i, cap, k);
    }
    forall p' | 0 <= p' < |t.suppliers| ensures SupplierInv(t, p') {
      if p' == p {
        SupplierKeepsItself(s, p, i, cap);
      } else {
        SupplierKeepsOther(s, p, i, cap, p');
      }
    }
  }

  lemma MainKeepsCustomer(s: State, drawn: int, k: nat)
    requires Inv(s) && Enabled(s, MainTurn(drawn)) && k < |s.customers|
    ensures CustomerInv(MainStep(s, drawn), k)
  {
    assert CustomerInv(s, k);
  }

  lemma MainKeepsSupplier(s: State, drawn: int, p: nat)
    requires Inv(s) && Enabled(s, MainTurn(drawn)) && p < |s.suppliers|
    ensures SupplierInv(MainStep(s, drawn), p)
  {
    assert SupplierInv(s, p);
  }

  lemma MainKeepsInv(s: State, drawn: int)
    requires Inv(s) && Enabled(s, MainTurn(drawn))
    ensures Inv(MainStep(s, drawn))
  {
    var t := MainStep(s, drawn);
    forall k | 0 <= k < |t.customers| ensures CustomerInv(t, k) {
      MainKeepsCustomer(s, drawn, k);
    }
    forall p | 0 <= p < |t.suppliers| ensures SupplierInv(t, p) {
      MainKeepsSupplier(s, drawn, p);
    }
  }

  lemma StepKeepsInv(s: State, e: Event)
    requires Inv(s) && Enabled(s, e)
    ensures Inv(Step(s, e))
  {
    match e
    case CustomerTurn(k, i) => CustomerKeepsInv(s, k, i);
    case SupplierTurn(p, i, cap) => SupplierKeepsInv(s, p, i, cap);
    case MainTurn(drawn) => MainKeepsInv(s, drawn);
  }

  // ----- conservation -----

  /** What a step must not change. */
  function Balance(s: State): int { TotalStock(s) - InFlight(s) - TotalDemand(s) - s.supplied + s.ordered }

  lemma CustomerConserves(s: State, k: nat, i: nat)
    requires Inv(s) && Enabled(s, CustomerTurn(k, i))
    ensures Balance(CustomerStep(s, k, i)) == Balance(s)
  {
    var t := CustomerStep(s, k, i);
    assert CustomerInv(s, k);
    SumUpdate(s.customers, k, t.customers[k], Demand);
    SumUpdate(s.customers, k, t.customers[k], Taken);
    var pc := s.customers[k].pc;
    if !pc.Outside? {
      SumUpdate(s.shops, pc.i, t.shops[pc.i], Stock);
      assert t.shops == s.shops[pc.i := t.shops[pc.i]];
    }
    assert t.customers == s.customers[k := t.customers[k]];
  }

  lemma SupplierConserves(s: State, p: nat, i: nat, cap: int)
    requires Inv(s) && Enabled(s, SupplierTurn(p, i, cap))
    ensures Balance(SupplierStep(s, p, i, cap)) == Balance(s)
  {
    var t := SupplierStep(s, p, i, cap);
    assert SupplierInv(s, p);
    var pc := s.suppliers[p].pc;
    if !pc.Away? {
      SumUpdate(s.shops, pc.i, t.shops[pc.i], Stock);
      assert t.shops == s.shops[pc.i := t.shops[pc.i]];
    }
  }

  lemma MainConserves(s: State, drawn: int)
    requires Inv(s) && Enabled(s, MainTurn(drawn))
    ensures Balance(MainStep(s, drawn)) == Balance(s)
  {
    var t := MainStep(s, drawn);
    if s.main.Creating? || s.main.Assigning? {
      var k := s.main.k;
      assert CustomerInv(s, k);
      SumUpdate(s.customers, k, t.customers[k], Demand);
      SumUpdate(s.customers, k, t.customers[k], Taken);
    }
  }

  predicate SameSizes(s: State, t: State) {
    |t.shops| == |s.shops| && |t.customers| == |s.customers| && |t.suppliers| == |s.suppliers|
  }

  lemma StepConserves(s: State, e: Event)
    requires Inv(s) && Enabled(s, e)
    ensures Balance(Step(s, e)) == Balance(s) && SameSizes(s, Step(s, e))
  {
    match e
    case CustomerTurn(k, i) => CustomerConserves(s, k, i);
    case SupplierTurn(p, i, cap) => SupplierConserves(s, p, i, cap);
    case MainTurn(drawn) => MainConserves(s, drawn);
  }

  lemma {:induction false} RunConserves(s: State, es: seq<Event>, t: State)
    requires Inv(s) && Run(s, es, t)
    ensures Inv(t) && Balance(t) == Balance(s) && SameSizes(s, t)
    decreases |es|
  {
    if es == [] {
    } else {
      var u := Step(s, es[0]);
      StepKeepsInv(s, es[0]);
      StepConserves(s, es[0]);
      RunConserves(u, es[1..], t);
    }
  }

  /**
   * Conservation, in every interleaving: of the demand handed out so far, what has been met, plus what is on the
   * shelves, less the stock a customer has taken but not yet cleared, is the initial stock plus everything supplied.
   * Handing out a demand late costs nothing here: a customer who has not been given one never enters a shop.
   */
  lemma StockIsConserved(s: State, es: seq<Event>, t: State)
    requires Start(s) && Run(s, es, t)
    ensures (t.ordered - TotalDemand(t)) + TotalStock(t) - InFlight(t) == TotalStock(s) + t.supplied
  {
    StartInv(s);
    SumOfZeros(s.customers, Demand);
    SumOfZeros(s.customers, Taken);
    RunConserves(s, es, t);
  }

  lemma CustomerHolds(s: State, k: nat)
    requires Inv(s) && k < |s.customers| && ShopOfCustomer(s.customers[k].pc) >= 0
    ensures ShopOfCustomer(s.customers[k].pc) < |s.shops|
    ensures s.shops[ShopOfCustomer(s.customers[k].pc)].holder == Customer(k)
  {
    assert CustomerInv(s, k);
  }

  lemma SupplierHolds(s: State, p: nat)
    requires Inv(s) && p < |s.suppliers| && ShopOfSupplier(s.suppliers[p].pc) >= 0
    ensures ShopOfSupplier(s.suppliers[p].pc) < |s.shops|
    ensures s.shops[ShopOfSupplier(s.suppliers[p].pc)].holder == Supplier(p)
  {
    assert SupplierInv(s, p);
  }

  /** No two threads are inside the same shop, and shelves never go negative. */
  lemma ShopsAreExclusive(s: State, es: seq<Event>, t: State)
    requires Start(s) && Run(s, es, t)
    ensures forall k, k' :: 0 <= k < k' < |t.customers| && ShopOfCustomer(t.customers[k].pc) >= 0 ==>
              ShopOfCustomer(t.customers[k].pc) != ShopOfCustomer(t.customers[k'].pc)
    ensures forall k, p :: 0 <= k < |t.customers| && 0 <= p < |t.suppliers|
                           && ShopOfCustomer(t.customers[k].pc) >= 0 ==>
              ShopOfCustomer(t.customers[k].pc) != ShopOfSupplier(t.suppliers[p].pc)
    ensures forall p, p' :: 0 <= p < p' < |t.suppliers| && ShopOfSupplier(t.suppliers[p].pc) >= 0 ==>
              ShopOfSupplier(t.suppliers[p].pc) != ShopOfSupplier(t.suppliers[p'].pc)
    ensures forall i :: 0 <= i < |t.shops| ==> t.shops[i].stock >= 0
  {
    StartInv(s);
    RunConserves(s, es, t);
    forall k | 0 <= k < |t.customers| && ShopOfCustomer(t.customers[k].pc) >= 0
      ensures 0 <= ShopOfCustomer(t.customers[k].pc) < |t.shops|
              && t.shops[ShopOfCustomer(t.customers[k].pc)].holder == Customer(k)
    {
      CustomerHolds(t, k);
    }
    forall p | 0 <= p < |t.suppliers| && ShopOfSupplier(t.suppliers[p].pc) >= 0
      ensures 0 <= ShopOfSupplier(t.suppliers[p].pc) < |t.shops|
              && t.shops[ShopOfSupplier(t.suppliers[p].pc)].holder == Supplier(p)
    {
      SupplierHolds(t, p);
    }
  }

  /** Once the flag is set, the demands left unmet are those of the customers who left before they were given them. */
  lemma UnmetAreTheMissed(s: State, es: seq<Event>, t: State, k: nat)
    requires Start(s) && Run(s, es, t) && t.satisfied && k < |t.customers|
    ensures t.customers[k].demand > 0 <==> k in t.missed
  {
    StartInv(s);
    RunConserves(s, es, t);
    assert CustomerInv(t, k);
  }

  /**
   * The flag that stops the suppliers means that every demand is met if and only if no customer had already left when
   * its positive demand was stored.
   */
  lemma SatisfiedIsTrueExactlyWhenNobodyMissed(s: State, es: seq<Event>, t: State)
    requires Start(s) && Run(s, es, t) && t.satisfied
    ensures (forall k :: 0 <= k < |t.customers| ==> t.customers[k].demand <= 0) <==> t.missed == {}
  {
    StartInv(s);
    RunConserves(s, es, t);
    forall k | 0 <= k < |t.customers| ensures t.customers[k].demand > 0 <==> k in t.missed {
      UnmetAreTheMissed(s, es, t, k);
    }
    if t.missed != {} {
      var k :| k in t.missed;
      assert t.customers[k].demand > 0;
    }
  }

  /** Once every thread has been joined nobody is inside a shop and the books balance without an in-flight term. */
  lemma BooksBalanceAfterJoins(s: State, es: seq<Event>, t: State)
    requires Start(s) && Run(s, es, t) && t.main == Joining(|t.customers| + |t.suppliers|)
    ensures forall k :: 0 <= k < |t.customers| ==> t.customers[k].pc == Done
    ensures forall p :: 0 <= p < |t.suppliers| ==> t.suppliers[p].pc == Stopped
    ensures (t.ordered - TotalDemand(t)) + TotalStock(t) == TotalStock(s) + t.supplied
  {
    StartInv(s);
    RunConserves(s, es, t);
    StockIsConserved(s, es, t);
    SumOfZeros(t.customers, Taken);
  }

  // ----- a run that misses, for any number of shops, customers and suppliers -----

  lemma {:induction false} RunConcat(s: State, es: seq<Event>, t: State, fs: seq<Event>, u: State)
    requires Run(s, es, t) && Run(t, fs, u)
    ensures Run(s, es + fs, u)
    decreases |es|
  {
    if es == [] {
      assert es + fs == fs;
    } else {
      var e, rest := es[0], es[1..];
      assert (es + fs)[0] == e && (es + fs)[1..] == rest + fs;
      RunConcat(Step(s, e), rest, t, fs, u);
    }
  }

  /** Customer 0 is given a demand of 5, the others one of 0, each after it has left; from j on they do not exist. */
  function LateCustomers(n: nat, j: nat): (r: seq<CustomerRec>)
    ensures |r| == n
  {
    seq(n, i => if i < j then CustomerRec(if i == 0 then 5 else 0, Done) else CustomerRec(0, Absent))
  }

  function LateSuppliers(m: nat, q: nat): (r: seq<SupplierRec>)
    ensures |r| == m
  {
    seq(m, p => SupplierRec(0, if p < q then Away else Unhired))
  }

  function LateState(shops: seq<Shop>, n: nat, m: nat, main: Main, j: nat, q: nat, satisfied: bool): State {
    State(shops, LateCustomers(n, j), LateSuppliers(m, q), main, satisfied, 0,
          if j > 0 then 5 else 0, if j > 0 then {0} else {})
  }

  function Hires(m: nat, q: nat): Main { if q < m then Hiring(q) else Joining(0) }

  function Creates(n: nat, m: nat, j: nat): Main { if j < n then Creating(j) else Hires(m, 0) }

  lemma LateDemand(shops: seq<Shop>, n: nat, m: nat, j: nat, c: State)
    requires j < n && c == LateState(shops, n, m, Assigning(j), j, 0, false).(customers := c.customers)
    requires c.customers == LateCustomers(n, j)[j := CustomerRec(0, Done)]
    ensures var d := if j == 0 then 5 else 0;
            && Enabled(c, MainTurn(d))
            && Step(c, MainTurn(d)) == LateState(shops, n, m, Creates(n, m, j + 1), j + 1, 0, false)
  {
    var d := if j == 0 then 5 else 0;
    assert c.customers[j := CustomerRec(d, Done)] == LateCustomers(n, j + 1);
  }

  // A customer is created, finds the zero and leaves, and only then gets its demand.
  lemma LateCustomer(shops: seq<Shop>, n: nat, m: nat, j: nat) returns (es: seq<Event>)
    requires shops != [] && j < n
    ensures Run(LateState(shops, n, m, Creating(j), j, 0, false), es,
                LateState(shops, n, m, Creates(n, m, j + 1), j + 1, 0, false))
  {
    var d := if j == 0 then 5 else 0;
    var a := LateState(shops, n, m, Creating(j), j, 0, false);
    var b := WithCustomer(a, j, CustomerRec(0, Outside)).(main := Assigning(j));
    var c := WithCustomer(b, j, CustomerRec(0, Done));
    var t := LateState(shops, n, m, Creates(n, m, j + 1), j + 1, 0, false);
    assert Step(a, MainTurn(0)) == b;
    assert Step(b, CustomerTurn(j, 0)) == c;
    LateDemand(shops, n, m, j, c);
    RunCons(c, MainTurn(d), [], t);
    RunCons(b, CustomerTurn(j, 0), [MainTurn(d)] + [], t);
    RunCons(a, MainTurn(0), [CustomerTurn(j, 0)] + ([MainTurn(d)] + []), t);
    es := [MainTurn(0)] + ([CustomerTurn(j, 0)] + ([MainTurn(d)] + []));
  }

  lemma {:induction false} LateCreations(shops: seq<Shop>, n: nat, m: nat, j: nat) returns (es: seq<Event>)
    requires shops != [] && 0 < n && j <= n
    ensures Run(LateState(shops, n, m, Creates(n, m, 0), 0, 0, false), es,
                LateState(shops, n, m, Creates(n, m, j), j, 0, false))
  {
    if j == 0 {
      es := [];
    } else {
      es := LateCreations(shops, n, m, j - 1);
      var fs := LateCustomer(shops, n, m, j - 1);
      RunConcat(LateState(shops, n, m, Creates(n, m, 0), 0, 0, false), es,
                LateState(shops, n, m, Creating(j - 1), j - 1, 0, false), fs,
                LateState(shops, n, m, Creates(n, m, j), j, 0, false));
      es := es + fs;
    }
  }

  lemma LateHire(shops: seq<Shop>, n: nat, m: nat, q: nat) returns (es: seq<Event>)
    requires q < m && 0 < n
    ensures Run(LateState(shops, n, m, Hiring(q), n, q, false), es,
                LateState(shops, n, m, Hires(m, q + 1), n, q + 1, false))
  {
    var a := LateState(shops, n, m, Hiring(q), n, q, false);
    var b := WithSupplier(a, q, SupplierRec(0, Away)).(main := Loading(q));
    var t := LateState(shops, n, m, Hires(m, q + 1), n, q + 1, false);
    assert LateSuppliers(m, q)[q := SupplierRec(0, Away)] == LateSuppliers(m, q + 1);
    assert b.suppliers[q := SupplierRec(0, Away)] == b.suppliers;
    RunCons(b, MainTurn(0), [], t);
    RunCons(a, MainTurn(0), [MainTurn(0)] + [], t);
    es := [MainTurn(0)] + ([MainTurn(0)] + []);
  }

  lemma {:induction false} LateHires(shops: seq<Shop>, n: nat, m: nat, q: nat) returns (es: seq<Event>)
    requires q <= m && 0 < n
    ensures Run(LateState(shops, n, m, Hires(m, 0), n, 0, false), es,
                LateState(shops, n, m, Hires(m, q), n, q, false))
  {
    if q == 0 {
      es := [];
    } else {
      es := LateHires(shops, n, m, q - 1);
      var fs := LateHire(shops, n, m, q - 1);
      RunConcat(LateState(shops, n, m, Hires(m, 0), n, 0, false), es,
                LateState(shops, n, m, Hiring(q - 1), n, q - 1, false), fs,
                LateState(shops, n, m, Hires(m, q), n, q, false));
      es := es + fs;
    }
  }

  lemma {:induction false} LateJoins(shops: seq<Shop>, n: nat, m: nat, j: nat) returns (es: seq<Event>)
    requires j <= n && 0 < n
    ensures Run(LateState(shops, n, m, Joining(0), n, m, false), es,
                LateState(shops, n, m, Joining(j), n, m, j == n))
  {
    if j == 0 {
      es := [];
    } else {
      var a := LateState(shops, n, m, Joining(j - 1), n, m, false);
      var t := LateState(shops, n, m, Joining(j), n, m, j == n);
      es := LateJoins(shops, n, m, j - 1);
      RunCons(a, MainTurn(0), [], t);
      RunConcat(LateState(shops, n, m, Joining(0), n, m, false), es, a, [MainTurn(0)] + [], t);
      es := es + ([MainTurn(0)] + []);
    }
  }

  /**
   * Whatever the numbers of shops, customers and suppliers and the stocks, there is a run that misses: every customer
   * is created, finds the zero in its place and leaves; then customer 0 is given a demand of 5; and after joining the
   * customers the main thread declares everyone satisfied, with nothing sold.
   */
  lemma DemandStoredTooLate(shops: seq<Shop>, n: nat, m: nat) returns (s: State, es: seq<Event>, t: State)
    requires shops != [] && n > 0
    requires forall i :: 0 <= i < |shops| ==> shops[i].holder == Nobody && shops[i].stock >= 0
    ensures s.shops == shops && |s.customers| == n && |s.suppliers| == m && Start(s) && Run(s, es, t)
    ensures t.satisfied && t.missed == {0} && |t.customers| == n && t.customers[0] == CustomerRec(5, Done)
    ensures t.shops == shops
  {
    s := LateState(shops, n, m, Creates(n, m, 0), 0, 0, false);
    var u := LateState(shops, n, m, Hires(m, 0), n, 0, false);
    var v := LateState(shops, n, m, Joining(0), n, m, false);
    t := LateState(shops, n, m, Joining(n), n, m, true);
    es := LateCreations(shops, n, m, n);
    var fs := LateHires(shops, n, m, m);
    RunConcat(s, es, u, fs, v);
    es := es + fs;
    fs := LateJoins(shops, n, m, n);
    RunConcat(s, es, v, fs, t);
    es := es + fs;
  }

  // ----- progress -----

  /** The thread holding shop i's mutex can move, so whoever queues for it is not stuck for ever. */
  lemma HolderCanMove(s: State, i: nat) returns (e: Event)
    requires Inv(s) && i < |s.shops| && s.shops[i].holder != Nobody
    ensures Enabled(s, e)
  {
    match s.shops[i].holder
    case Customer(k) =>
      assert CustomerInv(s, k);
      e := CustomerTurn(k, i);
    case Supplier(p) =>
      assert SupplierInv(s, p);
      e := SupplierTurn(p, i, 0);
  }

  lemma CustomerOrHolderCanMove(s: State, k: nat) returns (e: Event)
    requires Inv(s) && |s.shops| > 0 && k < Created(s) <= |s.customers| && s.customers[k].pc != Done
    ensures Enabled(s, e)
  {
    assert CustomerInv(s, k);
    var pc := s.customers[k].pc;
    if pc.Queueing? && s.shops[pc.i].holder != Nobody {
      e := HolderCanMove(s, pc.i);
    } else {
      e := CustomerTurn(k, 0);
    }
  }

  lemma SupplierOrHolderCanMove(s: State, p: nat) returns (e: Event)
    requires Inv(s) && |s.shops| > 0 && p < Hired(s) <= |s.suppliers| && s.suppliers[p].pc != Stopped
    ensures Enabled(s, e)
  {
    assert SupplierInv(s, p);
    var pc := s.suppliers[p].pc;
    if pc.Waiting? && s.shops[pc.i].holder != Nobody {
      e := HolderCanMove(s, pc.i);
    } else {
      e := SupplierTurn(p, 0, 0);
    }
  }

  /** No interleaving deadlocks: until the main thread has joined every thread, some thread can move. */
  lemma NoDeadlock(s: State, es: seq<Event>, t: State) returns (e: Event)
    requires Start(s) && |s.shops| > 0 && Run(s, es, t) && t.main != Joining(|t.customers| + |t.suppliers|)
    ensures Enabled(t, e)
  {
    StartInv(s);
    RunConserves(s, es, t);
    if !t.main.Joining? {
      e := MainTurn(0);
    } else if t.main.j < |t.customers| {
      if t.customers[t.main.j].pc == Done {
        e := MainTurn(0);
      } else {
        e := CustomerOrHolderCanMove(t, t.main.j);
      }
    } else {
      if t.suppliers[t.main.j - |t.customers|].pc == Stopped {
        e := MainTurn(0);
      } else {
        e := SupplierOrHolderCanMove(t, t.main.j - |t.customers|);
      }
    }
  }

  // ----- loop tests and random numbers -----

  /** A customer leaves its loop exactly when its demand is met, a supplier exactly when the flag is set. */
  lemma LoopsEndExactlyWhen(s: State, k: nat, p: nat, i: nat, cap: int)
    requires Inv(s)
    ensures Enabled(s, CustomerTurn(k, i)) && s.customers[k].pc == Outside ==>
              Step(s, CustomerTurn(k, i)).customers[k].pc == if s.customers[k].demand <= 0 then Done else Queueing(i)
    ensures Enabled(s, SupplierTurn(p, i, cap)) && s.suppliers[p].pc == Away ==>
              Step(s, SupplierTurn(p, i, cap)).suppliers[p].pc == if s.satisfied then Stopped else Waiting(i)
  {
  }

  /** A demand changes when it is handed out and when stock is taken, in no other way. */
  lemma DemandChangesExactlyWhen(s: State, e: Event, k: nat)
    requires Inv(s) && Enabled(s, e) && k < |s.customers|
    ensures Step(s, e).customers[k].demand
            == (if e.MainTurn? && s.main == Assigning(k) then e.drawn
                else if e.CustomerTurn? && e.k == k && s.customers[k].pc.Entered?
                     then s.customers[k].demand - s.shops[s.customers[k].pc.i].stock
                else s.customers[k].demand)
  {
    assert CustomerInv(s, k);
  }

  /** A supplier's load is the number drawn last, by the main thread after its creation or by itself after a visit. */
  lemma LoadIsLastDrawn(s: State, e: Event, p: nat)
    requires Inv(s) && Enabled(s, e) && p < |s.suppliers|
    ensures Step(s, e).suppliers[p].cap
            == (if e.MainTurn? && s.main == Loading(p) then e.drawn
                else if e.SupplierTurn? && e.p == p && s.suppliers[p].pc.Restocked? then e.cap
                else s.suppliers[p].cap)
  {
    assert SupplierInv(s, p);
  }

  /** Demands are drawn from 0 to 9999, loads from 0 to 999, shops from all there are, and whatever may be drawn is. */
  lemma EveryDrawIsPossible(s: State, x: int, k: nat, p: nat, i: nat)
    requires Inv(s)
    ensures k < |s.customers| && s.customers[k].pc.Outside? ==> (Enabled(s, CustomerTurn(k, i)) <==> i < |s.shops|)
    ensures p < |s.suppliers| && s.suppliers[p].pc.Away? && 0 <= x < 1000 ==>
              (Enabled(s, SupplierTurn(p, i, x)) <==> i < |s.shops|)
    ensures s.main.Assigning? ==> (Enabled(s, MainTurn(x)) <==> 0 <= x < 10000)
    ensures s.main.Loading? ==> (Enabled(s, MainTurn(x)) <==> 0 <= x < 1000)
    ensures p < |s.suppliers| && s.suppliers[p].pc.Restocked? && i < |s.shops| ==>
              (Enabled(s, SupplierTurn(p, i, x)) <==> 0 <= x < 1000)
  {
    if p < |s.suppliers| {
      assert SupplierInv(s, p);
    }
  }

  // ----- the critical sections, whatever the other threads do in between -----

  /** What a customer's section is to do: demand and shelf fall by the whole shelf. */
  predicate Buys(demand: int, stock: int, demand': int, stock': int) { demand' == demand - stock && stock' == 0 }

  /** What a supplier's section is to do to the shelf. */
  predicate Restocks(stock: int, load: int, stock': int) { stock' == stock + load }

  predicate IsCustomer(e: Event, k: nat) { e.CustomerTurn? && e.k == k }

  predicate IsSupplier(e: Event, p: nat) { e.SupplierTurn? && e.p == p }

  function TurnsOfCustomer(es: seq<Event>, k: nat): nat {
    if es == [] then 0 else (if IsCustomer(es[0], k) then 1 else 0) + TurnsOfCustomer(es[1..], k)
  }

  function TurnsOfSupplier(es: seq<Event>, p: nat): nat {
    if es == [] then 0 else (if IsSupplier(es[0], p) then 1 else 0) + TurnsOfSupplier(es[1..], p)
  }

  /** While customer k is inside shop j the others change neither its demand nor the shelf. */
  lemma OthersLeaveCustomer(s: State, e: Event, k: nat, j: nat)
    requires Inv(s) && Enabled(s, e) && !IsCustomer(e, k)
    requires k < |s.customers| && ShopOfCustomer(s.customers[k].pc) == j
    ensures j < |s.shops| && SameSizes(s, Step(s, e))
    ensures Step(s, e).customers[k] == s.customers[k] && Step(s, e).shops[j] == s.shops[j]
  {
    assert CustomerInv(s, k);
    match e
    case CustomerTurn(k', _) => assert CustomerInv(s, k');
    case SupplierTurn(p, _, _) => assert SupplierInv(s, p);
    case MainTurn(_) =>
  }

  /** While supplier p is inside shop j the others change neither its place nor the shelf. */
  lemma OthersLeaveSupplier(s: State, e: Event, p: nat, j: nat)
    requires Inv(s) && Enabled(s, e) && !IsSupplier(e, p)
    requires p < |s.suppliers| && ShopOfSupplier(s.suppliers[p].pc) == j
    ensures j < |s.shops| && SameSizes(s, Step(s, e))
    ensures Step(s, e).suppliers[p].pc == s.suppliers[p].pc && Step(s, e).shops[j] == s.shops[j]
  {
    assert SupplierInv(s, p);
    match e
    case CustomerTurn(k, _) => assert CustomerInv(s, k);
    case SupplierTurn(p', _, _) => assert SupplierInv(s, p');
    case MainTurn(_) =>
  }

  /** Turns left before a customer inside a shop is ready to unlock. */
  function TurnsToBuy(pc: CustomerPc): nat {
    if pc.Entered? then 2 else if pc.Subtracted? then 1 else 0
  }

  function Bought(c: CustomerRec, stock: int): int {
    if c.pc.Entered? then c.demand - stock else c.demand
  }

  lemma {:induction false} VisitFrom(s: State, es: seq<Event>, t: State, k: nat, j: nat)
    requires Inv(s) && Run(s, es, t)
    requires k < |s.customers| && j < |s.shops| && ShopOfCustomer(s.customers[k].pc) == j
    requires TurnsOfCustomer(es, k) == TurnsToBuy(s.customers[k].pc)
    ensures SameSizes(s, t)
    ensures t.customers[k] == CustomerRec(Bought(s.customers[k], s.shops[j].stock), Cleared(j))
    ensures t.shops[j].stock == if s.customers[k].pc.Cleared? then s.shops[j].stock else 0
    ensures t.shops[j].holder == Customer(k)
    decreases |es|
  {
    assert CustomerInv(s, k);
    if es == [] {
    } else {
      StepKeepsInv(s, es[0]);
      if !IsCustomer(es[0], k) {
        OthersLeaveCustomer(s, es[0], k, j);
      }
      VisitFrom(Step(s, es[0]), es[1..], t, k, j);
    }
  }

  /**
   * A customer's two turns inside shop j do what Market.Buy does, whatever the other threads do before, between and
   * after them until it unlocks.
   */
  lemma VisitIsBuy(s: State, es: seq<Event>, t: State, k: nat, j: nat)
    requires Inv(s) && Run(s, es, t)
    requires k < |s.customers| && s.customers[k].pc == Entered(j) && TurnsOfCustomer(es, k) == 2
    ensures j < |s.shops| && SameSizes(s, t)
    ensures t.customers[k] == CustomerRec(s.customers[k].demand - s.shops[j].stock, Cleared(j))
    ensures t.shops[j] == Shop(0, Customer(k))
    ensures Buys(s.customers[k].demand, s.shops[j].stock, t.customers[k].demand, t.shops[j].stock)
  {
    assert CustomerInv(s, k);
    VisitFrom(s, es, t, k, j);
  }

  /** Turns left before a supplier inside a shop is ready to unlock. */
  function TurnsToRestock(pc: SupplierPc): nat {
    match pc
    case Inside(_) => 4
    case Looked(_, _) => 3
    case Loaded(_, _, _) => 2
    case Restocked(_) => 1
    case _ => 0
  }

  /** Up to where it has read its load: the shelf is as it found it. */
  lemma {:induction false} LooksWhile(s: State, es: seq<Event>, u: State, p: nat, j: nat)
    requires Inv(s) && Run(s, es, u)
    requires p < |s.suppliers| && ShopOfSupplier(s.suppliers[p].pc) == j
    requires TurnsOfSupplier(es, p) + 3 == TurnsToRestock(s.suppliers[p].pc)
    ensures j < |s.shops| && Inv(u) && SameSizes(s, u)
    ensures u.suppliers[p].pc == Looked(j, s.shops[j].stock) && u.shops[j] == s.shops[j]
    decreases |es|
  {
    assert SupplierInv(s, p);
    if es == [] {
    } else {
      StepKeepsInv(s, es[0]);
      if !IsSupplier(es[0], p) {
        OthersLeaveSupplier(s, es[0], p, j);
      }
      LooksWhile(Step(s, es[0]), es[1..], u, p, j);
    }
  }

  lemma LoadTurn(s: State, p: nat, i: nat, cap: int, j: nat, seen: int)
    requires Inv(s) && Enabled(s, SupplierTurn(p, i, cap)) && s.suppliers[p].pc == Looked(j, seen)
    ensures var t := SupplierStep(s, p, i, cap);
            Inv(t) && t.shops == s.shops && t.suppliers == s.suppliers[p := SupplierRec(s.suppliers[p].cap,
              Loaded(j, seen, s.suppliers[p].cap))] && |t.customers| == |s.customers|
  {
    StepKeepsInv(s, SupplierTurn(p, i, cap));
  }

  /** From there on the shelf ends at what was seen plus the load read. */
  lemma {:induction false} RestocksWhile(s: State, es: seq<Event>, t: State, p: nat, j: nat)
    requires Inv(s) && Run(s, es, t)
    requires p < |s.suppliers| && j < |s.shops| && ShopOfSupplier(s.suppliers[p].pc) == j
    requires TurnsOfSupplier(es, p) == TurnsToRestock(s.suppliers[p].pc) <= 2
    ensures SameSizes(s, t) && t.suppliers[p].pc == Recapped(j) && t.shops[j].holder == Supplier(p)
    ensures t.shops[j].stock == if s.suppliers[p].pc.Loaded? then s.suppliers[p].pc.seen + s.suppliers[p].pc.load
                                else s.shops[j].stock
    decreases |es|
  {
    assert SupplierInv(s, p);
    if es == [] {
    } else {
      StepKeepsInv(s, es[0]);
      if !IsSupplier(es[0], p) {
        OthersLeaveSupplier(s, es[0], p, j);
      }
      RestocksWhile(Step(s, es[0]), es[1..], t, p, j);
    }
  }

  lemma LoadedRestocks(u: State, e: Event, v: State, es: seq<Event>, t: State, p: nat, j: nat)
    requires Inv(u) && Enabled(u, e) && IsSupplier(e, p) && v == Step(u, e) && Run(v, es, t)
    requires j < |u.shops| && u.suppliers[p].pc == Looked(j, u.shops[j].stock) && TurnsOfSupplier(es, p) == 2
    ensures SameSizes(u, t) && t.suppliers[p].pc == Recapped(j)
    ensures t.shops[j] == Shop(u.shops[j].stock + u.suppliers[p].cap, Supplier(p))
  {
    LoadTurn(u, p, e.i, e.cap, j, u.shops[j].stock);
    RestocksWhile(v, es, t, p, j);
  }

  /**
   * A supplier's turns inside shop j do what Market.Restock does, whatever the other threads do in between. The load
   * is the one in its place when it reads it, at its second turn e in state u: the main thread may still be storing
   * the first one.
   */
  lemma VisitIsRestock(s: State, es: seq<Event>, u: State, e: Event, v: State, es': seq<Event>, t: State,
                       p: nat, j: nat)
    requires Inv(s) && p < |s.suppliers| && s.suppliers[p].pc == Inside(j)
    requires Run(s, es, u) && TurnsOfSupplier(es, p) == 1
    requires Enabled(u, e) && IsSupplier(e, p) && v == Step(u, e)
    requires Run(v, es', t) && TurnsOfSupplier(es', p) == 2
    ensures j < |s.shops| && SameSizes(s, t) && t.suppliers[p].pc == Recapped(j)
    ensures t.shops[j] == Shop(s.shops[j].stock + u.suppliers[p].cap, Supplier(p))
    ensures Restocks(s.shops[j].stock, u.suppliers[p].cap, t.shops[j].stock)
  {
    LooksWhile(s, es, u, p, j);
    LoadedRestocks(u, e, v, es', t, p, j);
  }

  function Itself(x: int): int { x }

  function Cells(xs: seq<int>): int { Sum(xs, Itself) }

  class Market {
    var demands: array<int>
    var stocks: array<int>
    var caps: array<int>

    ghost predicate Valid()
      reads this
    {
      demands != stocks && demands != caps && stocks != caps
    }

    constructor (demands: array<int>, stocks: array<int>, caps: array<int>)
      requires demands != stocks && demands != caps && stocks != caps
      ensures Valid() && this.demands == demands && this.stocks == stocks && this.caps == caps
    {
      this.demands, this.stocks, this.caps := demands, stocks, caps;
    }

    // A customer alone in shop i: demand and shelf fall by the same amount.
    method Buy(id: nat, i: nat)
      requires Valid() && id < demands.Length && i < stocks.Length
      modifies demands, stocks
      ensures Buys(old(demands[id]), old(stocks[i]), demands[id], stocks[i])
      ensures demands[..] == old(demands[..])[id := demands[id]] && stocks[..] == old(stocks[..])[i := stocks[i]]
      ensures Cells(stocks[..]) - Cells(demands[..]) == old(Cells(stocks[..]) - Cells(demands[..]))
    {
      SumUpdate(demands[..], id, demands[id] - stocks[i], Itself);
      SumUpdate(stocks[..], i, 0, Itself);
      ghost var ds, ss := demands[..], stocks[..];
      demands[id] := demands[id] - stocks[i];
      assert demands[..] == ds[id := ds[id] - ss[i]];
      stocks[i] := 0;
      assert stocks[..] == ss[i := 0];
    }

    // A supplier alone in shop i: the shelf rises by its load, then it draws the next one.
    method Restock(id: nat, i: nat, next: int)
      requires Valid() && id < caps.Length && i < stocks.Length && 0 <= next < 1000
      modifies stocks, caps
      ensures Restocks(old(stocks[i]), old(caps[id]), stocks[i])
      ensures stocks[..] == old(stocks[..])[i := stocks[i]] && caps[..] == old(caps[..])[id := next]
      ensures Cells(stocks[..]) == old(Cells(stocks[..]) + caps[id])
    {
      SumUpdate(stocks[..], i, stocks[i] + caps[id], Itself);
      ghost var ss, cs := stocks[..], caps[..];
      stocks[i] := stocks[i] + caps[id];
      assert stocks[..] == ss[i := ss[i] + cs[id]];
      caps[id] := next;
      assert caps[..] == cs[id := next];
    }
  }
}
