// The reclaim of the worker-pool server on its arrays of addresses, memcpy included, and what that copy does to the
// runs of the server.

module WorkerPoolAsWritten {
  import opened WorkerPool

  // ----- the reclaim loop over the arrays -----

  lemma TakeLast(a: seq<nat>)
    requires a != []
    ensures multiset(a) == multiset(a[..|a| - 1]) + multiset{a[|a| - 1]}
  {
    assert a == a[..|a| - 1] + [a[|a| - 1]];
  }

  lemma {:induction false} SeenPartitions(occupied: seq<nat>, flags: seq<bool>)
    requires |occupied| == |flags|
    ensures multiset(Seen(occupied, flags, true)) + multiset(Seen(occupied, flags, false)) == multiset(occupied)
  {
    if occupied != [] {
      var n := |occupied| - 1;
      SeenPartitions(occupied[..n], flags[..n]);
      TakeLast(occupied);
    }
  }

  function Pow256(j: nat): (p: nat)
    ensures p > 0
  {
    if j == 0 then 1 else 256 * Pow256(j - 1)
  }

  lemma ModAtMost(x: nat, p: nat)
    requires p > 0
    ensures 0 <= x % p <= x
  {
    if x < p {
      assert x % p == x;
    }
  }

  /** A stored pointer after its j low-order bytes have been overwritten by those of `from`. */
  function Overwritten(to: nat, from: nat, j: nat): nat {
    ModAtMost(to, Pow256(j));
    to - to % Pow256(j) + from % Pow256(j)
  }

  const POINTER_BYTES := 8

  /** How many of the first `bytes` bytes of an array fall into element i. */
  function BytesIn(bytes: nat, i: nat): nat {
    var b := bytes - POINTER_BYTES * i;
    if b <= 0 then 0 else if b < POINTER_BYTES then b else POINTER_BYTES
  }

  /** memcpy(to, from, bytes) on arrays of little-endian pointers, seen at the elements of `from`. */
  function Copied(to: seq<nat>, from: seq<nat>, bytes: nat): (r: seq<nat>)
    requires |from| <= |to|
    ensures |r| == |from|
  {
    seq(|from|, i requires 0 <= i < |from| => Overwritten(to[i], from[i], BytesIn(bytes, i)))
  }

  /** Byte k of a number, the lowest first. */
  function ByteOf(x: nat, k: nat): nat {
    if k == 0 then x % 256 else ByteOf(x / 256, k - 1)
  }

  lemma MultiplesInOrder(p: nat, x: int, y: int)
    ensures x <= y ==> p * x <= p * y
  {
  }

  lemma RemainderIs(x: int, p: int, a: int, f: int)
    requires x == p * a + f && 0 <= f < p
    ensures x % p == f
  {
    MultiplesInOrder(p, x / p + 1, a);
    MultiplesInOrder(p, a + 1, x / p);
  }

  lemma QuotientAndRest(x: nat, p: nat)
    requires p > 0
    ensures x == p * (x / p) + x % p
  {
  }

  lemma Regrouped(q: int, x: int)
    ensures 256 * q * x == 256 * (q * x)
  {
  }

  lemma RemainderByBytes(x: nat, q: nat)
    requires q > 0
    ensures x % (256 * q) == x % 256 + 256 * (x / 256 % q)
  {
    var y := x / 256;
    QuotientAndRest(x, 256);
    QuotientAndRest(y, q);
    Regrouped(q, y / q);
    RemainderIs(x, 256 * q, y / q, x % 256 + 256 * (y % q));
  }

  lemma OverwrittenByBytes(to: nat, from: nat, j: nat)
    requires j > 0
    ensures Overwritten(to, from, j) == from % 256 + 256 * Overwritten(to / 256, from / 256, j - 1)
  {
    var q := Pow256(j - 1);
    RemainderByBytes(to, q);
    RemainderByBytes(from, q);
    QuotientAndRest(to, 256);
  }

  lemma LowByteAndRest(b: nat, y: nat)
    requires b < 256
    ensures (b + 256 * y) % 256 == b && (b + 256 * y) / 256 == y
  {
  }

  lemma {:induction false} OverwrittenBytes(to: nat, from: nat, j: nat, k: nat)
    ensures ByteOf(Overwritten(to, from, j), k) == if k < j then ByteOf(from, k) else ByteOf(to, k)
  {
    if j == 0 {
      assert Pow256(0) == 1;
    } else {
      OverwrittenByBytes(to, from, j);
      LowByteAndRest(from % 256, Overwritten(to / 256, from / 256, j - 1));
      if k > 0 {
        OverwrittenBytes(to / 256, from / 256, j - 1, k - 1);
      }
    }
  }

  /** memcpy, byte by byte: byte k of pointer i lies 8 * i + k bytes into its array; the first `bytes` are copied. */
  lemma CopiedBytes(to: seq<nat>, from: seq<nat>, bytes: nat, i: nat, k: nat)
    requires i < |from| <= |to| && k < 8
    ensures ByteOf(Copied(to, from, bytes)[i], k)
            == if 8 * i + k < bytes then ByteOf(from[i], k) else ByteOf(to[i], k)
  {
    OverwrittenBytes(to[i], from[i], BytesIn(bytes, i), k);
  }

  lemma {:induction false} AllKept(occupied: seq<nat>, flags: seq<bool>, kept: seq<nat>)
    requires |occupied| == |flags| && kept == Seen(occupied, flags, true)
    ensures |kept| == |occupied| ==> kept == occupied && forall i :: 0 <= i < |flags| ==> flags[i]
  {
    if occupied != [] {
      var n := |occupied| - 1;
      SeenLengths(occupied[..n], flags[..n]);
      AllKept(occupied[..n], flags[..n], Seen(occupied[..n], flags[..n], true));
    }
  }

  // The last worker kept comes from position q, which is its own only if nobody before it was freed.
  lemma {:induction false} LastKept(occupied: seq<nat>, flags: seq<bool>, kept: seq<nat>) returns (q: nat)
    requires |occupied| == |flags| && kept == Seen(occupied, flags, true) != []
    ensures |kept| - 1 <= q < |occupied| && occupied[q] == kept[|kept| - 1]
    ensures q == |kept| - 1 ==> forall i :: 0 <= i < |kept| ==> flags[i]
  {
    var n := |occupied| - 1;
    var kept' := Seen(occupied[..n], flags[..n], true);
    if flags[n] {
      q := n;
      SeenLengths(occupied[..n], flags[..n]);
      AllKept(occupied[..n], flags[..n], kept');
    } else {
      assert kept' + [] == kept';
      q := LastKept(occupied[..n], flags[..n], kept);
    }
  }

  lemma {:induction false} KeptCount(occupied: seq<nat>, flags: seq<bool>, m: nat)
    requires |occupied| == |flags| && m <= |flags| && forall i :: 0 <= i < m ==> flags[i]
    ensures m <= |Seen(occupied, flags, true)|
  {
    if |occupied| > m {
      KeptCount(occupied[..|occupied| - 1], flags[..|occupied| - 1], m);
    } else if m > 0 {
      KeptCount(occupied[..m - 1], flags[..m - 1], m - 1);
    }
  }

  lemma {:induction false} PrefixKept(occupied: seq<nat>, flags: seq<bool>, kept: seq<nat>)
    requires |occupied| == |flags| && kept == Seen(occupied, flags, true)
    requires forall i :: 0 <= i < |kept| && i < |flags| ==> flags[i]
    ensures kept <= occupied
  {
    SeenLengths(occupied, flags);
    if occupied != [] {
      var n := |occupied| - 1;
      var kept' := Seen(occupied[..n], flags[..n], true);
      SeenLengths(occupied[..n], flags[..n]);
      if flags[n] {
        assert |kept| == |kept'| + 1;
        PrefixKept(occupied[..n], flags[..n], kept');
        if |kept| <= n {
          KeptCount(occupied[..n], flags[..n], |kept|);
          assert false;
        }
      } else {
        assert kept' + [] == kept';
        PrefixKept(occupied[..n], flags[..n], kept);
      }
    }
  }

  lemma SameOverwritten(x: nat, j: nat)
    ensures Overwritten(x, x, j) == x
  {
  }

  lemma OneByteOverwritten(to: nat, from: nat)
    ensures Overwritten(to, from, 1) == from <==> to / 256 == from / 256
  {
    assert Pow256(1) == 256 * Pow256(0) == 256;
  }

  /** Nothing is kept, nobody was freed in front of a worker kept, or one byte turns the first worker into it. */
  predicate ByteCountSuffices(occupied: seq<nat>, flags: seq<bool>, kept: seq<nat>)
    requires |kept| <= |occupied| == |flags|
  {
    || kept == []
    || (forall i :: 0 <= i < |kept| ==> flags[i])
    || (|kept| == 1 && kept[0] / 256 == occupied[0] / 256)
  }

  /**
   * The memcpy after the scan passes the number of workers kept where a number of bytes is meant. It still rebuilds
   * the occupied list exactly when nothing had to be kept, or nobody was freed in front of a worker kept, or the one
   * worker kept differs from the first in the lowest byte of its address only.
   */
  lemma ByteCountedCopyIsRightExactlyWhen(occupied: seq<nat>, flags: seq<bool>, kept: seq<nat>)
    requires |occupied| == |flags| && kept == Seen(occupied, flags, true) && |kept| <= |occupied|
    requires forall i, j :: 0 <= i < j < |occupied| ==> occupied[i] != occupied[j]
    ensures Copied(occupied, kept, |kept|) == kept <==> ByteCountSuffices(occupied, flags, kept)
  {
    var m, r := |kept|, Copied(occupied, kept, |kept|);
    if forall i :: 0 <= i < m ==> flags[i] {
      PrefixKept(occupied, flags, kept);
      forall i | 0 <= i < m ensures r[i] == kept[i] {
        SameOverwritten(kept[i], BytesIn(m, i));
      }
    } else if m == 1 {
      OneByteOverwritten(occupied[0], kept[0]);
      assert BytesIn(1, 0) == 1;
      assert r == kept <==> r[0] == kept[0];
    } else if m >= 2 {
      var q := LastKept(occupied, flags, kept);
      assert BytesIn(m, m - 1) == 0;
      assert r[m - 1] == occupied[m - 1];
    }
  }

  lemma SeenTake(occupied: seq<nat>, flags: seq<bool>, i: nat, want: bool)
    requires |occupied| == |flags| && i < |occupied|
    ensures Seen(occupied[..i + 1], flags[..i + 1], want)
            == Seen(occupied[..i], flags[..i], want) + if flags[i] == want then [occupied[i]] else []
  {
    assert occupied[..i + 1][..i] == occupied[..i] && flags[..i + 1][..i] == flags[..i];
  }

  // memcpy(to, from, count), which stops after `count` bytes.
  method CopyBytes(to: array<nat>, from: array<nat>, count: nat, ghost before: seq<nat>, ghost source: seq<nat>)
    requires to != from && count <= from.Length && count <= to.Length
    requires count <= |before| <= to.Length && to[..|before|] == before && from[..count] == source
    modifies to
    ensures to[..count] == Copied(before, source, count)
  {
    assert forall i :: 0 <= i < count ==> to[i] == before[i] && from[i] == source[i];
    forall i | 0 <= i < count {
      to[i] := Overwritten(to[i], from[i], BytesIn(count, i));
    }
  }

  // The scanning loop: freed workers go to the free stack, the others to `temp`.
  method SplitOccupied(free: array<nat>, freeCount: nat, occupied: array<nat>, occupiedCount: nat, flags: seq<bool>)
    returns (freeCount': nat, temp: array<nat>, keptCount: nat)
    requires free != occupied && |flags| == occupiedCount <= occupied.Length
    requires freeCount + occupiedCount <= free.Length
    modifies free
    ensures fresh(temp) && temp.Length == occupiedCount
    ensures freeCount' + keptCount == freeCount + occupiedCount && keptCount <= occupiedCount
    ensures free[..freeCount'] == old(free[..freeCount]) + Seen(occupied[..occupiedCount], flags, false)
    ensures temp[..keptCount] == Seen(occupied[..occupiedCount], flags, true)
  {
    ghost var before := occupied[..occupiedCount];
    ghost var freed, kept := [], [];
    temp := new nat[occupiedCount](_ => 0);
    freeCount', keptCount := freeCount, 0;
    for i := 0 to occupiedCount
      invariant freeCount' + keptCount == freeCount + i && keptCount <= i
      invariant freed == Seen(before[..i], flags[..i], false) && kept == Seen(before[..i], flags[..i], true)
      invariant free[..freeCount'] == old(free[..freeCount]) + freed && temp[..keptCount] == kept
    {
      SeenTake(before, flags, i, true);
      SeenTake(before, flags, i, false);
      assert occupied[i] == before[i];
      if !flags[i] {
        free[freeCount'] := occupied[i];
        freeCount' := freeCount' + 1;
        freed := freed + [before[i]];
      } else {
        temp[keptCount] := occupied[i];
        keptCount := keptCount + 1;
        kept := kept + [before[i]];
      }
    }
    assert before[..occupiedCount] == before && flags[..occupiedCount] == flags;
  }

  /**
   * The reclaim loop of man_con_server. Element i of `flags` is what the i-th occupied worker's flag is when the
   * scan reads it. The arrays hold the workers' addresses.
   */
  method Reclaim(free: array<nat>, freeCount: nat, occupied: array<nat>, occupiedCount: nat, flags: seq<bool>)
    returns (freeCount': nat, occupiedCount': nat)
    requires free != occupied && |flags| == occupiedCount <= occupied.Length
    requires freeCount + occupiedCount <= free.Length
    modifies free, occupied
    ensures freeCount' + occupiedCount' == freeCount + occupiedCount
    ensures free[..freeCount'] == old(free[..freeCount]) + Seen(old(occupied[..occupiedCount]), flags, false)
    ensures var kept := Seen(old(occupied[..occupiedCount]), flags, true);
            && occupiedCount' == |kept| <= occupiedCount
            && occupied[..occupiedCount'] == Copied(old(occupied[..occupiedCount]), kept, |kept|)
  {
    var temp;
    freeCount', temp, occupiedCount' := SplitOccupied(free, freeCount, occupied, occupiedCount, flags);
    CopyBytes(occupied, temp, occupiedCount', occupied[..occupiedCount], temp[..occupiedCount']);
  }

  // ----- the server as written, byte count and all -----

  function Addresses(addrs: seq<nat>, ws: seq<nat>): (r: seq<nat>)
    requires forall i :: 0 <= i < |ws| ==> ws[i] < |addrs|
    ensures |r| == |ws|
  {
    seq(|ws|, i requires 0 <= i < |ws| => addrs[ws[i]])
  }

  /** The worker at an address; an index outside the pool if nobody is there. */
  function WorkerAt(addrs: seq<nat>, a: nat): (w: nat)
    ensures if a in addrs then w < |addrs| && addrs[w] == a else w == |addrs|
  {
    if addrs == [] then 0
    else
      var n := |addrs| - 1;
      var w := WorkerAt(addrs[..n], a);
      if w < n then w else if addrs[n] == a then n else n + 1
  }

  function WorkersAt(addrs: seq<nat>, ptrs: seq<nat>): (r: seq<nat>)
    ensures |r| == |ptrs|
  {
    seq(|ptrs|, i requires 0 <= i < |ptrs| => WorkerAt(addrs, ptrs[i]))
  }

  /** The addresses of the pool: one for each worker. */
  predicate PoolAt(addrs: seq<nat>, n: nat) {
    |addrs| == n && forall i, j :: 0 <= i < j < n ==> addrs[i] != addrs[j]
  }

  predicate ScanEnds(s: State, e: Event) {
    e.Dispatch? && s.d.Scan? && |s.d.flags| == |s.occupied|
  }

  /** By its end a scan has followed every pointer of the occupied list. */
  predicate EnabledAsWritten(s: State, e: Event) {
    && InPool(s) && Enabled(s, e)
    && (ScanEnds(s, e) ==>
          && |s.d.kept| <= |s.occupied|
          && (forall i :: 0 <= i < |s.occupied| ==> s.occupied[i] < |s.workers|)
          && (forall i :: 0 <= i < |s.d.kept| ==> s.d.kept[i] < |s.workers|))
  }

  /** As Step, but the scan ends with the byte-counted memcpy on the workers' addresses. */
  function StepAsWritten(addrs: seq<nat>, s: State, e: Event): State
    requires EnabledAsWritten(s, e) && |addrs| == |s.workers|
  {
    if ScanEnds(s, e) then
      var ptrs := Copied(Addresses(addrs, s.occupied), Addresses(addrs, s.d.kept), |s.d.kept|);
      s.(occupied := WorkersAt(addrs, ptrs), d := Receive)
    else Step(s, e)
  }

  ghost predicate RunAsWritten(addrs: seq<nat>, s: State, es: seq<Event>, t: State)
    decreases |es|
  {
    if es == [] then t == s
    else
      && EnabledAsWritten(s, es[0]) && |addrs| == |s.workers|
      && RunAsWritten(addrs, StepAsWritten(addrs, s, es[0]), es[1..], t)
  }

  /** If the scan ends here, its copy is one of those that come out right. */
  predicate Guarded(addrs: seq<nat>, s: State, e: Event)
    requires EnabledAsWritten(s, e) && |addrs| == |s.workers|
  {
    ScanEnds(s, e) ==> ByteCountSuffices(Addresses(addrs, s.occupied), s.d.flags, Addresses(addrs, s.d.kept))
  }

  /** A run as written in which every scan ends that way. */
  ghost predicate GuardedRun(addrs: seq<nat>, s: State, es: seq<Event>, t: State)
    decreases |es|
  {
    if es == [] then t == s
    else
      && EnabledAsWritten(s, es[0]) && |addrs| == |s.workers| && Guarded(addrs, s, es[0])
      && GuardedRun(addrs, StepAsWritten(addrs, s, es[0]), es[1..], t)
  }

  lemma {:induction false} SeenAmong(occupied: seq<nat>, flags: seq<bool>, want: bool)
    requires |occupied| == |flags|
    ensures forall w :: w in Seen(occupied, flags, want) ==> w in occupied
  {
    if occupied == [] {
    } else {
      SeenAmong(occupied[..|occupied| - 1], flags[..|occupied| - 1], want);
    }
  }

  // The scan sees the same whether it looks at workers or at their addresses.
  lemma {:induction false} SeenAtAddresses(addrs: seq<nat>, occupied: seq<nat>, flags: seq<bool>, want: bool)
    requires |occupied| == |flags| && forall i :: 0 <= i < |occupied| ==> occupied[i] < |addrs|
    ensures forall i :: 0 <= i < |Seen(occupied, flags, want)| ==> Seen(occupied, flags, want)[i] < |addrs|
    ensures Seen(Addresses(addrs, occupied), flags, want) == Addresses(addrs, Seen(occupied, flags, want))
  {
    if occupied == [] {
    } else {
      var n := |occupied| - 1;
      SeenAtAddresses(addrs, occupied[..n], flags[..n], want);
      assert Addresses(addrs, occupied)[..n] == Addresses(addrs, occupied[..n]);
    }
  }

  lemma WorkersAtAddresses(addrs: seq<nat>, ptrs: seq<nat>, ws: seq<nat>)
    requires PoolAt(addrs, |addrs|) && forall i :: 0 <= i < |ws| ==> ws[i] < |addrs|
    ensures WorkersAt(addrs, ptrs) == ws <==> ptrs == Addresses(addrs, ws)
  {
    if ptrs == Addresses(addrs, ws) {
      forall i | 0 <= i < |ws| ensures WorkersAt(addrs, ptrs)[i] == ws[i] {
        assert ptrs[i] in addrs;
      }
    } else if WorkersAt(addrs, ptrs) == ws {
      forall i | 0 <= i < |ws| ensures ptrs[i] == Addresses(addrs, ws)[i] {
        assert WorkersAt(addrs, ptrs)[i] == WorkerAt(addrs, ptrs[i]);
      }
      assert false;
    }
  }

  lemma AddressesApart(addrs: seq<nat>, ws: seq<nat>)
    requires PoolAt(addrs, |addrs|) && ApartInPool(ws, |addrs|)
    ensures forall i, j :: 0 <= i < j < |ws| ==> Addresses(addrs, ws)[i] != Addresses(addrs, ws)[j]
  {
  }

  /** The byte-counted copy ends a scan as it is meant to end exactly when its guard holds. */
  lemma ScanEndIsRightExactlyWhen(addrs: seq<nat>, s: State)
    requires Inv(s) && PoolAt(addrs, |s.workers|) && ScanEnds(s, Dispatch)
    ensures EnabledAsWritten(s, Dispatch)
    ensures StepAsWritten(addrs, s, Dispatch) == Step(s, Dispatch) <==> Guarded(addrs, s, Dispatch)
  {
    var occupied, flags, kept := s.occupied, s.d.flags, s.d.kept;
    assert occupied[..|flags|] == occupied;
    SeenLengths(occupied, flags);
    SeenAtAddresses(addrs, occupied, flags, true);
    AddressesApart(addrs, occupied);
    var from, to := Addresses(addrs, kept), Addresses(addrs, occupied);
    ByteCountedCopyIsRightExactlyWhen(to, flags, from);
    WorkersAtAddresses(addrs, Copied(to, from, |from|), kept);
  }

  /**
   * As long as every scan meets the guard, the server as written runs as it is meant to: all that is proved of Run
   * holds of it, the partition of the pool and the one answer per request among it.
   */
  lemma {:induction false} GuardedRunIsRun(addrs: seq<nat>, s: State, es: seq<Event>, t: State)
    requires Inv(s) && PoolAt(addrs, |s.workers|) && GuardedRun(addrs, s, es, t)
    ensures Run(s, es, t) && Inv(t)
    decreases |es|
  {
    if es == [] {
    } else {
      if ScanEnds(s, es[0]) {
        ScanEndIsRightExactlyWhen(addrs, s);
      }
      StepKeepsInv(s, es[0]);
      StepKeepsWorkers(s, es[0]);
      GuardedRunIsRun(addrs, Step(s, es[0]), es[1..], t);
    }
  }

  /** From the start: the pool stays partitioned and no request is lost or answered twice. */
  lemma GuardedServerKeepsItsPromises(n: nat, addrs: seq<nat>, es: seq<Event>, s: State)
    requires PoolAt(addrs, n) && GuardedRun(addrs, Init(n), es, s)
    ensures multiset(Everyone(s)) == Pool(n)
    ensures forall i, j :: 0 <= i < j < |s.replies| ==> s.replies[i].job != s.replies[j].job
    ensures forall j :: 0 <= j < |s.accepted| ==> JobInv(s, j)
  {
    InitInv(n);
    GuardedRunIsRun(addrs, Init(n), es, s);
    PoolIsPartitioned(n, es, s);
    EveryRequestAnsweredOnce(n, es, s);
  }

  // ----- the guard is exact for the partition of the pool -----

  /** No two workers' addresses agree in the lowest byte. */
  predicate LowBytesDiffer(addrs: seq<nat>) {
    forall i, j :: 0 <= i < j < |addrs| ==> addrs[i] % 256 != addrs[j] % 256
  }

  lemma AddMultiple(x: int, k: int)
    ensures (x + 256 * k) % 256 == x % 256
  {
  }

  lemma RemaindersDiffer(x: int, y: int)
    requires (y - x) % 256 != 0
    ensures x % 256 != y % 256
  {
  }

  /** Records of one size in a row: their low bytes differ if no distance between two of them is a multiple of 256. */
  lemma RecordsInARow(addrs: seq<nat>, base: nat, size: nat)
    requires forall i :: 0 <= i < |addrs| ==> addrs[i] == base + size * i
    requires forall d :: 1 <= d < |addrs| ==> (size * d) % 256 != 0
    ensures LowBytesDiffer(addrs)
  {
    forall i, j | 0 <= i < j < |addrs| ensures addrs[i] % 256 != addrs[j] % 256 {
      assert size * (j - i) == addrs[j] - addrs[i];
      RemaindersDiffer(addrs[i], addrs[j]);
    }
  }

  /**
   * So it is for the ten records the server allocates in one block: an int, a sockaddr_in, an int, a mutex and a
   * pthread_t are 4 + 16 + 4 + 40 + 8 bytes where pointers have eight.
   */
  lemma TheServersRecords(addrs: seq<nat>, base: nat)
    requires |addrs| == 10 && forall i :: 0 <= i < |addrs| ==> addrs[i] == base + 72 * i
    ensures LowBytesDiffer(addrs) && PoolAt(addrs, 10)
  {
    RecordsInARow(addrs, base, 72);
  }

  lemma LowByteOverwritten(to: nat, from: nat, j: nat)
    requires j > 0
    ensures Overwritten(to, from, j) % 256 == from % 256
  {
    var q, p := Pow256(j - 1), Pow256(j);
    QuotientAndRest(to, p);
    QuotientAndRest(from, p);
    Regrouped(q, to / p);
    Regrouped(q, from / p);
    AddMultiple(from, q * (to / p) - q * (from / p));
  }

  lemma SameLowByte(addrs: seq<nat>, v: nat, w: nat)
    requires LowBytesDiffer(addrs) && v < |addrs| && w < |addrs| && addrs[v] % 256 == addrs[w] % 256
    ensures v == w
  {
  }

  // An address whose low byte the copy has written is that of the worker kept, or nobody's.
  lemma CopiedWorker(addrs: seq<nat>, to: nat, w: nat, j: nat)
    requires LowBytesDiffer(addrs) && w < |addrs| && j > 0
    ensures WorkerAt(addrs, Overwritten(to, addrs[w], j)) in {w, |addrs|}
  {
    var a := Overwritten(to, addrs[w], j);
    var v := WorkerAt(addrs, a);
    LowByteOverwritten(to, addrs[w], j);
    if v < |addrs| {
      SameLowByte(addrs, v, w);
    }
  }

  lemma OneByteWorker(addrs: seq<nat>, to: nat, w: nat)
    requires w < |addrs|
    ensures WorkerAt(addrs, Overwritten(to, addrs[w], 1)) == w ==> to / 256 == addrs[w] / 256
  {
    OneByteOverwritten(to, addrs[w]);
  }

  /** What the copy leaves in place i. */
  lemma CopiedPlace(addrs: seq<nat>, occupied: seq<nat>, kept: seq<nat>, i: nat)
    requires LowBytesDiffer(addrs) && PoolAt(addrs, |addrs|) && i < |kept| <= |occupied|
    requires forall k :: 0 <= k < |occupied| ==> occupied[k] < |addrs|
    requires forall k :: 0 <= k < |kept| ==> kept[k] < |addrs|
    ensures var r := WorkersAt(addrs, Copied(Addresses(addrs, occupied), Addresses(addrs, kept), |kept|));
            if BytesIn(|kept|, i) > 0 then r[i] in {kept[i], |addrs|} else r[i] == occupied[i]
  {
    var to, from := addrs[occupied[i]], addrs[kept[i]];
    if BytesIn(|kept|, i) > 0 {
      CopiedWorker(addrs, to, kept[i], BytesIn(|kept|, i));
    } else {
      assert Pow256(0) == 1;
      assert Overwritten(to, from, 0) == to && to in addrs;
    }
  }

  /** Worker w is in none of the dispatcher's lists. */
  predicate Lost(s: State, w: nat) {
    w !in s.free && w !in InHand(s.d) && w !in s.occupied && (s.d.Scan? ==> w !in s.d.kept)
  }

  lemma KeptAreApart(s: State)
    requires Inv(s) && s.d.Scan? && |s.d.flags| == |s.occupied|
    ensures ApartInPool(s.d.kept, |s.workers|) && forall w :: w in s.d.kept ==> w !in s.free
  {
    assert Busy(s) == s.d.kept;
    BusyAreApart(s);
    forall w | w in s.d.kept ensures w !in s.free {
      assert w in Everyone(s);
      PoolFacts(s, w);
    }
  }

  // The last worker kept is nowhere in the new list if it came from behind all the places the copy may leave alone.
  lemma LastKeptIsDropped(addrs: seq<nat>, occupied: seq<nat>, kept: seq<nat>, q: nat, i: nat)
    requires LowBytesDiffer(addrs) && PoolAt(addrs, |addrs|)
    requires ApartInPool(occupied, |addrs|) && ApartInPool(kept, |addrs|)
    requires i < |kept| <= q < |occupied| && occupied[q] == kept[|kept| - 1]
    requires |kept| == 1 ==> addrs[kept[0]] / 256 != addrs[occupied[0]] / 256
    ensures WorkersAt(addrs, Copied(Addresses(addrs, occupied), Addresses(addrs, kept), |kept|))[i]
            != kept[|kept| - 1]
  {
    CopiedPlace(addrs, occupied, kept, i);
    OneByteWorker(addrs, addrs[occupied[0]], kept[0]);
  }

  lemma CopyLosesLastKept(addrs: seq<nat>, s: State)
    requires Inv(s) && LowBytesDiffer(addrs) && PoolAt(addrs, |s.workers|) && ScanEnds(s, Dispatch)
    requires EnabledAsWritten(s, Dispatch) && !Guarded(addrs, s, Dispatch)
    ensures s.d.kept != [] && s.d.kept[|s.d.kept| - 1] < |s.workers|
    ensures Lost(StepAsWritten(addrs, s, Dispatch), s.d.kept[|s.d.kept| - 1])
  {
    var t := StepAsWritten(addrs, s, Dispatch);
    var w := s.d.kept[|s.d.kept| - 1];
    KeptAreApart(s);
    assert w in s.d.kept;
    assert s.occupied[..|s.d.flags|] == s.occupied;
    var q := LastKept(s.occupied, s.d.flags, s.d.kept);
    forall i | 0 <= i < |t.occupied| ensures t.occupied[i] != w {
      LastKeptIsDropped(addrs, s.occupied, s.d.kept, q, i);
    }
  }

  lemma CopyFindsNobody(addrs: seq<nat>, s: State, w: nat)
    requires LowBytesDiffer(addrs) && PoolAt(addrs, |s.workers|) && w < |s.workers|
    requires EnabledAsWritten(s, Dispatch) && ScanEnds(s, Dispatch) && Lost(s, w)
    ensures Lost(StepAsWritten(addrs, s, Dispatch), w)
  {
    var t := StepAsWritten(addrs, s, Dispatch);
    forall i | 0 <= i < |t.occupied| ensures t.occupied[i] != w {
      CopiedPlace(addrs, s.occupied, s.d.kept, i);
      assert s.occupied[i] in s.occupied && s.d.kept[i] in s.d.kept;
    }
  }

  lemma StepKeepsLost(s: State, e: Event, w: nat)
    requires InPool(s) && Enabled(s, e) && !ScanEnds(s, e) && Lost(s, w)
    ensures Lost(Step(s, e), w) && |Step(s, e).workers| == |s.workers|
  {
  }

  /** A lost worker never comes back. */
  lemma {:induction false} LostForGood(addrs: seq<nat>, s: State, es: seq<Event>, t: State, w: nat)
    requires LowBytesDiffer(addrs) && PoolAt(addrs, |s.workers|) && w < |s.workers|
    requires Lost(s, w) && RunAsWritten(addrs, s, es, t)
    ensures Lost(t, w) && |t.workers| == |s.workers|
    decreases |es|
  {
    if es == [] {
    } else {
      if ScanEnds(s, es[0]) {
        CopyFindsNobody(addrs, s, w);
      } else {
        StepKeepsLost(s, es[0], w);
      }
      LostForGood(addrs, StepAsWritten(addrs, s, es[0]), es[1..], t, w);
    }
  }

  lemma LostBreaksPool(s: State, w: nat)
    requires Lost(s, w) && w < |s.workers|
    ensures !PoolInv(s)
  {
    PoolHasEachOnce(|s.workers|, w);
    assert w !in Everyone(s);
    assert w !in multiset(Everyone(s));
  }

  lemma {:induction false} UnguardedRunLoses(addrs: seq<nat>, s: State, es: seq<Event>, t: State) returns (w: nat)
    requires Inv(s) && LowBytesDiffer(addrs) && PoolAt(addrs, |s.workers|) && RunAsWritten(addrs, s, es, t)
    requires !GuardedRun(addrs, s, es, t)
    ensures w < |t.workers| && Lost(t, w)
    decreases |es|
  {
    var u := StepAsWritten(addrs, s, es[0]);
    if Guarded(addrs, s, es[0]) {
      if ScanEnds(s, es[0]) {
        ScanEndIsRightExactlyWhen(addrs, s);
      }
      StepKeepsInv(s, es[0]);
      StepKeepsWorkers(s, es[0]);
      w := UnguardedRunLoses(addrs, u, es[1..], t);
    } else {
      w := s.d.kept[|s.d.kept| - 1];
      CopyLosesLastKept(addrs, s);
      LostForGood(addrs, u, es[1..], t, w);
    }
  }

  lemma {:induction false} SameSizeAsWritten(addrs: seq<nat>, s: State, es: seq<Event>, t: State)
    requires RunAsWritten(addrs, s, es, t)
    ensures |t.workers| == |s.workers|
    decreases |es|
  {
    if es == [] {
    } else {
      SameSizeAsWritten(addrs, StepAsWritten(addrs, s, es[0]), es[1..], t);
    }
  }

  /**
   * With addresses that differ in the lowest byte the guard is exact: after a run as written the pool is still
   * partitioned if and only if every scan of the run has ended under the guard.
   */
  lemma PoolSurvivesExactlyWhenGuarded(n: nat, addrs: seq<nat>, es: seq<Event>, s: State)
    requires PoolAt(addrs, n) && LowBytesDiffer(addrs) && RunAsWritten(addrs, Init(n), es, s)
    ensures multiset(Everyone(s)) == Pool(n) <==> GuardedRun(addrs, Init(n), es, s)
  {
    if GuardedRun(addrs, Init(n), es, s) {
      GuardedServerKeepsItsPromises(n, addrs, es, s);
    } else {
      InitInv(n);
      var w := UnguardedRunLoses(addrs, Init(n), es, s);
      LostBreaksPool(s, w);
      SameSizeAsWritten(addrs, Init(n), es, s);
    }
  }

  lemma SeenSnoc(ws: seq<nat>, fs: seq<bool>, w: nat, f: bool, want: bool)
    requires |ws| == |fs|
    ensures Seen(ws + [w], fs + [f], want) == Seen(ws, fs, want) + if f == want then [w] else []
  {
    assert (ws + [w])[..|ws|] == ws && (fs + [f])[..|ws|] == fs;
  }

  lemma SeenOfOne(a: nat, f: bool, want: bool)
    ensures Seen([a], [f], want) == if f == want then [a] else []
  {
    SeenSnoc([], [], a, f, want);
    assert [] + [a] == [a] && [] + [f] == [f];
  }

  lemma SeenOfTwo(a: nat, b: nat, f: bool, g: bool, want: bool)
    ensures Seen([a, b], [f, g], want) == Seen([a], [f], want) + if g == want then [b] else []
  {
    assert [a, b] == [a] + [b] && [f, g] == [f] + [g];
    SeenSnoc([a], [f], b, g, want);
  }

  lemma SeenOfThree(a: nat, b: nat, c: nat, f: bool, g: bool, h: bool, want: bool)
    ensures Seen([a], [f], want) == if f == want then [a] else []
    ensures Seen([a, b], [f, g], want) == Seen([a], [f], want) + if g == want then [b] else []
    ensures Seen([a, b, c], [f, g, h], want) == Seen([a, b], [f, g], want) + if h == want then [c] else []
  {
    SeenOfOne(a, f, want);
    SeenOfTwo(a, b, f, g, want);
    assert [a, b, c] == [a, b] + [c] && [f, g, h] == [f, g] + [h];
    SeenSnoc([a, b], [f, g], c, h, want);
  }

  lemma TwoBytesOverwritten()
    ensures Overwritten(0x20005, 0x10007, 2) == 0x20007
  {
    assert Pow256(1) == 256;
    assert Pow256(2) == 65536;
  }

  lemma NoByteOverwritten(to: nat, from: nat)
    ensures Overwritten(to, from, 0) == to
  {
    assert Pow256(0) == 1;
  }

  lemma CopyOfTwo(a: nat, b: nat, c: nat, x: nat, y: nat)
    ensures Copied([a, b, c], [x, y], 2) == [Overwritten(a, x, 2), b]
  {
    assert BytesIn(2, 0) == 2 && BytesIn(2, 1) == 0;
    NoByteOverwritten(b, y);
  }

  /** Without that the copy can leave the workers kept in another order, so that the guard fails and nobody is lost. */
  lemma CopyMayPermute()
    ensures Seen([0x20005, 0x10007, 0x20007], [false, true, true], true) == [0x10007, 0x20007]
    ensures Copied([0x20005, 0x10007, 0x20007], [0x10007, 0x20007], 2) == [0x20007, 0x10007]
    ensures !ByteCountSuffices([0x20005, 0x10007, 0x20007], [false, true, true], [0x10007, 0x20007])
  {
    SeenOfThree(0x20005, 0x10007, 0x20007, false, true, true, true);
    TwoBytesOverwritten();
    CopyOfTwo(0x20005, 0x10007, 0x20007, 0x10007, 0x20007);
    assert ![false, true, true][0];
  }
}
