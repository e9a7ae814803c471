// The phonebook: a doubly linked list of entries on the heap, identified by increasing numbers.

module PhonebookModel {

  /** A string that does not fit its array is stored as the empty string. */
  function Stored(s: string): string { if |s| < 20 then s else "" }

  /** What an entry says, without its links. */
  datatype Rec = Rec(id: nat, firstName: string, lastName: string, phone: string)

  function Min(a: nat, b: nat): nat { if a <= b then a else b }

  /** Ids increase along the list and stay below the next one. */
  ghost predicate Ordered(recs: seq<Rec>, latestId: nat) {
    && (forall i, j :: 0 <= i < j < |recs| ==> recs[i].id < recs[j].id)
    && (forall i :: 0 <= i < |recs| ==> recs[i].id < latestId)
  }

  predicate Named(r: Rec, firstName: string, lastName: string) { r.firstName == firstName && r.lastName == lastName }

  /** The ids of the records with this name, in order. */
  function Matching(recs: seq<Rec>, firstName: string, lastName: string): (ids: seq<nat>)
    ensures |ids| <= |recs|
  {
    if recs == [] then []
    else
      var last := recs[|recs| - 1];
      Matching(recs[..|recs| - 1], firstName, lastName)
      + if Named(last, firstName, lastName) then [last.id] else []
  }

  ghost predicate Recorded(recs: seq<Rec>, id: nat, firstName: string, lastName: string) {
    exists i :: 0 <= i < |recs| && recs[i].id == id && Named(recs[i], firstName, lastName)
  }

  lemma RecordedStep(recs: seq<Rec>, id: nat, firstName: string, lastName: string)
    requires recs != []
    ensures var last := recs[|recs| - 1];
            Recorded(recs, id, firstName, lastName)
            <==> Recorded(recs[..|recs| - 1], id, firstName, lastName)
                 || (last.id == id && Named(last, firstName, lastName))
  {
    var rest := recs[..|recs| - 1];
    if Recorded(rest, id, firstName, lastName) {
      var i :| 0 <= i < |rest| && rest[i].id == id && Named(rest[i], firstName, lastName);
      assert recs[i] == rest[i];
    }
    if Recorded(recs, id, firstName, lastName) {
      var i :| 0 <= i < |recs| && recs[i].id == id && Named(recs[i], firstName, lastName);
      assert i < |rest| ==> rest[i] == recs[i];
    }
  }

  /** A search finds exactly the ids recorded under the name. */
  lemma {:induction false} MatchingIsExact(recs: seq<Rec>, id: nat, firstName: string, lastName: string)
    ensures id in Matching(recs, firstName, lastName) <==>
            exists i :: 0 <= i < |recs| && recs[i].id == id && recs[i].firstName == firstName
                        && recs[i].lastName == lastName
  {
    if recs != [] {
      MatchingIsExact(recs[..|recs| - 1], id, firstName, lastName);
      RecordedStep(recs, id, firstName, lastName);
    }
  }

  /** The ids found come in the order of the list. */
  lemma {:induction false} MatchingIsIncreasing(recs: seq<Rec>, latestId: nat, firstName: string, lastName: string)
    requires Ordered(recs, latestId)
    ensures var ids := Matching(recs, firstName, lastName);
            forall i, j :: 0 <= i < j < |ids| ==> ids[i] < ids[j]
  {
    if recs != [] {
      var rest, last := recs[..|recs| - 1], recs[|recs| - 1];
      MatchingIsIncreasing(rest, latestId, firstName, lastName);
      var ids := Matching(rest, firstName, lastName);
      forall j | 0 <= j < |ids| ensures ids[j] < last.id {
        MatchingIsExact(rest, ids[j], firstName, lastName);
        var i :| 0 <= i < |rest| && rest[i].id == ids[j] && Named(rest[i], firstName, lastName);
        assert recs[i] == rest[i];
      }
    }
  }

  lemma {:induction false} MatchingPrefix(recs: seq<Rec>, n: nat, firstName: string, lastName: string)
    requires n <= |recs|
    ensures Matching(recs[..n], firstName, lastName) <= Matching(recs, firstName, lastName)
  {
    if n < |recs| {
      MatchingPrefix(recs[..|recs| - 1], n, firstName, lastName);
      assert recs[..|recs| - 1][..n] == recs[..n];
    } else {
      assert recs[..n] == recs;
    }
  }

  lemma MatchingStep(recs: seq<Rec>, i: nat, firstName: string, lastName: string)
    requires i < |recs|
    ensures Matching(recs[..i + 1], firstName, lastName)
            == Matching(recs[..i], firstName, lastName)
               + if Named(recs[i], firstName, lastName) then [recs[i].id] else []
  {
    assert recs[..i + 1][..i] == recs[..i];
  }

  lemma FoundEnough(recs: seq<Rec>, i: nat, capacity: nat, firstName: string, lastName: string)
    requires i <= |recs| && |Matching(recs[..i], firstName, lastName)| <= capacity
    requires i == |recs| || |Matching(recs[..i], firstName, lastName)| == capacity
    ensures var all := Matching(recs, firstName, lastName);
            Matching(recs[..i], firstName, lastName) == all[..Min(capacity, |all|)]
  {
    MatchingPrefix(recs, i, firstName, lastName);
    assert i == |recs| ==> recs[..i] == recs;
  }

  function Without<T>(s: seq<T>, k: nat): seq<T>
    requires k < |s|
  {
    s[..k] + s[k + 1..]
  }

  lemma WithoutIsEmpty<T>(s: seq<T>, k: nat)
    requires k < |s|
    ensures Without(s, k) == [] <==> |s| == 1
  {
    assert |Without(s, k)| == |s| - 1;
  }

  lemma OrderedAfterAdd(recs: seq<Rec>, latestId: nat, r: Rec)
    requires Ordered(recs, latestId) && r.id == latestId
    ensures Ordered(recs + [r], latestId + 1)
  {
  }

  lemma OrderedWithout(recs: seq<Rec>, latestId: nat, k: nat, recs': seq<Rec>)
    requires Ordered(recs, latestId) && k < |recs| && recs' == Without(recs, k)
    ensures Ordered(recs', latestId)
  {
  }

  class Entry {
    var id: nat
    var firstName: string
    var lastName: string
    var phone: string
    var prev: Entry?
    var next: Entry?

    ghost function View(): Rec
      reads this
    {
      Rec(id, firstName, lastName, phone)
    }

    constructor (id: nat, firstName: string, lastName: string, phone: string)
      ensures View() == Rec(id, firstName, lastName, phone) && prev == null && next == null
    {
      this.id, this.firstName, this.lastName, this.phone := id, firstName, lastName, phone;
      prev, next := null, null;
    }
  }

  ghost function Recs(es: seq<Entry>): (r: seq<Rec>)
    reads es
    ensures |r| == |es|
    ensures forall i :: 0 <= i < |es| ==> r[i] == es[i].View()
  {
    seq(|es|, i requires 0 <= i < |es| reads es => es[i].View())
  }

  lemma ViewsWithout(es: seq<Entry>, k: nat, recs: seq<Rec>)
    requires k < |es| == |recs| && forall i :: 0 <= i < |es| ==> es[i].View() == recs[i]
    ensures Recs(Without(es, k)) == Without(recs, k)
  {
  }

  class Phonebook {
    var first: Entry?
    var size: nat
    var latestId: nat
    ghost var entries: seq<Entry>

    ghost predicate Linked()
      reads this`first, this`entries, entries
    {
      && (entries == [] ==> first == null)
      && (entries != [] ==> first == entries[0] && entries[0].prev == null && entries[|entries| - 1].next == null)
      && (forall i :: 0 <= i < |entries| - 1 ==> entries[i].next == entries[i + 1])
      && (forall i :: 0 < i < |entries| ==> entries[i].prev == entries[i - 1])
      && (forall i, j :: 0 <= i < j < |entries| ==> entries[i] != entries[j])
    }

    ghost function Contents(): (r: seq<Rec>)
      reads this`entries, entries
    {
      Recs(entries)
    }

    ghost predicate Valid()
      reads this, entries
    {
      Linked() && Ordered(Contents(), latestId) && size == |entries|
    }

    // phonebook_create
    constructor ()
      ensures Valid() && entries == [] && latestId == 0
    {
      first, size, latestId, entries := null, 0, 0, [];
    }

    // phonebook_last_entry
    method LastEntry() returns (last: Entry?)
      requires Linked()
      ensures last == if entries == [] then null else entries[|entries| - 1]
    {
      var next := first;
      last := null;
      ghost var i := 0;
      while next != null
        invariant 0 <= i <= |entries|
        invariant next == if i < |entries| then entries[i] else null
        invariant last == if i == 0 then null else entries[i - 1]
        decreases |entries| - i
      {
        last := next;
        next := next.next;
        i := i + 1;
      }
    }

    // The last part of phonebook_add_entry: the new entry is linked and counted.
    method Append(entry: Entry)
      requires Linked() && entry !in entries && entry.next == null
      modifies this, entries, entry
      ensures Linked() && entries == old(entries) + [entry]
      ensures latestId == old(latestId) + 1 && size == old(size) + 1
      ensures Contents() == old(Contents()) + [old(entry.View())]
    {
      var last := LastEntry();
      if last == null {
        first := entry;
        entry.prev := null;
      } else {
        last.next := entry;
        entry.prev := last;
      }
      latestId := latestId + 1;
      size := size + 1;
      entries := entries + [entry];
    }

    // phonebook_add_entry
    method AddEntry(firstName: string, lastName: string, phone: string) returns (entry: Entry)
      requires Valid()
      modifies this, entries
      ensures Valid() && fresh(entry) && entries == old(entries) + [entry]
      ensures latestId == old(latestId) + 1
      ensures Contents() == old(Contents()) + [Rec(old(latestId), if |firstName| < 20 then firstName else "",
                if |lastName| < 20 then lastName else "", if |phone| < 20 then phone else "")]
    {
      entry := new Entry(latestId, Stored(firstName), Stored(lastName), Stored(phone));
      OrderedAfterAdd(Contents(), latestId, entry.View());
      Append(entry);
    }

    lemma LinksAt(k: nat)
      requires Linked() && k < |entries|
      ensures entries[k].prev == if k == 0 then null else entries[k - 1]
      ensures entries[k].next == if k == |entries| - 1 then null else entries[k + 1]
    {
    }

    // The relinking part of phonebook_delete_entry for an entry with two neighbours.
    method Unlink(entry: Entry, ghost k: nat)
      requires Linked() && 0 < k < |entries| - 1 && entries[k] == entry
      modifies entries, this`entries
      ensures Linked() && entries == Without(old(entries), k)
      ensures forall e :: e in old(entries) ==> e.View() == old(e.View())
    {
      LinksAt(k);
      ghost var es := entries;
      entry.next.prev := entry.prev;
      entry.prev.next := entry.next;
      entries := Without(entries, k);
      assert forall i :: 0 <= i < |entries| ==> entries[i] == es[if i < k then i else i + 1];
    }

    method UnlinkRecord(entry: Entry, ghost k: nat)
      requires Linked() && 0 < k < |entries| - 1 && entries[k] == entry
      modifies entries, this`entries
      ensures Linked() && entries == Without(old(entries), k)
      ensures Contents() == Without(old(Contents()), k)
    {
      ghost var es, recs := entries, Contents();
      Unlink(entry, k);
      ViewsWithout(es, k, recs);
    }

    // The last branch of phonebook_delete_entry.
    method RemoveInterior(entry: Entry, ghost k: nat)
      requires Valid() && 0 < k < |entries| - 1 && entries[k] == entry
      modifies entries, this`entries, this`size
      ensures Valid() && size == old(size) - 1
      ensures entries == Without(old(entries), k) && Contents() == Without(old(Contents()), k)
    {
      UnlinkRecord(entry, k);
      size := size - 1;
      OrderedWithout(old(Contents()), latestId, k, Contents());
    }

    // The branch of phonebook_delete_entry for an entry that lacks a neighbour.
    method DropList()
      requires Valid() && entries != []
      modifies this
      ensures Linked() && entries == [] && Contents() == [] && size == old(size) - 1 && latestId == old(latestId)
      ensures Valid() <==> old(|entries|) == 1
    {
      first := null;
      size := size - 1;
      entries := [];
    }

    // phonebook_delete_entry of the k-th entry
    method DeleteEntry(entry: Entry, ghost k: nat)
      requires Valid() && k < |entries| && entries[k] == entry
      modifies this, entries
      ensures Linked() && size == old(size) - 1 && latestId == old(latestId)
      ensures entries == if k == 0 || k == old(|entries|) - 1 then [] else old(entries)[..k] + old(entries)[k + 1..]
      ensures Contents() ==
              if k == 0 || k == old(|entries|) - 1 then [] else old(Contents())[..k] + old(Contents())[k + 1..]
      ensures Valid() <==> old(|entries|) == 1 || 0 < k < old(|entries|) - 1
      ensures Contents() == old(Contents())[..k] + old(Contents())[k + 1..] <==>
              old(|entries|) == 1 || 0 < k < old(|entries|) - 1
    {
      LinksAt(k);
      WithoutIsEmpty(Contents(), k);
      if entry.prev == null || entry.next == null {
        DropList();
      } else {
        RemoveInterior(entry, k);
      }
    }

    // One turn of the loop of phonebook_search: entry i is looked at and noted if its name matches.
    static method Look(entry: Entry, ghost recs: seq<Rec>, ghost i: nat, firstName: string, lastName: string,
                       found: array<nat>, count: nat)
      returns (count': nat)
      requires i < |recs| && entry.View() == recs[i] && count < found.Length
      requires found[..count] == Matching(recs[..i], firstName, lastName)
      modifies found
      ensures count <= count' <= found.Length
      ensures found[..count'] == Matching(recs[..i + 1], firstName, lastName)
      ensures forall j :: count' <= j < found.Length ==> found[j] == old(found[j])
    {
      MatchingStep(recs, i, firstName, lastName);
      count' := count;
      if entry.firstName == firstName && entry.lastName == lastName {
        found[count] := entry.id;
        count' := count + 1;
        assert found[..count'] == old(found[..count]) + [entry.id];
      }
    }

    // The loop of phonebook_search: `i` entries have been looked at when it stops.
    method Collect(firstName: string, lastName: string, found: array<nat>) returns (ghost i: nat, count: nat)
      requires Linked() && found.Length > 0
      modifies found
      ensures i <= |entries| && count <= found.Length && (i == |entries| || count == found.Length)
      ensures found[..count] == Matching(old(Contents())[..i], firstName, lastName)
      ensures forall j :: count <= j < found.Length ==> found[j] == old(found[j])
    {
      var entry := first;
      ghost var recs := Contents();
      i, count := 0, 0;
      while entry != null && count < found.Length
        invariant 0 <= i <= |entries| && count <= found.Length
        invariant entry == if i < |entries| then entries[i] else null
        invariant found[..count] == Matching(recs[..i], firstName, lastName)
        invariant forall j :: count <= j < found.Length ==> found[j] == old(found[j])
        decreases |entries| - i
      {
        LinksAt(i);
        count := Look(entry, recs, i, firstName, lastName, found, count);
        entry := entry.next;
        i := i + 1;
      }
    }

    // phonebook_search
    method Search(firstName: string, lastName: string, found: array<nat>)
      requires Valid()
      modifies found
      ensures var ids := Matching(Contents(), firstName, lastName);
              var n := Min(found.Length, |ids|);
              found[..n] == ids[..n] && found[n..] == old(found[n..])
    {
      if found.Length == 0 {
        return;
      }
      ghost var recs := Contents();
      ghost var i, count := Collect(firstName, lastName, found);
      FoundEnough(recs, i, found.Length, firstName, lastName);
    }

    // get_entry_by_id
    method GetEntryById(id: nat) returns (entry: Entry?)
      requires Valid()
      ensures entry != null ==> entry in entries && entry.id == id
      ensures entry != null ==> forall i :: 0 <= i < |entries| && entries[i].id == id ==> entries[i] == entry
      ensures entry == null ==> forall i :: 0 <= i < |entries| ==> entries[i].id != id
    {
      assert forall i :: 0 <= i < |entries| ==> entries[i].id == Contents()[i].id;
      entry := first;
      ghost var i := 0;
      while entry != null
        invariant 0 <= i <= |entries|
        invariant entry == if i < |entries| then entries[i] else null
        invariant forall j :: 0 <= j < i ==> entries[j].id != id
        decreases |entries| - i
      {
        if id == entry.id {
          break;
        }
        entry := entry.next;
        i := i + 1;
      }
    }
  }

  /** The first of two entries is deleted: the book is left without the second and counts one entry. */
  method DeleteFirstOfTwo() returns (book: Phonebook)
    ensures book.entries == [] && book.size == 1 && !book.Valid()
  {
    book := new Phonebook();
    var entry := book.AddEntry("Ada", "Byron", "1");
    var other := book.AddEntry("Alan", "Mathison", "2");
    book.DeleteEntry(entry, 0);
  }
}
