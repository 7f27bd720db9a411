// The intrusive circular doubly linked list that alarms hang on. The head is an
// entry like the others; a list is empty when the head points to itself.

module AlarmList {
  import opened Words

  class Alarm {
    var next: Alarm
    var previous: Alarm
    var time: U32            // tick of the next callback
    var rollover: bool       // that tick lies beyond the next counter overflow

    constructor ()
      ensures next == this && previous == this
    {
      next, previous := this, this;
      time, rollover := 0, false;
    }
  }

  predicate Distinct(s: seq<Alarm>)
  {
    forall i, j | 0 <= i < j < |s| :: s[i] != s[j]
  }

  /** The k-th entry going round from the head: the head is at both ends. */
  function Nth(head: Alarm, items: seq<Alarm>, k: int): Alarm
    requires 0 <= k <= |items| + 1
  {
    if k == 0 || k == |items| + 1 then head else items[k - 1]
  }

  ghost predicate Linked(head: Alarm, items: seq<Alarm>)
    reads head`next, head`previous, items`next, items`previous
  {
    && Distinct(items) && head !in items
    && (forall k {:trigger Nth(head, items, k)} | 0 <= k <= |items| ::
          Nth(head, items, k).next == Nth(head, items, k + 1))
    && (forall k {:trigger Nth(head, items, k)} | 1 <= k <= |items| + 1 ::
          Nth(head, items, k).previous == Nth(head, items, k - 1))
  }

  /** Pointers of a list stay inside it, and no linked entry points to itself. */
  lemma Enclosed(head: Alarm, items: seq<Alarm>)
    requires Linked(head, items)
    ensures head.next == if items == [] then head else items[0]
    ensures forall a | a in items || a == head ::
              (a.next == head || a.next in items) && (a.previous == head || a.previous in items)
    ensures forall a | a in items :: a.next != a && a.previous != a
  {
    assert head == Nth(head, items, 0) == Nth(head, items, |items| + 1);
    assert forall i | 0 <= i < |items| :: items[i] == Nth(head, items, i + 1);
  }

  /** alt_llist_insert: the entry becomes the first one after the head. Inserting
      the first entry again leaves it pointing to itself. */
  method Insert(head: Alarm, entry: Alarm, ghost items: seq<Alarm>)
    requires Linked(head, items) && entry != head
    modifies entry`next, entry`previous, head`next, head.next`previous
    ensures entry !in items ==> Linked(head, [entry] + items)
    ensures head.next == entry
    ensures items != [] && entry == items[0] ==> entry.next == entry
  {
    Enclosed(head, items);
    ghost var items' := [entry] + items;
    assert Nth(head, items, 1) == head.next;
    entry.previous := head;
    entry.next := head.next;
    head.next.previous := entry;
    head.next := entry;
    if entry !in items {
      forall k | 0 <= k <= |items'|
        ensures Nth(head, items', k).next == Nth(head, items', k + 1)
      {
        if k >= 2 { assert Nth(head, items', k) == Nth(head, items, k - 1); }
      }
      forall k | 1 <= k <= |items'| + 1
        ensures Nth(head, items', k).previous == Nth(head, items', k - 1)
      {
        if k >= 2 { assert Nth(head, items', k) == Nth(head, items, k - 1); }
      }
    }
  }

  function Without(items: seq<Alarm>, p: nat): seq<Alarm>
    requires p < |items|
  {
    items[..p] + items[p + 1..]
  }

  /** The list without the entry, if it is there. */
  ghost function Minus(items: seq<Alarm>, entry: Alarm): seq<Alarm>
  {
    if items == [] then []
    else if items[0] == entry then items[1..]
    else [items[0]] + Minus(items[1..], entry)
  }

  lemma {:induction false} MinusIsWithout(items: seq<Alarm>, p: nat)
    requires Distinct(items) && p < |items|
    ensures Minus(items, items[p]) == Without(items, p)
  {
    if p > 0 {
      MinusIsWithout(items[1..], p - 1);
      assert Without(items, p) == [items[0]] + Without(items[1..], p - 1);
    }
  }

  lemma {:induction false} MinusAbsent(items: seq<Alarm>, entry: Alarm)
    requires entry !in items
    ensures Minus(items, entry) == items
  {
    if items != [] {
      MinusAbsent(items[1..], entry);
    }
  }

  lemma {:induction false} MinusMembers(items: seq<Alarm>, entry: Alarm)
    requires Distinct(items)
    ensures forall a :: a in Minus(items, entry) <==> a in items && a != entry
    ensures Distinct(Minus(items, entry))
    ensures |Minus(items, entry)| <= |items|
    ensures items != [] && items[0] != entry ==> Minus(items, entry) != [] && Minus(items, entry)[0] == items[0]
  {
    if items != [] && items[0] != entry {
      MinusMembers(items[1..], entry);
      assert items[0] !in items[1..];
    }
  }

  lemma {:induction false} MinusMember(items: seq<Alarm>, entry: Alarm, a: Alarm)
    requires Distinct(items)
    ensures a in Minus(items, entry) <==> a in items && a != entry
  {
    if items != [] {
      assert items[0] !in items[1..];
      if items[0] != entry {
        MinusMember(items[1..], entry, a);
      }
    }
  }

  /** Removing an entry from a list made of two parts. */
  lemma {:induction false} MinusOfConcat(s: seq<Alarm>, t: seq<Alarm>, entry: Alarm)
    requires Distinct(s + t)
    ensures Minus(s + t, entry) == Minus(s, entry) + Minus(t, entry)
  {
    if s == [] {
      assert s + t == t;
    } else {
      assert (s + t)[1..] == s[1..] + t;
      if s[0] == entry {
        assert forall i | 0 <= i < |t| :: t[i] == (s + t)[|s| + i] != (s + t)[0];
        MinusAbsent(t, entry);
      } else {
        MinusOfConcat(s[1..], t, entry);
      }
    }
  }

  lemma MinusOfThree(s: seq<Alarm>, t: seq<Alarm>, u: seq<Alarm>, entry: Alarm)
    requires Distinct(s + t + u)
    ensures Minus(s + t + u, entry) == Minus(s, entry) + Minus(t, entry) + Minus(u, entry)
  {
    assert forall i | 0 <= i < |s + t| :: (s + t)[i] == (s + t + u)[i];
    MinusOfConcat(s + t, u, entry);
    MinusOfConcat(s, t, entry);
  }

  /** alt_llist_remove: the neighbours close the gap, and the entry is left
      pointing to itself, so that removing it again changes nothing. */
  method Remove(entry: Alarm)
    modifies entry`next, entry`previous, entry.next`previous, entry.previous`next
    ensures entry.next == entry && entry.previous == entry
    ensures old(entry.next) != entry ==> old(entry.next).previous == old(entry.previous)
    ensures old(entry.previous) != entry ==> old(entry.previous).next == old(entry.next)
  {
    entry.next.previous := entry.previous;
    entry.previous.next := entry.next;
    entry.previous := entry;
    entry.next := entry;
  }

  /** Where the k-th entry of the shortened list stood before. */
  lemma NthWithout(head: Alarm, items: seq<Alarm>, p: nat, k: int)
    requires p < |items| && 0 <= k <= |items|
    ensures Nth(head, Without(items, p), k) == Nth(head, items, if k <= p then k else k + 1)
  {
  }

  lemma NthDistinct(head: Alarm, items: seq<Alarm>, i: int, j: int)
    requires Distinct(items) && head !in items
    requires 0 <= i < j <= |items| + 1 && (i != 0 || j != |items| + 1)
    ensures Nth(head, items, i) != Nth(head, items, j)
  {
  }

  lemma WithoutKeepsDistinct(head: Alarm, items: seq<Alarm>, p: nat)
    requires Distinct(items) && head !in items && p < |items|
    ensures Distinct(Without(items, p)) && head !in Without(items, p) && items[p] !in Without(items, p)
  {
  }

  lemma GapClosesForward(head: Alarm, items: seq<Alarm>, p: nat)
    requires p < |items|
    requires forall k {:trigger Nth(head, items, k)} | 0 <= k <= |items| && k != p && k != p + 1 ::
               Nth(head, items, k).next == Nth(head, items, k + 1)
    requires Nth(head, items, p).next == Nth(head, items, p + 2)
    ensures forall k {:trigger Nth(head, Without(items, p), k)} | 0 <= k < |items| ::
              Nth(head, Without(items, p), k).next == Nth(head, Without(items, p), k + 1)
  {
    forall k | 0 <= k < |items|
      ensures Nth(head, Without(items, p), k).next == Nth(head, Without(items, p), k + 1)
    {
      NthWithout(head, items, p, k);
      NthWithout(head, items, p, k + 1);
    }
  }

  lemma GapClosesBackward(head: Alarm, items: seq<Alarm>, p: nat)
    requires p < |items|
    requires forall k {:trigger Nth(head, items, k)} | 1 <= k <= |items| + 1 && k != p + 2 && k != p + 1 ::
               Nth(head, items, k).previous == Nth(head, items, k - 1)
    requires Nth(head, items, p + 2).previous == Nth(head, items, p)
    ensures forall k {:trigger Nth(head, Without(items, p), k)} | 1 <= k <= |items| ::
              Nth(head, Without(items, p), k).previous == Nth(head, Without(items, p), k - 1)
  {
    forall k | 1 <= k <= |items|
      ensures Nth(head, Without(items, p), k).previous == Nth(head, Without(items, p), k - 1)
    {
      NthWithout(head, items, p, k);
      NthWithout(head, items, p, k - 1);
    }
  }

  /** The list with a gap at p closed by hand is the shorter list. */
  lemma GapCloses(head: Alarm, items: seq<Alarm>, p: nat)
    requires Distinct(items) && head !in items && p < |items|
    requires forall k {:trigger Nth(head, items, k)} | 0 <= k <= |items| && k != p && k != p + 1 ::
               Nth(head, items, k).next == Nth(head, items, k + 1)
    requires forall k {:trigger Nth(head, items, k)} | 1 <= k <= |items| + 1 && k != p + 2 && k != p + 1 ::
               Nth(head, items, k).previous == Nth(head, items, k - 1)
    requires Nth(head, items, p).next == Nth(head, items, p + 2)
    requires Nth(head, items, p + 2).previous == Nth(head, items, p)
    ensures Linked(head, Without(items, p))
  {
    WithoutKeepsDistinct(head, items, p);
    GapClosesForward(head, items, p);
    GapClosesBackward(head, items, p);
  }

  /** Removing a linked entry takes exactly it out of the list; removing one
      that points to itself takes nothing. */
  method Unlink(head: Alarm, entry: Alarm, ghost items: seq<Alarm>)
    requires Linked(head, items) && entry != head
    requires entry !in items ==> entry.next == entry && entry.previous == entry
    modifies entry`next, entry`previous, entry.next`previous, entry.previous`next
    ensures Linked(head, Minus(items, entry))
    ensures entry.next == entry && entry.previous == entry
  {
    ghost var p := 0;
    if entry in items {
      p :| 0 <= p < |items| && items[p] == entry;
      MinusIsWithout(items, p);
      assert Nth(head, items, p + 1) == entry;
      assert Nth(head, items, p) == entry.previous && Nth(head, items, p + 2) == entry.next;
    } else {
      MinusAbsent(items, entry);
    }
    Remove(entry);
    if entry in items {
      forall k | 0 <= k <= |items| && k != p && k != p + 1
        ensures Nth(head, items, k).next == Nth(head, items, k + 1)
      {
        if k < p { NthDistinct(head, items, k, p); } else { NthDistinct(head, items, p, k); }
      }
      forall k | 1 <= k <= |items| + 1 && k != p + 2 && k != p + 1
        ensures Nth(head, items, k).previous == Nth(head, items, k - 1)
      {
        if k < p + 2 { NthDistinct(head, items, k, p + 2); } else { NthDistinct(head, items, p + 2, k); }
      }
      GapCloses(head, items, p);
    }
  }

  ghost function Follow(a: Alarm, k: nat): Alarm
    reads *
  {
    if k == 0 then a else Follow(a.next, k - 1)
  }

  /** A walk that reaches a removed entry stays there: this is why a callback must
      not stop the entry the walk has saved as its next one. */
  lemma {:induction false} RemovedEntryTraps(a: Alarm, k: nat)
    requires a.next == a
    ensures Follow(a, k) == a
  {
    if k > 0 {
      RemovedEntryTraps(a, k - 1);
    }
  }
}
