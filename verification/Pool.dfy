/** The slot pool, used by one thread at a time, and queues of its slots. */
module Pool {
  import opened Machine
  import opened Counting
  import opened Messages

  // ----- Pointers -----

  /** `index_of`: the slot number of an address, by unsigned 64-bit subtraction and division. */
  function IndexOf(address: nat, base: nat, stride: nat): nat
    requires stride > 0
  {
    ((address - base) % 0x1_0000_0000_0000_0000) / stride
  }

  /** A quotient is below n exactly when the dividend is below n times the divisor. */
  lemma QuotientBelow(d: nat, stride: nat, n: nat)
    requires stride > 0
    ensures d / stride < n <==> d < stride * n
  {
    var i := d / stride;
    MulAtLeast(stride, n - i);
    assert stride * (n - i) == stride * n - stride * i;
  }

  /** An address in slot i has index i, and an address outside the pool, below it or above it, has no
      valid index: `release` ignores foreign pointers. */
  lemma IndexFindsSlot(address: nat, base: nat, stride: nat, capacity: nat)
    requires stride > 0 && base + stride * capacity <= TWO_64 && address < TWO_64
    ensures IndexOf(address, base, stride) < capacity <==> base <= address < base + stride * capacity
    ensures base <= address ==>
              var i := IndexOf(address, base, stride);
              base + stride * i <= address < base + stride * i + stride
  {
    var d := if base <= address then address - base else address - base + TWO_64;
    ModUnique(address - base, TWO_64, if base <= address then 0 else -1, d);
    QuotientBelow(d, stride, capacity);
  }

  // ----- The class -----

  const FREE: bool -> bool := (b: bool) => !b

  class TaggedPool {
    const messages: array<Message>
    const acquired: array<bool>

    ghost predicate Valid() {
      messages.Length == acquired.Length
    }

    constructor (capacity: nat)
      requires capacity > 0
      ensures Valid() && acquired.Length == capacity
      ensures forall i :: 0 <= i < capacity ==> !acquired[i]
      ensures fresh(messages) && fresh(acquired)
    {
      messages := new Message[capacity](_ => CLEARED);
      acquired := new bool[capacity](_ => false);
    }

    /** How many slots are free. */
    ghost function FreeSlots(): nat
      reads acquired
    {
      Tally(acquired[..], FREE)
    }

    /** `acquire`: the first free slot, cleared; None exactly when there is none. */
    method Acquire() returns (slot: Option<nat>)
      requires Valid()
      modifies messages, acquired
      ensures slot.None? <==> old(FreeSlots()) == 0
      ensures slot.None? ==> messages[..] == old(messages[..]) && acquired[..] == old(acquired[..])
      ensures slot.Some? ==>
                && slot.value < acquired.Length && !old(acquired[slot.value])
                && (forall j :: 0 <= j < slot.value ==> old(acquired[j]))
                && acquired[..] == old(acquired[..])[slot.value := true]
                && messages[..] == old(messages[..])[slot.value := CLEARED]
                && FreeSlots() == old(FreeSlots()) - 1
    {
      for i := 0 to acquired.Length
        invariant messages[..] == old(messages[..]) && acquired[..] == old(acquired[..])
        invariant forall j :: 0 <= j < i ==> acquired[j]
      {
        if !acquired[i] {
          TallyUpdate(acquired[..], i, true, FREE);
          acquired[i] := true;
          messages[i] := CLEARED;
          assert acquired[..] == old(acquired[..])[i := true];
          return Some(i);
        }
      }
      TallyNone(acquired[..], FREE);
      slot := None;
    }

    /** `release` of a pointer that is a slot of this pool, of a null pointer, or of an index out of
        range. */
    method Release(slot: Option<nat>)
      requires Valid()
      modifies acquired
      ensures slot.None? || slot.value >= acquired.Length ==> acquired[..] == old(acquired[..])
      ensures slot.Some? && slot.value < acquired.Length ==>
                && acquired[..] == old(acquired[..])[slot.value := false]
                && FreeSlots() == old(FreeSlots()) + if old(acquired[slot.value]) then 1 else 0
    {
      if slot.None? || slot.value >= acquired.Length {
        return;
      }
      TallyUpdate(acquired[..], slot.value, false, FREE);
      acquired[slot.value] := false;
      assert acquired[..] == old(acquired[..])[slot.value := false];
    }

    /** `acquire_filled`. */
    method AcquireFilled(m: Message) returns (slot: Option<nat>)
      requires Valid()
      modifies messages, acquired
      ensures slot.None? <==> old(FreeSlots()) == 0
      ensures slot.None? ==> messages[..] == old(messages[..]) && acquired[..] == old(acquired[..])
      ensures slot.Some? ==>
                && slot.value < acquired.Length && !old(acquired[slot.value])
                && (forall j :: 0 <= j < slot.value ==> old(acquired[j]))
                && acquired[..] == old(acquired[..])[slot.value := true]
                && messages[..] == old(messages[..])[slot.value := m]
                && FreeSlots() == old(FreeSlots()) - 1
    {
      slot := Acquire();
      if slot.Some? {
        messages[slot.value] := m;
      }
    }
  }

  // ----- Queues of slots -----

  /** The slots in a list of pointers are acquired, and no slot is in it twice. */
  ghost predicate Held(acquired: seq<bool>, slots: seq<nat>) {
    && (forall i :: 0 <= i < |slots| ==> slots[i] < |acquired| && acquired[slots[i]])
    && (forall i, j :: 0 <= i < j < |slots| ==> slots[i] != slots[j])
  }

  ghost predicate Owns(pool: TaggedPool, slots: seq<nat>)
    reads pool.acquired
  {
    Held(pool.acquired[..], slots)
  }

  /** The messages a list of pointers stands for. */
  function View(messages: seq<Message>, slots: seq<nat>): seq<Message>
    requires forall i :: 0 <= i < |slots| ==> slots[i] < |messages|
  {
    seq(|slots|, i requires 0 <= i < |slots| => messages[slots[i]])
  }

  /** Writing a slot that is not in the list does not show. */
  lemma ViewIgnores(messages: seq<Message>, slots: seq<nat>, x: nat, m: Message)
    requires x < |messages| && forall i :: 0 <= i < |slots| ==> slots[i] < |messages| && slots[i] != x
    ensures View(messages[x := m], slots) == View(messages, slots)
  {
  }

  lemma ViewAppends(messages: seq<Message>, slots: seq<nat>, x: nat)
    requires x < |messages| && forall i :: 0 <= i < |slots| ==> slots[i] < |messages|
    ensures View(messages, slots + [x]) == View(messages, slots) + [messages[x]]
  {
  }
}
