/** The table of running children, shared by the workers and the reaper. Every method here is
    a critical section of the source: its caller holds child_mu. */
module SlotTable {

  const MAX_CONCURRENCY: nat := 32

  /** pid 0 is a free slot; status is valid once done. */
  datatype Slot = Slot(pid: nat, status: int, done: bool)

  const FREE: Slot := Slot(0, 0, false)

  /** ACTOR_CONCURRENCY as cfg_load keeps it. */
  function Clamp(requested: int): (n: nat)
    ensures 1 <= n <= MAX_CONCURRENCY
    ensures (n > requested ==> n == 1) && (n < requested ==> n == MAX_CONCURRENCY)
  {
    if requested < 1 then 1 else if requested > MAX_CONCURRENCY then MAX_CONCURRENCY else requested
  }

  predicate IsFree(s: Slot) {
    s.pid == 0 && !s.done
  }

  /** First slot at or after i that can be claimed, |slots| if there is none. */
  function FirstFree(slots: seq<Slot>, i: nat): (k: nat)
    requires i <= |slots|
    ensures i <= k <= |slots|
    ensures k < |slots| ==> IsFree(slots[k])
    ensures forall j :: i <= j < k ==> !IsFree(slots[j])
    decreases |slots| - i
  {
    if i == |slots| || IsFree(slots[i]) then i else FirstFree(slots, i + 1)
  }

  /** First slot at or after i that records pid, |slots| if there is none. */
  function FirstMatch(slots: seq<Slot>, pid: nat, i: nat): (k: nat)
    requires i <= |slots|
    ensures i <= k <= |slots|
    ensures k < |slots| ==> slots[k].pid == pid
    ensures forall j :: i <= j < k ==> slots[j].pid != pid
    decreases |slots| - i
  {
    if i == |slots| || slots[i].pid == pid then i else FirstMatch(slots, pid, i + 1)
  }

  /** The table after the reaper dispatched a status. */
  function Dispatched(slots: seq<Slot>, pid: nat, status: int): (r: seq<Slot>)
    ensures |r| == |slots|
  {
    var k := FirstMatch(slots, pid, 0);
    if k < |slots| then slots[k := Slot(slots[k].pid, status, true)] else slots
  }

  /** The table after a worker stored the pid of the child it forked. */
  function Registered(slots: seq<Slot>, i: nat, pid: nat): (r: seq<Slot>)
    requires i < |slots|
    ensures |r| == |slots|
  {
    slots[i := Slot(pid, 0, false)]
  }

  /** The table after a worker freed its slot, at the end of its wait or when interrupted; the status
      stays behind. */
  function Freed(slots: seq<Slot>, i: nat): (r: seq<Slot>)
    requires i < |slots|
    ensures |r| == |slots|
  {
    slots[i := Slot(0, slots[i].status, false)]
  }

  /** g_children; Dispatcher steps through the same updates. */
  class Table {
    const children: array<Slot>

    ghost predicate FullSize()
      reads this
    {
      children.Length == MAX_CONCURRENCY
    }

    constructor ()
      ensures FullSize() && fresh(children)
      ensures forall i :: 0 <= i < children.Length ==> children[i] == FREE
    {
      children := new Slot[MAX_CONCURRENCY](_ => FREE);
    }

    /** The scan for a free slot, -1 if there is none. */
    method Claim() returns (slot: int)
      requires FullSize()
      ensures -1 <= slot < children.Length
      ensures slot == if FirstFree(children[..], 0) < children.Length then FirstFree(children[..], 0) else -1
    {
      slot := -1;
      var i := 0;
      while i < children.Length
        invariant 0 <= i <= children.Length
        invariant FirstFree(children[..], 0) == FirstFree(children[..], i)
      {
        if children[i].pid == 0 && !children[i].done {
          return i;
        }
        i := i + 1;
      }
    }

    /** Store the pid of the child just forked. */
    method Register(slot: nat, pid: nat)
      requires FullSize() && slot < children.Length
      modifies children
      ensures children[..] == Registered(old(children[..]), slot, pid)
    {
      children[slot] := Slot(pid, 0, false);
    }

    /** The reaper's loop over the slots. */
    method Dispatch(pid: nat, status: int)
      requires FullSize()
      modifies children
      ensures children[..] == Dispatched(old(children[..]), pid, status)
    {
      ghost var before := children[..];
      var i := 0;
      while i < children.Length
        invariant 0 <= i <= children.Length && children[..] == before
        invariant FirstMatch(before, pid, 0) == FirstMatch(before, pid, i)
      {
        if children[i].pid == pid {
          children[i] := Slot(children[i].pid, status, true);
          break;
        }
        i := i + 1;
      }
    }

    /** The end of await_child: take the status and free the slot. */
    method Take(slot: nat) returns (status: int)
      requires FullSize() && slot < children.Length && children[slot].done
      modifies children
      ensures status == old(children[slot].status)
      ensures children[..] == Freed(old(children[..]), slot)
    {
      status := children[slot].status;
      children[slot] := Slot(0, status, false);
    }

    /** An interrupted wait: free the slot, report failure. */
    method GiveUp(slot: nat) returns (status: int)
      requires FullSize() && slot < children.Length && !children[slot].done
      modifies children
      ensures status == -1
      ensures children[..] == Freed(old(children[..]), slot)
    {
      children[slot] := Slot(0, children[slot].status, false);
      status := -1;
    }
  }
}
