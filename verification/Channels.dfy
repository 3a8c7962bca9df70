/** The buffered channels and the ring buffer that connect the services. */
module Channels {
  import opened Wrappers

  /** A buffered channel; a send is possible while it has room, a receive while it has items. */
  class Chan<T> {
    const capacity: nat
    var items: seq<T>
    ghost var sent: seq<T>  // everything ever sent

    ghost predicate Valid()
      reads this
    {
      |items| <= capacity && |items| <= |sent| && items == sent[|sent| - |items|..]
    }

    /** Everything ever received. */
    ghost function Taken(): seq<T>
      requires Valid()
      reads this
    {
      sent[..|sent| - |items|]
    }

    constructor (capacity: nat)
      ensures Valid() && this.capacity == capacity
      ensures items == [] && sent == [] && Taken() == []
    {
      this.capacity := capacity;
      items, sent := [], [];
    }

    predicate HasRoom()
      reads this
    {
      |items| < capacity
    }

    method Send(x: T)
      requires Valid() && HasRoom()
      modifies this
      ensures Valid()
      ensures items == old(items) + [x] && sent == old(sent) + [x]
      ensures Taken() == old(Taken())
    {
      items := items + [x];
      sent := sent + [x];
    }

    method Receive() returns (x: T)
      requires Valid() && items != []
      modifies this
      ensures Valid()
      ensures x == old(items)[0] && items == old(items)[1..]
      ensures sent == old(sent) && Taken() == old(Taken()) + [x]
    {
      x := items[0];
      items := items[1..];
    }
  }

  /** A circular buffer of the most recently added values. */
  class Ring<T(0)> {
    const nodes: array<Option<T>>
    const capacity: nat
    var head: nat
    var depth: nat
    ghost var contents: seq<T>  // newest first

    ghost predicate Valid()
      reads this, nodes
    {
      && 2 <= capacity == nodes.Length
      && head < capacity && depth == |contents| <= capacity
      && forall i :: 0 <= i < depth ==> nodes[Slot(i)] == Some(contents[i])
    }

    /** Where the value added `age` values before the newest one is kept. */
    function Slot(age: nat): (ix: nat)
      requires head < capacity && age < capacity
      reads this
      ensures ix < capacity
    {
      if age <= head then head - age else head - age + capacity
    }

    /** When the head moves on by one, every value is one older, in the same slot. */
    lemma SlotMoves(before: nat, age: nat)
      requires before < capacity && 0 < age < capacity
      requires head == if before + 1 == capacity then 0 else before + 1
      ensures Slot(age) == (if age - 1 <= before then before - (age - 1) else before - (age - 1) + capacity)
      ensures Slot(age) != head
    {
    }

    constructor (capacity: nat)
      requires 2 <= capacity
      ensures Valid() && fresh(nodes)
      ensures this.capacity == capacity && contents == []
    {
      nodes := new Option<T>[capacity](_ => None);
      this.capacity := capacity;
      head, depth, contents := 0, 0, [];
    }

    /** The oldest value makes room for a new one in a full ring. */
    method Add(value: T)
      requires Valid()
      modifies this, nodes
      ensures Valid()
      ensures var all := [value] + old(contents);
              contents == if |all| <= capacity then all else all[..capacity]
    {
      head := head + 1;
      if head == capacity {
        head := 0;
      }
      depth := depth + 1;
      if depth > capacity {
        depth := capacity;
      }
      nodes[head] := Some(value);
      contents := ([value] + contents)[..depth];
      forall i | 0 < i < depth
        ensures nodes[Slot(i)] == Some(contents[i])
      {
        SlotMoves(old(head), i);
      }
    }

    method Reset()
      requires Valid()
      modifies this
      ensures Valid() && contents == []
    {
      depth := 0;
      contents := [];
    }

    /** The newest values, newest first; the branch for an empty node is never taken. */
    method List(length: nat) returns (l: seq<T>)
      requires Valid()
      ensures l == if length <= |contents| then contents[..length] else contents
    {
      var tl := length;
      if tl > depth {
        tl := depth;
      }
      l := [];
      for i := 0 to tl
        invariant l == contents[..i]
      {
        var ix := head - i;
        if ix < 0 {
          ix := ix + capacity;
        }
        assert ix == Slot(i);
        match nodes[ix]
        case None => return;
        case Some(v) => l := l + [v];
      }
    }
  }
}
