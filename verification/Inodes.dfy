/** The inode allocator of initrd.go: a set of used inodes and the next candidate. */
module Inodes {
  import opened GoStrings

  const MAX_INODE := 0xFFFF_FFFF

  /** The smallest inode from `from` on that is not used. */
  function FirstUnused(used: set<int>, from: int): (r: Option<int>)
    ensures r.Some? ==> from <= r.value <= MAX_INODE && r.value !in used
    ensures r.Some? ==> forall i :: from <= i < r.value ==> i in used
    ensures r.None? ==> forall i :: from <= i <= MAX_INODE ==> i in used
    decreases MAX_INODE + 1 - from
  {
    if from > MAX_INODE then None
    else if from !in used then Some(from)
    else FirstUnused(used, from + 1)
  }

  /** Being the smallest unused inode determines it. */
  lemma FirstUnusedIs(used: set<int>, inode: int)
    requires 1 <= inode <= MAX_INODE && inode !in used && forall i :: 1 <= i < inode ==> i in used
    ensures FirstUnused(used, 1) == Some(inode)
  {
    hide FirstUnused;
    assert FirstUnused(used, 1).Some? && FirstUnused(used, 1).value !in used;
  }

  lemma AllUsed(used: set<int>)
    requires forall i :: 1 <= i <= MAX_INODE ==> i in used
    ensures FirstUnused(used, 1) == None
  {
    hide FirstUnused;
  }

  class InodeAllocator {
    var used: set<int>
    var next: int

    ghost predicate Valid()
      reads this
    {
      1 <= next <= MAX_INODE + 1 && forall i :: 1 <= i < next ==> i in used
    }

    constructor ()
      ensures Valid() && used == {}
    {
      used := {};
      next := 1;
    }

    method Reserve(inode: int)
      requires Valid()
      modifies this
      ensures Valid() && used == old(used) + {inode}
    {
      used := used + {inode};
    }

    /** The smallest positive inode that is not in use, whatever was reserved in between; it fails
        exactly when all of them are used. */
    method Allocate() returns (r: Option<int>)
      requires Valid()
      modifies this
      ensures Valid()
      ensures r == FirstUnused(old(used), 1)
      ensures used == if r.Some? then old(used) + {r.value} else old(used)
    {
      hide FirstUnused;
      while next <= MAX_INODE
        invariant Valid() && used == old(used)
        decreases MAX_INODE + 1 - next
      {
        var inode := next;
        if inode in used {
          next := next + 1;
          continue;
        }
        FirstUnusedIs(used, inode);
        next := next + 1;
        used := used + {inode};
        return Some(inode);
      }
      AllUsed(used);
      return None;
    }
  }
}
