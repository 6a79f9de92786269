/** The memory manager in the form the program has it: an object whose two lists are changed in
    place by searching, merging and evicting loops.  Every method is proved against the
    functions of the modules FreeList and Memory. */
module MemoryManagement {
  import opened FreeList
  import opened Sums
  import opened Memory

  /** The position of the first image with the given process id, or the length of the list. */
  function IndexOf(ps: seq<ProcMem>, pid: int): (j: nat)
    ensures j <= |ps|
    ensures forall k :: 0 <= k < j ==> ps[k].pid != pid
    ensures j < |ps| ==> ps[j].pid == pid
  {
    if ps == [] then 0 else if ps[0].pid == pid then 0 else 1 + IndexOf(ps[1..], pid)
  }

  /** Memory after the first image with the given process id has been dropped. */
  function Removed(m: Mem, pid: int): Mem {
    var j := IndexOf(m.procs, pid);
    if j == |m.procs| then m
    else Mem(
           if m.procs[j].InDisk() then m.free else Released(m.free, m.procs[j].Seg()),
           m.procs[..j] + m.procs[j + 1..])
  }

  lemma DroppedResident(ps: seq<ProcMem>, j: nat, k: int)
    requires j < |ps| && ps[j].InDisk()
    ensures var qs := ps[..j] + ps[j + 1..];
            Resident(qs, k) ==> Resident(ps, if k < j then k else k + 1) && qs[k] == ps[if k < j then k else k + 1]
    ensures var qs := ps[..j] + ps[j + 1..];
            Resident(ps, k) ==> k != j && Resident(qs, if k < j then k else k - 1) && ps[k] == qs[if k < j then k else k - 1]
  {
  }

  /** Dropping an image that is on disk changes nothing in memory. */
  lemma DroppedValid(m: Mem, j: nat, memsize: int)
    requires Valid(m, memsize) && j < |m.procs| && m.procs[j].InDisk()
    ensures Valid(m.(procs := m.procs[..j] + m.procs[j + 1..]), memsize)
  {
    var ps := m.procs;
    var qs := ps[..j] + ps[j + 1..];
    forall a ensures Used(qs, a) <==> Used(ps, a) {
      if Used(qs, a) {
        var k :| Resident(qs, k) && qs[k].Seg().Has(a);
        DroppedResident(ps, j, k);
      }
      if Used(ps, a) {
        var k :| Resident(ps, k) && ps[k].Seg().Has(a);
        DroppedResident(ps, j, k);
      }
    }
    forall k | Resident(qs, k) ensures 0 < qs[k].size && 0 <= qs[k].Seg().End() && qs[k].start <= memsize {
      DroppedResident(ps, j, k);
    }
    forall k, l | Resident(qs, k) && Resident(qs, l) && k != l ensures qs[k].Seg().Apart(qs[l].Seg()) {
      DroppedResident(ps, j, k);
      DroppedResident(ps, j, l);
    }
  }

  /** Removing a process keeps the memory invariant, whether or not it was resident. */
  lemma RemovedValid(m: Mem, pid: int, memsize: int)
    requires Valid(m, memsize)
    ensures Valid(Removed(m, pid), memsize)
    ensures |Removed(m, pid).procs| == |m.procs| - (if IndexOf(m.procs, pid) < |m.procs| then 1 else 0)
    ensures forall k :: 0 <= k < |Removed(m, pid).procs| ==>
              Removed(m, pid).procs[k] == m.procs[if k < IndexOf(m.procs, pid) then k else k + 1]
  {
    var j := IndexOf(m.procs, pid);
    if j < |m.procs| {
      if m.procs[j].InDisk() {
        DroppedValid(m, j, memsize);
      } else {
        SwappedOutValid(m, j, memsize);
        var m' := SwappedOut(m, j);
        DroppedValid(m', j, memsize);
        assert m'.procs[..j] + m'.procs[j + 1..] == m.procs[..j] + m.procs[j + 1..];
      }
    }
  }

  lemma {:induction false} InsertedAt(fs: seq<Segment>, s: Segment, i: nat)
    requires i <= |fs| && (forall k :: 0 <= k < i ==> s.start < fs[k].start)
    requires i == |fs| || s.start >= fs[i].start
    ensures Inserted(fs, s) == fs[..i] + [s] + fs[i..]
    decreases i
  {
    if i > 0 {
      InsertedAt(fs[1..], s, i - 1);
      assert fs[..i] == [fs[0]] + fs[1..][..i - 1];
      assert fs[1..][i - 1..] == fs[i..];
    }
  }

  class MemoryManager {
    var free: seq<Segment>
    var procs: seq<ProcMem>

    ghost function View(): Mem
      reads this
    {
      Mem(free, procs)
    }

    constructor (memsize: int)
      ensures View() == Initial(memsize)
    {
      free := [Segment(memsize, memsize)];
      procs := [];
    }

    method Consolidate()
      modifies this`free
      ensures free == Consolidated(old(free))
    {
      var i := 0;
      while i + 1 < |free|
        invariant 0 <= i <= |free|
        invariant free[..i] + Consolidated(free[i..]) == Consolidated(old(free))
        decreases |free| - i
      {
        ghost var was := free;
        assert was[i..][0] == was[i] && was[i..][1] == was[i + 1] && was[i..][2..] == was[i + 2..];
        assert was[i..][1..] == was[i + 1..];
        if free[i].End() == free[i + 1].start {
          free := free[..i] + [Segment(free[i].start, free[i].size + free[i + 1].size)] + free[i + 2..];
          assert free[..i] == was[..i];
          assert free[i..] == [Merged(was[i], was[i + 1])] + was[i + 2..];
        } else {
          assert was[..i + 1] + Consolidated(was[i + 1..]) == was[..i] + ([was[i]] + Consolidated(was[i + 1..]));
          i := i + 1;
        }
      }
      assert free == free[..i] + free[i..];
    }

    method AddFreeSegment(start: int, size: int)
      modifies this`free
      ensures free == Released(old(free), Segment(start, size))
    {
      var s := Segment(start, size);
      var i := 0;
      while i < |free| && s.start < free[i].start
        invariant 0 <= i <= |free|
        invariant forall k :: 0 <= k < i ==> s.start < free[k].start
      {
        i := i + 1;
      }
      InsertedAt(free, s, i);
      free := free[..i] + [s] + free[i..];
      Consolidate();
    }

    method HoleCount() returns (count: nat)
      ensures count == |free|
    {
      count := 0;
      for i := 0 to |free|
        invariant count == i
      {
        count := count + 1;
      }
    }

    method CountResident() returns (count: int)
      ensures count == ResidentCount(procs)
    {
      count := 0;
      for i := 0 to |procs|
        invariant count == ResidentCount(procs[..i])
      {
        SumAppend(procs[..i], procs[i], ResidentWeight);
        assert procs[..i + 1] == procs[..i] + [procs[i]];
        if !procs[i].InDisk() {
          count := count + 1;
        }
      }
      assert procs[..|procs|] == procs;
    }

    method SizeResident() returns (size: int)
      ensures size == ResidentSize(procs)
    {
      size := 0;
      for i := 0 to |procs|
        invariant size == ResidentSize(procs[..i])
      {
        SumAppend(procs[..i], procs[i], ResidentBytes);
        assert procs[..i + 1] == procs[..i] + [procs[i]];
        if !procs[i].InDisk() {
          size := size + procs[i].size;
        }
      }
      assert procs[..|procs|] == procs;
    }

    method AddProcess(size: int, pid: int)
      modifies this`procs
      ensures View() == Added(old(View()), size, pid)
    {
      procs := procs + [ProcMem(IN_DISK, size, 0, pid)];
    }

    /** Finds the image to evict: first any resident one, then a better one. */
    method FindVictim() returns (v: nat)
      requires SomeResident(procs)
      ensures v == Victim(procs)
    {
      var j := 0;
      while procs[j].InDisk()
        invariant 0 <= j < |procs|
        invariant exists i :: j <= i && Resident(procs, i)
        invariant forall i :: 0 <= i < j ==> !Resident(procs, i)
        decreases |procs| - j
      {
        assert !Resident(procs, j);
        j := j + 1;
      }
      v := j;
      while j < |procs|
        invariant v <= j <= |procs| && v < |procs| && Resident(procs, v)
        invariant if j == v then Best(procs, j) == -1 else Best(procs, j) == v
      {
        if !procs[j].InDisk() {
          if procs[j].size > procs[v].size {
            v := j;
          } else if procs[j].size == procs[v].size && procs[j].swapIn <= procs[v].swapIn {
            v := j;
          }
        }
        j := j + 1;
      }
    }

    method SwapOut()
      requires SomeResident(procs)
      modifies this
      ensures View() == SwappedOut(old(View()), Victim(old(procs)))
    {
      var v := FindVictim();
      AddFreeSegment(procs[v].start, procs[v].size);
      procs := procs[v := procs[v].(start := IN_DISK, swapIn := 0)];
    }

    method SwapOutImage(i: nat)
      requires i < |procs|
      modifies this
      ensures View() == if Resident(old(procs), i) then SwappedOut(old(View()), i) else old(View())
    {
      if !procs[i].InDisk() {
        AddFreeSegment(procs[i].start, procs[i].size);
        procs := procs[i := procs[i].(start := IN_DISK, swapIn := 0)];
      }
    }

    /** The first hole of at least `n` addresses, or the number of holes. */
    method FindHole(n: int) returns (k: nat)
      ensures k == FirstFit(free, n)
    {
      k := 0;
      while k < |free| && !(n <= free[k].size)
        invariant 0 <= k <= |free|
        invariant forall j :: 0 <= j < k ==> free[j].size < n
      {
        k := k + 1;
      }
    }

    /** Puts image `i` at the top of hole `k`. */
    method Occupy(i: nat, k: nat, time: int)
      requires i < |procs| && k < |free|
      modifies this
      ensures View() == PlacedAt(old(View()), i, k, time)
    {
      procs := procs[i := procs[i].(start := free[k].start, swapIn := time)];
      if free[k].size - procs[i].size == 0 {
        free := free[..k] + free[k + 1..];
      } else {
        free := free[k := Segment(procs[i].Seg().End(), free[k].size - procs[i].size)];
      }
    }

    /** Brings image `i` into memory, evicting others as long as no hole fits. */
    method SwapInImage(i: nat, time: int, ghost memsize: int)
      requires Valid(View(), memsize)
      requires i < |procs| && 0 < procs[i].size <= memsize
      modifies this
      ensures old(procs[i].InDisk()) ==> View() == SwapIn(old(View()), i, time, memsize)
      ensures !old(procs[i].InDisk()) ==> View() == old(View())
    {
      while procs[i].InDisk()
        invariant i < |procs|
        invariant old(procs[i].InDisk()) && procs[i].InDisk() ==>
                    CanSwapIn(View(), i, memsize)
                    && SwapIn(View(), i, time, memsize) == SwapIn(old(View()), i, time, memsize)
        invariant !old(procs[i].InDisk()) ==> View() == old(View())
        invariant old(procs[i].InDisk()) ==> procs[i].InDisk()
        decreases ResidentCount(procs)
      {
        var k := FindHole(procs[i].size);
        if k < |free| {
          Occupy(i, k, time);
          return;
        }
        EvictionProgress(View(), i, memsize);
        SwapOut();
      }
    }

    method RemoveProcess(pid: int) returns (found: bool)
      modifies this
      ensures found <==> exists k :: 0 <= k < |old(procs)| && old(procs)[k].pid == pid
      ensures View() == Removed(old(View()), pid)
    {
      var j := 0;
      while j < |procs| && procs[j].pid != pid
        invariant 0 <= j <= |procs|
        invariant forall k :: 0 <= k < j ==> procs[k].pid != pid
      {
        j := j + 1;
      }
      assert j == IndexOf(procs, pid);
      found := j < |procs|;
      if found {
        var p := procs[j];
        procs := procs[..j] + procs[j + 1..];
        if !p.InDisk() {
          AddFreeSegment(p.start, p.size);
        }
      }
    }
  }
}
