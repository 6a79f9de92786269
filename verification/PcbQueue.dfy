/** The ready queues and the terminated list as the program builds them: control blocks linked
    through `next` (project1/process-scheduler.c). */
module PcbQueue {
  import opened Options

  class Block {
    var next: Block?
    const slot: nat

    constructor (slot: nat)
      ensures this.slot == slot && next == null
    {
      this.slot := slot;
      next := null;
    }
  }

  ghost function Successor(chain: seq<Block>, i: nat): Block? {
    if i + 1 < |chain| then chain[i + 1] else null
  }

  /** The blocks of `chain` are distinct, each links to its successor and the last to nothing. */
  ghost predicate Linked(chain: seq<Block>)
    reads chain
  {
    && (forall i, j :: 0 <= i < j < |chain| ==> chain[i] != chain[j])
    && (forall i :: 0 <= i < |chain| ==> chain[i].next == Successor(chain, i))
  }

  class Queue {
    var head: Block?
    ghost var chain: seq<Block>

    ghost predicate Valid()
      reads this, chain
    {
      Linked(chain) && head == if chain == [] then null else chain[0]
    }

    constructor ()
      ensures Valid() && chain == []
    {
      head := null;
      chain := [];
    }

    /** pop_front_pcb_from_pcbs_queue: the block that leaves still links to the one behind it. */
    method PopFront() returns (b: Block?)
      requires Valid()
      modifies this
      ensures Valid()
      ensures old(chain) == [] ==> b == null && chain == []
      ensures old(chain) != [] ==> b == old(chain)[0] && chain == old(chain)[1..] && b.next == head
    {
      b := head;
      if b != null {
        head := b.next;
        ghost var was := chain;
        chain := chain[1..];
        assert forall i :: 0 <= i < |chain| ==> chain[i] == was[i + 1] && Successor(chain, i) == Successor(was, i + 1);
      }
    }

    /** append_pcb_to_pcbs_list: a non-empty list cuts the block's link, an empty one takes the
        block as it is.  So the block is appended properly if and only if the list is not empty or
        the block links to nothing. */
    method Append(b: Block)
      requires Valid() && b !in chain
      modifies this, chain, b
      ensures chain == old(chain) + [b]
      ensures Valid() <==> old(chain) != [] || old(b.next) == null
    {
      ghost var was := chain;
      if head == null {
        head := b;
      } else {
        var prev, curr := head, head.next;
        ghost var i := 0;
        while curr != null
          invariant 0 <= i < |chain| && prev == chain[i]
          invariant curr == Successor(chain, i)
          decreases |chain| - i
        {
          prev, curr := curr, curr.next;
          i := i + 1;
        }
        prev.next := b;
        b.next := null;
      }
      chain := chain + [b];
      assert chain[|was|] == b && Successor(chain, |was|) == null;
      assert forall i :: 0 <= i < |was| ==> chain[i] == was[i];
      assert forall i :: 0 <= i < |was| - 1 ==> Successor(chain, i) == Successor(was, i);
    }
  }

  /** The slots of the blocks of a chain, in order. */
  ghost function Slots(chain: seq<Block>): seq<nat> {
    seq(|chain|, i requires 0 <= i < |chain| => chain[i].slot)
  }

  lemma SlotsAppend(chain: seq<Block>, b: Block)
    ensures Slots(chain + [b]) == Slots(chain) + [b.slot]
  {
  }

  lemma SlotsFirst(chain: seq<Block>)
    requires chain != []
    ensures Slots(chain) != [] && Slots(chain)[0] == chain[0].slot && Slots(chain[1..]) == Slots(chain)[1..]
  {
  }

  /** All the lists of a scheduler and the block that is on the processor.  The ready queues come
      by level, the terminated list last. */
  class Lists {
    const all: seq<Queue>
    var running: Block?

    /** The slots of the ready queues and of the terminated list. */
    ghost var waiting: seq<seq<nat>>
    ghost var ended: seq<nat>

    /** Every block made so far, with the index of the list that holds it, or the number of lists
        for the block that is in none. */
    ghost var home: map<Block, nat>

    /** The slot of the running block. */
    function Current(): Option<nat>
      reads this`running
    {
      if running == null then None else Some(running.slot)
    }

    ghost function Content(i: nat): seq<nat>
      reads this`waiting, this`ended
    {
      if i < |waiting| then waiting[i] else ended
    }

    /** List `i` is properly linked, and every block in it has it for its home. */
    ghost predicate ListOk(i: nat)
      requires i < |all|
      reads this`home, all, home.Keys
    {
      (forall x :: x in all[i].chain ==> x in home && home[x] == i) && all[i].Valid()
    }

    /** All lists are properly linked, and the running block is in none of them. */
    ghost predicate AllLinked()
      reads this`running, this`home, all, home.Keys
    {
      && (forall i, j :: 0 <= i < j < |all| ==> all[i] != all[j])
      && (forall i :: 0 <= i < |all| ==> ListOk(i))
      && (running != null ==> running in home && home[running] == |all|)
    }

    /** The lists hold the slots that they should. */
    ghost predicate Holding()
      reads this`waiting, this`ended, all
    {
      |all| == |waiting| + 1 && forall i :: 0 <= i < |all| ==> Slots(all[i].chain) == Content(i)
    }

    /** The running block links to nothing: it can be appended to any list. */
    ghost predicate Valid()
      reads this, all, home.Keys
    {
      AllLinked() && Holding() && (running != null ==> running.next == null)
    }

    constructor (levels: nat)
      ensures Valid() && running == null && home == map[] && ended == []
      ensures waiting == seq(levels, _ => [])
      ensures forall i :: 0 <= i < |all| ==> fresh(all[i])
    {
      var qs: seq<Queue> := [];
      for n := 0 to levels + 1
        invariant |qs| == n
        invariant forall i :: 0 <= i < n ==> fresh(qs[i]) && qs[i].Valid() && qs[i].chain == []
        invariant forall i, j :: 0 <= i < j < n ==> qs[i] != qs[j]
      {
        var q := new Queue();
        qs := qs + [q];
      }
      all, running, waiting, ended, home := qs, null, seq(levels, _ => []), [], map[];
    }

    /** A list that nothing has touched stays in order. */
    twostate lemma ListStays(i: nat)
      requires i < |all| && old(ListOk(i)) && unchanged(all[i])
      requires forall x :: x in all[i].chain ==> x in home && home[x] == i && unchanged(x)
      ensures ListOk(i)
    {
      assert forall a :: 0 <= a < |all[i].chain| ==> all[i].chain[a] in all[i].chain;
    }

    method Link(b: Block, k: nat)
      requires AllLinked() && k < |all| && b.next == null && b != running && (b in home ==> home[b] == |all|)
      modifies this`home, all[k], all[k].chain, b
      ensures AllLinked() && home == old(home)[b := k]
      ensures all[k].chain == old(all[k].chain) + [b]
    {
      assert ListOk(k);
      all[k].Append(b);
      home := home[b := k];
      assert ListOk(k);
      forall i | 0 <= i < |all| && i != k ensures ListOk(i) {
        assert old(ListOk(i));
        ListStays(i);
      }
    }

    /** A block outside all lists joins the end of list `k`. */
    method Append(b: Block, k: nat)
      requires Valid() && k < |all| && b.next == null && b != running && (b in home ==> home[b] == |all|)
      modifies this`waiting, this`ended, this`home, all, home.Keys, b
      ensures Valid() && home == old(home)[b := k]
      ensures waiting == if k < |old(waiting)| then old(waiting)[k := old(waiting)[k] + [b.slot]] else old(waiting)
      ensures ended == if k < |old(waiting)| then old(ended) else old(ended) + [b.slot]
    {
      assert ListOk(k);
      SlotsAppend(all[k].chain, b);
      Link(b, k);
      if k < |waiting| {
        waiting := waiting[k := waiting[k] + [b.slot]];
      } else {
        ended := ended + [b.slot];
      }
    }

    /** A new block, for the process in `slot`, joins the first ready queue. */
    method Admit(slot: nat)
      requires Valid() && waiting != []
      modifies this, all, home.Keys
      ensures Valid() && running == old(running) && fresh(home.Keys - old(home.Keys))
      ensures waiting == old(waiting)[0 := old(waiting)[0] + [slot]] && ended == old(ended)
    {
      var b := new Block(slot);
      Append(b, 0);
    }

    method Unlink(k: nat)
      requires AllLinked() && running == null && k < |all|
      modifies this`home, this`running, all[k]
      ensures AllLinked() && home.Keys == old(home.Keys)
      ensures if old(all[k].chain) == [] then running == null && all[k].chain == []
              else running == old(all[k].chain)[0] && all[k].chain == old(all[k].chain)[1..]
    {
      assert ListOk(k);
      running := all[k].PopFront();
      if running != null {
        home := home[running := |all|];
      }
      assert ListOk(k);
      forall i | 0 <= i < |all| && i != k ensures ListOk(i) {
        assert old(ListOk(i));
        ListStays(i);
      }
    }

    /** The head of ready queue `k`, if there is one, becomes the running block.  Until load_pcb
        cuts its link it still links to the block that was behind it. */
    method PopFront(k: nat)
      requires Valid() && running == null && k < |waiting|
      modifies this, all
      ensures AllLinked() && Holding() && home.Keys == old(home.Keys) && ended == old(ended)
      ensures running == null ==> waiting == old(waiting) && waiting[k] == []
      ensures running != null ==>
                old(waiting)[k] != [] && running.slot == old(waiting)[k][0] && waiting == old(waiting)[k := old(waiting)[k][1..]]
    {
      ghost var was := all[k].chain;
      Unlink(k);
      if running != null {
        SlotsFirst(was);
        waiting := waiting[k := waiting[k][1..]];
      }
    }

    method IsEmpty(k: nat) returns (empty: bool)
      requires Valid() && k < |waiting|
      ensures empty <==> waiting[k] == []
    {
      assert ListOk(k);
      empty := all[k].head == null;
    }

    /** The link of the running block is cut. */
    method Cut()
      requires AllLinked() && Holding() && running != null
      modifies running`next
      ensures Valid()
    {
      running.next := null;
      forall i | 0 <= i < |all| ensures ListOk(i) {
        assert old(ListOk(i));
      }
    }

    /** The running block joins the end of list `k`. */
    method Leave(k: nat)
      requires Valid() && running != null && k < |all|
      modifies this, all, home.Keys
      ensures Valid() && running == null && home.Keys == old(home.Keys)
      ensures var i := old(running.slot);
              if k < |old(waiting)| then waiting == old(waiting)[k := old(waiting)[k] + [i]] && ended == old(ended)
              else waiting == old(waiting) && ended == old(ended) + [i]
    {
      var b := running;
      running := null;
      Append(b, k);
    }
  }

  /** No block is in two places: the lists are pairwise disjoint, each is free of repetitions and
      so of cycles, and the running block is in none. */
  lemma ListsAreDisjoint(s: Lists, i: nat, j: nat)
    requires s.AllLinked() && i < |s.all| && j < |s.all|
    ensures i != j ==> s.all[i] != s.all[j] && forall x :: !(x in s.all[i].chain && x in s.all[j].chain)
    ensures forall a, b :: 0 <= a < b < |s.all[i].chain| ==> s.all[i].chain[a] != s.all[i].chain[b]
    ensures forall a :: 0 <= a < |s.all[i].chain| ==> s.all[i].chain[a].next == Successor(s.all[i].chain, a)
    ensures s.running != null ==> s.running !in s.all[i].chain
  {
    assert s.ListOk(i) && s.ListOk(j);
  }
}
