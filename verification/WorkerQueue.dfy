/** A worker's own queue: a small circular placeholder that takes the most urgent tasks of a ready
    list, in front of a double-ended queue that takes the others. */
module WorkerQueue {
  import opened TaskRing
  import opened TaskQueues

  const PLACEHOLDER_SIZE: nat := 2

  class Worker {
    const placeholder: array<Item?>
    var push: nat
    var pop: nat
    const queue: Dequeue

    constructor ()
      ensures Valid() && fresh(placeholder) && fresh(queue) && fresh(queue.ghostElement)
      ensures Held() == [] && queue.content == []
    {
      placeholder := new Item?[PLACEHOLDER_SIZE](_ => null);
      push, pop := 0, 0;
      queue := new Dequeue();
    }

    ghost predicate SlotsValid()
      reads this, placeholder
    {
      && placeholder.Length == PLACEHOLDER_SIZE && push < PLACEHOLDER_SIZE && pop < PLACEHOLDER_SIZE
      && (pop != push ==> placeholder[pop] != null)
    }

    ghost predicate Valid()
      reads this, placeholder, queue, queue.ghostElement, queue.content
    {
      SlotsValid() && queue.Valid()
    }

    /** The tasks in the placeholder: one slot always stays free. */
    ghost function Held(): seq<Item>
      requires SlotsValid()
      reads this, placeholder
    {
      if pop == push then [] else [placeholder[pop]]
    }

    /** Moves the first task of a list to the free slot. */
    method PlaceOne(first: Item, ghost s: seq<Item>) returns (more: Item?)
      requires SlotsValid() && pop == push && IsRing(s) && first == s[0]
      modifies this`push, placeholder, s
      ensures SlotsValid() && pop != push && Held() == [s[0]] && Ringed(more, s[1..])
    {
      placeholder[push] := first;
      push := (push + 1) % PLACEHOLDER_SIZE;
      assert |s| > 1 ==> s[0].next == s[1];
      if first.next == first {
        more := null;
      } else {
        more := Unhook(first, s);
      }
    }

    /** Moves tasks from the front of a list to the placeholder while there is a free slot. */
    method FillPlaceholder(first: Item, ghost s: seq<Item>) returns (more: Item?, ghost rest: seq<Item>)
      requires SlotsValid() && IsRing(s) && first == s[0]
      modifies this`push, placeholder, s
      ensures SlotsValid() && Ringed(more, rest)
      ensures Held() == (if old(pop == push) then [s[0]] else old(Held())) && rest == if old(pop == push) then s[1..] else s
    {
      more, rest := first, s;
      while more != null && (push + 1) % PLACEHOLDER_SIZE != pop
        invariant SlotsValid() && Ringed(more, rest)
        invariant rest == if push == old(push) then s else s[1..]
        invariant Held() == if push == old(push) then old(Held()) else [s[0]]
        invariant push != old(push) ==> old(pop == push) && pop != push
        decreases pop == push
      {
        more := PlaceOne(more, rest);
        rest := rest[1..];
      }
    }

    /** Queues a ready list, most urgent first: the placeholder takes the first task if it is free, the
        rest goes to the back of the queue, or to its front if it begins with a task of high priority. */
    method Schedule(first: Item, ghost s: seq<Item>, usePlaceholder: bool, high: Item -> bool)
      requires Valid() && IsRing(s) && first == s[0] && Disjoint([queue.ghostElement] + queue.content, s)
      modifies this`push, placeholder, queue, queue.ghostElement, queue.content, s
      ensures Valid()
      ensures Held() == if usePlaceholder && old(pop == push) then [s[0]] else old(Held())
      ensures var rest := if usePlaceholder && old(pop == push) then s[1..] else s;
        queue.content == if rest == [] then old(queue.content)
                         else if high(rest[0]) then rest + old(queue.content)
                         else old(queue.content) + rest
    {
      DisjointSuffix([queue.ghostElement] + queue.content, s);
      if usePlaceholder {
        var newContext, rest := FillPlaceholder(first, s);
        if newContext != null {
          Enqueue(newContext, rest, high);
        }
      } else {
        Enqueue(first, s, high);
      }
    }

    method Enqueue(first: Item, ghost s: seq<Item>, high: Item -> bool)
      requires queue.Valid() && IsRing(s) && first == s[0] && Disjoint([queue.ghostElement] + queue.content, s)
      modifies queue, queue.ghostElement, queue.content, s
      ensures queue.Valid()
      ensures queue.content == if high(s[0]) then s + old(queue.content) else old(queue.content) + s
    {
      if high(first) {
        queue.PushFront(first, s);
      } else {
        queue.PushBack(first, s);
      }
    }

    /** The next task of this worker: tasks leave in the order placeholder, then queue; a queue that another
        thread has locked yields none. */
    method ChooseLocalJob(contended: bool) returns (job: Item?)
      requires Valid()
      modifies this`pop, queue, queue.ghostElement, queue.content
      ensures Valid()
      ensures job == null <==> old(Held()) == [] && (contended || old(queue.content) == [])
      ensures job == null ==> Held() + queue.content == old(Held() + queue.content)
      ensures job != null ==> [job] + (Held() + queue.content) == old(Held() + queue.content)
    {
      if pop != push {
        job := placeholder[pop];
        pop := (pop + 1) % PLACEHOLDER_SIZE;
        assert pop == push;
      } else {
        job := queue.PopFront(contended);
      }
    }
  }

  lemma DisjointSuffix(r: seq<Item>, s: seq<Item>)
    requires Disjoint(r, s) && s != []
    ensures Disjoint(r, s[1..])
    ensures forall i :: 0 <= i < |s[1..]| ==> s[1..][i] == s[i + 1]
  {
  }
}
