/** The intrusive free lists of `wsrpc/server.go`, once as values (a heap of linked nodes) for
    reasoning over interleavings, once as the linked objects the server mutates. */
module RpcPool {
  import opened Strings

  // ---------- Linked nodes as values ----------

  datatype Node<T> = Node(next: Option<nat>, body: T)

  function Link(list: seq<nat>, i: nat): Option<nat> {
    if i < |list| then Some(list[i]) else None
  }

  /** All objects ever allocated, and the head of the free list threaded through them. */
  datatype Pool<T> = Pool(heap: map<nat, Node<T>>, head: Option<nat>) {

    /** Take the head, or allocate `spare`; either way the object is zeroed. */
    function Acquire(spare: nat, zero: T): Pool<T> {
      var id := Acquired(spare);
      Pool(heap[id := Node(None, zero)], if id in heap then heap[id].next else None)
    }

    function Acquired(spare: nat): nat {
      if head.Some? then head.value else spare
    }

    function Release(id: nat): Pool<T>
      requires id in heap
    {
      Pool(heap[id := Node(head, heap[id].body)], Some(id))
    }

    function Store(id: nat, body: T): Pool<T>
      requires id in heap
    {
      Pool(heap[id := heap[id].(body := body)], head)
    }

    /** `list` is the free list: linked from the head, ending in nil, without a repetition. */
    ghost predicate IsList(list: seq<nat>) {
      && head == Link(list, 0)
      && (forall i :: 0 <= i < |list| ==> list[i] in heap && heap[list[i]].next == Link(list, i + 1))
      && forall i, j :: 0 <= i < j < |list| ==> list[i] != list[j]
    }
  }

  /** Taking an object leaves an acyclic list without it. */
  lemma AcquireKeeps<T>(pool: Pool<T>, list: seq<nat>, spare: nat, zero: T)
    requires pool.IsList(list) && spare !in pool.heap
    ensures var next, id := pool.Acquire(spare, zero), pool.Acquired(spare);
            && next.IsList(if list == [] then [] else list[1..])
            && id in next.heap && next.heap[id] == Node(None, zero)
            && id !in (if list == [] then [] else list[1..])
            && (list == [] ==> id == spare) && (list != [] ==> id == list[0])
            && next.heap.Keys == pool.heap.Keys + {id}
            && forall x :: x in pool.heap && x != id ==> next.heap[x] == pool.heap[x]
  {
    if list != [] {
      assert forall i :: 0 <= i < |list| - 1 ==> list[1..][i] == list[i + 1];
    }
  }

  /** Giving back an object that is not on the list keeps the list acyclic. */
  lemma ReleaseKeeps<T>(pool: Pool<T>, list: seq<nat>, id: nat)
    requires pool.IsList(list) && id in pool.heap && id !in list
    ensures pool.Release(id).IsList([id] + list)
    ensures pool.Release(id).heap.Keys == pool.heap.Keys
    ensures forall x :: x in pool.heap ==> pool.Release(id).heap[x].body == pool.heap[x].body
  {
    var list', next := [id] + list, pool.Release(id);
    forall i | 0 <= i < |list'|
      ensures list'[i] in next.heap && next.heap[list'[i]].next == Link(list', i + 1)
    {
      if i > 0 {
        assert list'[i] == list[i - 1];
      }
    }
  }

  lemma StoreKeeps<T>(pool: Pool<T>, list: seq<nat>, id: nat, body: T)
    requires pool.IsList(list) && id in pool.heap
    ensures pool.Store(id, body).IsList(list)
    ensures pool.Store(id, body).heap.Keys == pool.heap.Keys
    ensures pool.Store(id, body).heap[id].body == body
    ensures forall x :: x in pool.heap && x != id ==> pool.Store(id, body).heap[x] == pool.heap[x]
  {
  }

  lemma {:induction false} ListsAgree<T>(pool: Pool<T>, a: seq<nat>, b: seq<nat>, i: nat)
    requires pool.IsList(a) && pool.IsList(b) && i < |a|
    ensures i < |b| && a[i] == b[i]
    decreases i
  {
    if i == 0 {
      assert Link(a, 0) == Link(b, 0);
    } else {
      ListsAgree(pool, a, b, i - 1);
      assert Link(a, i) == pool.heap[a[i - 1]].next == Link(b, i);
    }
  }

  /** A list threaded through the heap is determined by its head: it cannot be read two ways. */
  lemma ListIsUnique<T>(pool: Pool<T>, a: seq<nat>, b: seq<nat>)
    requires pool.IsList(a) && pool.IsList(b)
    ensures a == b
  {
    hide Pool.IsList;
    forall i | 0 <= i < |a|
      ensures i < |b| && a[i] == b[i]
    {
      ListsAgree(pool, a, b, i);
    }
    if |a| > 0 {
      ListsAgree(pool, a, b, |a| - 1);
    }
    if |b| > |a| {
      ListsAgree(pool, b, a, |a|);
    }
    assert |a| == |b|;
  }

  // ---------- Linked objects ----------

  class Cell<T> {
    var next: Cell?<T>
    var body: T

    constructor (body: T)
      ensures this.body == body && next == null
    {
      this.body := body;
      next := null;
    }
  }

  /** One of the server's two free lists; each method is one critical section. */
  class FreeList<T> {
    const zero: T
    var head: Cell?<T>
    ghost var list: seq<Cell<T>>

    constructor (zero: T)
      ensures this.zero == zero && Valid() && list == []
    {
      this.zero := zero;
      head := null;
      list := [];
    }

    ghost predicate Valid()
      reads this, list
    {
      && (if list == [] then head == null else head == list[0])
      && (forall i :: 0 <= i < |list| - 1 ==> list[i].next == list[i + 1])
      && (list != [] ==> list[|list| - 1].next == null)
      && forall i, j :: 0 <= i < j < |list| ==> list[i] != list[j]
    }

    method Get() returns (cell: Cell<T>)
      requires Valid()
      modifies this`head, this`list, set c | c in list
      ensures Valid() && cell !in list && cell.body == zero && cell.next == null
      ensures old(list) == [] ==> fresh(cell) && list == []
      ensures old(list) != [] ==> cell == old(list)[0] && list == old(list)[1..]
      ensures forall c :: c in list ==> c.body == old(c.body)
    {
      if head == null {
        cell := new Cell(zero);
      } else {
        cell := head;
        head := cell.next;
        list := list[1..];
        cell.next := null;
        cell.body := zero;
      }
    }

    method Free(cell: Cell<T>)
      requires Valid() && cell !in list
      modifies this`head, this`list, cell`next
      ensures Valid() && list == [cell] + old(list) && cell.body == old(cell.body)
    {
      cell.next := head;
      head := cell;
      list := [cell] + list;
    }
  }
}
