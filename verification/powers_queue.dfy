/**
 * The FIFO queue of power values (sources/powers_queue.c). The linked nodes
 * reachable from Head are the sequence `values`; what Tail points to is
 * recorded separately, since the C code can leave it NULL or dangling.
 */
module PowersQueue {

  /** Where Tail points: the last reachable node, NULL, or a node already freed. */
  datatype TailRef = LastNode | Null | Freed

  datatype Queue = Queue(values: seq<real>, tail: TailRef, length: int)

  /** Length counts the reachable nodes, and Tail is the last of them whenever there is one. */
  predicate Valid(q: Queue)
  {
    q.length == |q.values| && (q.values != [] ==> q.tail == LastNode)
  }

  /** init_powers_queue: Head and Tail NULL, Length 0. */
  function InitPowersQueue(): (q: Queue)
    ensures Valid(q) && q.values == [] && IsEmpty(q)
  {
    Queue([], Null, 0)
  }

  /** is_empty_powers_queue: Length is 0. */
  predicate IsEmpty(q: Queue): (b: bool)
    ensures b ==> q.length == 0 && (Valid(q) ==> q.values == [])
    ensures Valid(q) && q.values == [] ==> b
  {
    q.length == 0
  }

  /** On a valid queue the counter and the list agree on emptiness. */
  lemma EmptyMeansNoValues(q: Queue)
    requires Valid(q)
    ensures IsEmpty(q) <==> q.values == []
  {
  }

  /** get_from_powers_queue: the head value, or 0 when Head is NULL. */
  function GetFromPowersQueue(q: Queue): (v: real)
    ensures q.values != [] ==> v == q.values[0]
    ensures q.values == [] ==> v == 0.0
  {
    if q.values == [] then 0.0 else q.values[0]
  }

  /**
   * pop_from_powers_queue: Head moves to the next node and Length drops by
   * one. Head must not be NULL. When the last node goes, Tail is left
   * pointing at it.
   */
  function PopFromPowersQueue(q: Queue): (r: Queue)
    requires q.values != []
    ensures r.values == q.values[1..] && r.length == q.length - 1
    ensures Valid(q) ==> Valid(r)
  {
    Queue(q.values[1..], if |q.values| == 1 then Freed else q.tail, q.length - 1)
  }

  /** The result of put_into_powers_queue: the new queue, or a dereference of a NULL Tail. */
  datatype PutResult = Done(queue: Queue) | NullDereference

  /**
   * put_into_powers_queue as written: Tail is overwritten with the result of
   * malloc before it is checked, so a failed allocation leaves Tail NULL
   * while Head still holds the nodes; a later put then links the new node
   * through that NULL Tail.
   */
  function PutAsWritten(q: Queue, v: real, mallocOk: bool): (r: PutResult)
    ensures r.NullDereference? <==> mallocOk && q.values != [] && q.tail == Null
    ensures !mallocOk ==> r == Done(q.(tail := Null))
    ensures r.Done? && mallocOk ==>
      r.queue.values == q.values + [v] && r.queue.length == q.length + 1 && r.queue.tail == LastNode
  {
    if !mallocOk then Done(q.(tail := Null))
    else if q.values == [] then Done(Queue([v], LastNode, q.length + 1))
    else if q.tail == Null then NullDereference
    else Done(Queue(q.values + [v], LastNode, q.length + 1))
  }

  /**
   * On a queue holding one value, a failed allocation followed by a
   * successful one ends in a dereference of NULL.
   */
  lemma PutAsWrittenLosesTail()
    ensures PutAsWritten(Queue([1.0], LastNode, 1), 2.0, false) == Done(Queue([1.0], Null, 1))
    ensures !Valid(Queue([1.0], Null, 1))
    ensures PutAsWritten(Queue([1.0], Null, 1), 3.0, true) == NullDereference
  {
  }

  /**
   * put_into_powers_queue with the allocation checked before Tail is
   * overwritten: a failure leaves the queue as it was; a success links the
   * new node after the last one (or makes it the Head of an empty queue).
   */
  function PutIntoPowersQueue(q: Queue, v: real, mallocOk: bool): (r: Queue)
    requires Valid(q)
    ensures Valid(r)
    ensures mallocOk ==> r.values == q.values + [v]
    ensures !mallocOk ==> r == q
  {
    if !mallocOk then q
    else if q.values == [] then Queue([v], LastNode, q.length + 1)
    else Queue(q.values + [v], LastNode, q.length + 1)
  }

  /** When the allocation succeeds, the two versions agree on a valid queue. */
  lemma PutVersionsAgree(q: Queue, v: real)
    requires Valid(q)
    ensures PutAsWritten(q, v, true) == Done(PutIntoPowersQueue(q, v, true))
  {
  }

  /** Putting each of vs in turn, every allocation succeeding. */
  function PutAll(q: Queue, vs: seq<real>): (r: Queue)
    requires Valid(q)
    ensures Valid(r)
    decreases |vs|
  {
    if vs == [] then q else PutAll(PutIntoPowersQueue(q, vs[0], true), vs[1..])
  }

  /** Popping n times. */
  function PopN(q: Queue, n: nat): (r: Queue)
    requires Valid(q) && n <= |q.values|
    ensures Valid(r)
    decreases n
  {
    if n == 0 then q else PopN(PopFromPowersQueue(q), n - 1)
  }

  lemma {:induction false} PutAllAppends(q: Queue, vs: seq<real>)
    requires Valid(q)
    ensures PutAll(q, vs).values == q.values + vs
    decreases |vs|
  {
    if vs != [] {
      var q' := PutIntoPowersQueue(q, vs[0], true);
      PutAllAppends(q', vs[1..]);
      assert q.values + vs == q'.values + vs[1..];
    }
  }

  lemma {:induction false} PopNDrops(q: Queue, n: nat)
    requires Valid(q) && n <= |q.values|
    ensures PopN(q, n).values == q.values[n..]
    decreases n
  {
    if n > 0 {
      PopNDrops(PopFromPowersQueue(q), n - 1);
      assert q.values[1..][n - 1..] == q.values[n..];
    }
  }

  /**
   * First in, first out: after values vs are put into an empty queue, the
   * value read after i pops is the i-th value put.
   */
  lemma Fifo(vs: seq<real>, i: nat)
    requires i < |vs|
    ensures var q := PutAll(InitPowersQueue(), vs);
      i <= |q.values| && GetFromPowersQueue(PopN(q, i)) == vs[i]
  {
    var q := PutAll(InitPowersQueue(), vs);
    PutAllAppends(InitPowersQueue(), vs);
    PopNDrops(q, i);
  }

  /**
   * free_powers_queue: pops while the queue is not empty; the values freed,
   * in the order they are freed, are the queue's values from the head.
   */
  method FreePowersQueue(q: Queue) returns (freed: seq<real>, r: Queue)
    requires Valid(q)
    ensures freed == q.values
    ensures IsEmpty(r) && r.values == []
  {
    freed := [];
    r := q;
    while !IsEmpty(r)
      invariant Valid(r)
      invariant freed + r.values == q.values
      decreases |r.values|
    {
      freed := freed + [GetFromPowersQueue(r)];
      r := PopFromPowersQueue(r);
    }
  }
}
