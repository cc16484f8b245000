/** The exit handlers of platfree/atexit.c: a list that is emptied from its
    tail, so that the reverse order in which the C library runs registered
    functions becomes the order in which they were enqueued. */
module AtExit {
  import opened LinkedList
  import opened Sequences

  /** A handler is a function pointer; this one is the null pointer. */
  const NULL: int := 0

  function Items(nodes: seq<Node>): (fs: seq<int>)
    ensures |fs| == |nodes| && forall i :: 0 <= i < |fs| ==> fs[i] == nodes[i].item
  {
    seq(|nodes|, i requires 0 <= i < |nodes| => nodes[i].item)
  }

  function Reverse(s: seq<int>): (r: seq<int>) {
    if s == [] then [] else Reverse(s[1..]) + [s[0]]
  }

  /** Section 7.22.4.4 of C17 together with 7.22.4.3: the functions registered
      with atexit() are called in the reverse order of their registration. */
  function AtNormalExit(registered: seq<int>): (calls: seq<int>) {
    Reverse(registered)
  }

  /** How many entries at the end of `q` are no null pointers. */
  function Tail(q: seq<int>): (n: nat)
    ensures n <= |q|
    ensures forall i :: |q| - n <= i < |q| ==> q[i] != NULL
    ensures n < |q| ==> q[|q| - n - 1] == NULL
  {
    if q == [] || q[|q| - 1] == NULL then 0 else 1 + Tail(q[..|q| - 1])
  }

  ghost predicate Within(nodes: seq<Node>, repr: set<Node>) {
    forall i :: 0 <= i < |nodes| ==> nodes[i] in repr
  }

  /** What is enqueued runs, in this order and completely, exactly when no null
      pointer is enqueued. */
  lemma EnqueueOrder(q: seq<int>)
    ensures q[|q| - Tail(q)..] == q <==> NULL !in q
  {
    if q[|q| - Tail(q)..] == q {
      assert Tail(q) == |q|;
    }
  }

  /** A function registered last is called first. */
  lemma {:induction false} Registered(registered: seq<int>, func: int)
    ensures AtNormalExit(registered + [func]) == [func] + AtNormalExit(registered)
  {
    if registered == [] {
      assert [func][1..] == [];
    } else {
      Registered(registered[1..], func);
      assert (registered + [func])[1..] == registered[1..] + [func];
    }
  }

  lemma NothingRegistered()
    ensures AtNormalExit([]) == []
  {
  }

  /** The loop of atexit_apply() has met a null pointer, or an empty list. */
  ghost predicate Stopped(q: seq<int>, rest: seq<int>, taken: seq<int>) {
    if rest == [] && q == taken then true else q == rest + [NULL] + taken
  }

  lemma Stops(q: seq<int>, left: seq<int>, rest: seq<int>, func: int, taken: seq<int>)
    requires q == left + taken
    requires if left == [] then func == NULL && rest == [] else left == rest + [func]
    ensures func != NULL ==> q == rest + [func] + taken
    ensures func == NULL ==> Stopped(q, rest, taken)
  {
  }

  lemma {:induction false} TailIs(q: seq<int>, n: nat)
    requires n <= |q| && forall i :: |q| - n <= i < |q| ==> q[i] != NULL
    requires n < |q| ==> q[|q| - n - 1] == NULL
    ensures Tail(q) == n
  {
    if n > 0 {
      TailIs(q[..|q| - 1], n - 1);
    }
  }

  lemma InTail(q: seq<int>, k: nat)
    requires k <= |q| && NULL !in q[k..]
    ensures forall i :: k <= i < |q| ==> q[i] != NULL
  {
    assert forall i :: k <= i < |q| ==> q[i] == q[k..][i - k];
  }

  lemma StoppedAt(q: seq<int>, rest: seq<int>, taken: seq<int>)
    requires Stopped(q, rest, taken) && NULL !in taken
    ensures taken == q[|q| - Tail(q)..]
    ensures rest == if Tail(q) == |q| then [] else q[..|q| - Tail(q) - 1]
  {
    hide Tail;
    if q == taken {
      TailIs(q, |taken|);
      assert q[0..] == q;
    } else {
      AroundOne(rest, NULL, taken);
      InTail(q, |rest| + 1);
      TailIs(q, |taken|);
    }
  }

  class Handlers {
    const head: Node
    ghost var nodes: seq<Node>
    ghost var repr: set<Node>

    ghost predicate Valid()
      reads this, repr
    {
      && head in repr && Within(nodes, repr)
      && Ring(head, nodes)
    }

    /** The handlers in the list, in the order of their enqueueing. */
    ghost function Queue(): (q: seq<int>)
      reads this
    {
      Items(nodes)
    }

    constructor ()
      ensures Valid() && Queue() == []
      ensures fresh(repr)
    {
      var h := new Node(NULL);
      head := h;
      nodes, repr := [], {h};
      new;
      HeadInit(head);
    }

    /** atexit_enque() */
    method Enque(func: int)
      requires Valid()
      modifies this, repr
      ensures Valid() && Queue() == old(Queue()) + [func]
      ensures fresh(repr - old(repr))
    {
      var ae := new Node(func);
      AddTail(ae, head, nodes);
      nodes, repr := nodes + [ae], repr + {ae};
    }

    /** atexit_deque() */
    method Deque() returns (func: int)
      requires Valid()
      modifies this, repr
      ensures Valid() && repr == old(repr)
      ensures old(Queue()) == [] ==> func == NULL && Queue() == []
      ensures old(Queue()) != [] ==> old(Queue()) == Queue() + [func]
    {
      var empty := IsEmpty(head, nodes);
      if empty {
        return NULL;
      }
      var ent := Last(head, nodes);
      func := ent.item;
      ghost var k := |nodes| - 1;
      Delete(ent, head, nodes, k);
      assert nodes[..k] + nodes[k + 1..] == nodes[..k];
      nodes := nodes[..k];
    }

    /** atexit_apply(): `registered` are the arguments of the calls of atexit().
        What runs at exit is the part of the queue after its last null pointer,
        in the order of enqueueing; that null pointer is dequeued too. */
    method Apply() returns (registered: seq<int>)
      requires Valid()
      modifies this, repr
      ensures Valid() && repr == old(repr)
      ensures var q, n := old(Queue()), Tail(old(Queue()));
              && AtNormalExit(registered) == q[|q| - n..]
              && Queue() == if n == |q| then [] else q[..|q| - n - 1]
    {
      hide Valid, Ring, Around, Distinct, Items, Tail, Stopped, Reverse;
      registered := [];
      ghost var q, taken := Queue(), [];
      NothingRegistered();
      var func := Deque();
      Stops(q, q, Queue(), func, taken);
      while func != NULL
        invariant Valid() && repr == old(repr)
        invariant AtNormalExit(registered) == taken && NULL !in taken
        invariant func != NULL ==> q == Queue() + [func] + taken
        invariant func == NULL ==> Stopped(q, Queue(), taken)
        decreases |Queue()| + (if func != NULL then 1 else 0)
      {
        Registered(registered, func);
        Assoc(Queue(), [func], taken);
        registered, taken := registered + [func], [func] + taken;
        ghost var left := Queue();
        func := Deque();
        Stops(q, left, Queue(), func, taken);
      }
      StoppedAt(q, Queue(), taken);
    }
  }

  /** __prepare_longrunning() of entry/uni.c, with its two handlers: at exit the
      logging is torn down first, then the process id is dropped. */
  method PrepareLongrunning(teardownLogging: int, popProcessId: int) returns (registered: seq<int>)
    requires teardownLogging != NULL && popProcessId != NULL
    ensures AtNormalExit(registered) == [teardownLogging, popProcessId]
  {
    hide Tail, AtNormalExit, Items;
    var handlers := new Handlers();
    handlers.Enque(teardownLogging);
    handlers.Enque(popProcessId);
    ghost var q := handlers.Queue();
    assert q == [teardownLogging, popProcessId];
    EnqueueOrder(q);
    registered := handlers.Apply();
  }
}
