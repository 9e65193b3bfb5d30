/** `EventManager`: listeners registered under their class name, synchronous
  * broadcast and targeted dispatch that stop at the first failing listener,
  * and asynchronous dispatch as tasks queued on a single worker. */
module Events {
  import opened Wrappers

  /** An event: its topic name and the object it carries. */
  datatype Event<P> = Event(name: string, payload: P)

  /** A listener instance: its runtime class name and which instance. */
  datatype Listener = Listener(className: string, instance: nat)

  /** A task on the single-worker queue of the asynchronous variants. */
  datatype Task<P> = Task(target: Listener, event: Event<P>)

  /** `order` lists the keys of `m` once each: one iteration order of the
    * listener map, which the source leaves unspecified. */
  predicate IsEnumeration(order: seq<string>, m: map<string, Listener>)
  {
    (forall i, j :: 0 <= i < j < |order| ==> order[i] != order[j]) &&
    (forall i :: 0 <= i < |order| ==> order[i] in m) &&
    (forall k :: k in m ==> k in order)
  }

  /** The listeners in iteration order. */
  function InOrder(order: seq<string>, m: map<string, Listener>): (r: seq<Listener>)
    requires forall i :: 0 <= i < |order| ==> order[i] in m
    ensures |r| == |order|
    ensures forall i :: 0 <= i < |order| ==> r[i] == m[order[i]]
  {
    if order == [] then [] else [m[order[0]]] + InOrder(order[1..], m)
  }

  /** Index of the first listener whose handler throws, or `|ls|`. */
  function FirstThrower<P>(ls: seq<Listener>, e: Event<P>, throws: (Listener, Event<P>) -> bool): (k: nat)
    ensures k <= |ls|
    ensures forall i :: 0 <= i < k ==> !throws(ls[i], e)
    ensures k < |ls| ==> throws(ls[k], e)
  {
    if ls == [] then 0
    else if throws(ls[0], e) then 0
    else 1 + FirstThrower(ls[1..], e, throws)
  }

  /** `handleEvent` may throw; which listener throws on which event is the
    * listener's own code, passed in as `throws`. */
  class EventManager<P> {
    var listeners: map<string, Listener>
    var queue: seq<Task<P>>

    /** The registry after construction; listeners found by classpath
      * scanning are added afterwards with `AddListener`. */
    constructor ()
      ensures listeners == map[] && queue == []
    {
      listeners := map[];
      queue := [];
    }

    /** `addListener(clazz, listener)`: registers under `clazz`'s name,
      * replacing any listener of that name. */
    method AddListener(clazz: string, listener: Listener)
      modifies this
      ensures listeners == old(listeners)[clazz := listener]
      ensures queue == old(queue)
    {
      listeners := listeners[clazz := listener];
    }

    /** `addListener(listener)`: keyed by the listener's own class. */
    method AddListenerInstance(listener: Listener)
      modifies this
      ensures listeners == old(listeners)[listener.className := listener]
      ensures queue == old(queue)
    {
      AddListener(listener.className, listener);
    }

    /** `addListener(clazz)`: `created` is the result of `newInstance`; a
      * failed instantiation is logged and registers nothing. */
    method AddListenerOfClass(clazz: string, created: Option<Listener>)
      modifies this
      ensures created.Some? ==> listeners == old(listeners)[clazz := created.value]
      ensures created.None? ==> listeners == old(listeners)
      ensures queue == old(queue)
    {
      if created.Some? {
        AddListener(clazz, created.value);
      }
    }

    /** `removeListner(clazz, listener)`: removes the entry named after the
      * listener's runtime class; `clazz` is only logged. */
    method RemoveListener(clazz: string, listener: Listener)
      modifies this
      ensures listeners == old(listeners) - {listener.className}
      ensures queue == old(queue)
    {
      listeners := listeners - {listener.className};
    }

    /** `fireEvent(event)`: calls the listeners in iteration order; the first
      * exception is wrapped and thrown (`failed`), so the listeners after it
      * are not called. Returns the listeners that were called. */
    method FireEvent(event: Event<P>, order: seq<string>, throws: (Listener, Event<P>) -> bool)
      returns (called: seq<Listener>, failed: bool)
      requires IsEnumeration(order, listeners)
      ensures var ls := InOrder(order, listeners);
        var k := FirstThrower(ls, event, throws);
        failed == (k < |ls|) && called == ls[..if failed then k + 1 else k]
    {
      ghost var ls := InOrder(order, listeners);
      ghost var k := FirstThrower(ls, event, throws);
      called := [];
      failed := false;
      var i := 0;
      while i < |order| && !failed
        invariant 0 <= i <= |order|
        invariant called == ls[..i]
        invariant !failed ==> i <= k
        invariant failed ==> i >= 1 && k == i - 1
      {
        var l := listeners[order[i]];
        assert l == ls[i];
        called := called + [l];
        failed := throws(l, event);
        i := i + 1;
      }
    }

    /** `fireEvent(delegate, event)`: only the listener registered under
      * `delegate`'s name, if any, is called. */
    method FireEventTo(delegate: string, event: Event<P>, throws: (Listener, Event<P>) -> bool)
      returns (called: seq<Listener>, failed: bool)
      ensures delegate in listeners ==> called == [listeners[delegate]] && failed == throws(listeners[delegate], event)
      ensures delegate !in listeners ==> called == [] && !failed
    {
      if delegate in listeners {
        called := [listeners[delegate]];
        failed := throws(listeners[delegate], event);
      } else {
        called, failed := [], false;
      }
    }

    /** `fireAsyncEvent(event)`: one task per listener, in iteration order,
      * queued behind the pending ones; nothing is called yet. */
    method FireAsyncEvent(event: Event<P>, order: seq<string>)
      modifies this
      requires IsEnumeration(order, listeners)
      ensures listeners == old(listeners)
      ensures |queue| == |old(queue)| + |order|
      ensures queue[..|old(queue)|] == old(queue)
      ensures forall i :: 0 <= i < |order| ==> queue[|old(queue)| + i] == Task(listeners[order[i]], event)
    {
      var i := 0;
      ghost var q0 := queue;
      while i < |order|
        invariant 0 <= i <= |order|
        invariant listeners == old(listeners)
        invariant |queue| == |q0| + i && queue[..|q0|] == q0
        invariant forall j :: 0 <= j < i ==> queue[|q0| + j] == Task(listeners[order[j]], event)
      {
        queue := queue + [Task(listeners[order[i]], event)];
        i := i + 1;
      }
    }

    /** `fireAsyncEvent(delegate, event)`: at most one task. */
    method FireAsyncEventTo(delegate: string, event: Event<P>)
      modifies this
      ensures listeners == old(listeners)
      ensures delegate in listeners ==> queue == old(queue) + [Task(listeners[delegate], event)]
      ensures delegate !in listeners ==> queue == old(queue)
    {
      if delegate in listeners {
        queue := queue + [Task(listeners[delegate], event)];
      }
    }

    /** The single worker takes the oldest task first. */
    method RunNext() returns (task: Option<Task<P>>)
      modifies this
      ensures old(queue) == [] ==> task.None? && queue == []
      ensures old(queue) != [] ==> task == Some(old(queue)[0]) && queue == old(queue)[1..]
      ensures listeners == old(listeners)
    {
      if queue == [] {
        task := None;
      } else {
        task := Some(queue[0]);
        queue := queue[1..];
      }
    }
  }
}
