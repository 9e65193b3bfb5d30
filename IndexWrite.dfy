/** `IndexWriteAction` and `IndexWriteExecutor`: the queued index mutations
  * and the lifecycle of the one index writer they run against. The thread
  * pool, the scheduler thread and the read/write lock are sequentialised:
  * the worker runs one queued action at a time, and the delayed closer fires
  * between two actions. A `Store` stands for Lucene's `IndexWriter`: `docs`
  * is what the writer holds, `committed` its last commit. */
module IndexWrite {
  import opened Wrappers
  import opened Index

  // ---- IndexWriteAction ----

  /** What `run` does to the writer's documents: add when `add` is set,
    * else optimize (documents unchanged), else update (every document with
    * the term is replaced by the new one; with a null term Lucene deletes
    * nothing and only adds). `None` is an operation that throws before its
    * commit and changes nothing: a null document, or one holding a null
    * field, handed to the writer. */
  function Effect(add: bool, optimize: bool, term: Option<Term>, doc: Option<Document>, docs: seq<Document>)
    : (r: Option<seq<Document>>)
    ensures r.None? <==> (add || !optimize) && (doc.None? || !Writable(doc.value))
    ensures r.Some? && (add || !optimize) ==> |r.value| > 0 && r.value[|r.value| - 1] == doc.value
    ensures r.Some? && (add || (!optimize && term.None?)) ==> |r.value| == |docs| + 1 && r.value[..|docs|] == docs
    ensures r.Some? && !add && !optimize && term.Some? ==> forall i :: 0 <= i < |r.value| - 1 ==>
      r.value[i] in docs && !Matches(r.value[i], term.value)
  {
    if add then
      (if doc.None? || !Writable(doc.value) then None else Some(docs + [doc.value]))
    else if optimize then Some(docs)
    else if doc.None? || !Writable(doc.value) then None
    else if term.None? then Some(docs + [doc.value])
    else Some(Without(docs, term.value) + [doc.value])
  }

  /** An add of a writable document adds one document to what every term
    * finds when the term matches it, and none otherwise. */
  lemma AddCounts(docs: seq<Document>, d: Document, t: Term)
    ensures Effect(true, false, None, Some(d), docs).Some? <==> Writable(d)
    ensures Writable(d) ==>
      Count(Effect(true, false, None, Some(d), docs).value, t) == Count(docs, t) + (if Matches(d, t) then 1 else 0)
  {
    CountAppend(docs, d, t);
  }

  /** After an update with a writable document, the term finds the new
    * document only. */
  lemma UpdateReplaces(docs: seq<Document>, t: Term, d: Document)
    requires Matches(d, t)
    ensures Effect(false, false, Some(t), Some(d), docs).Some? <==> Writable(d)
    ensures Writable(d) ==> Count(Effect(false, false, Some(t), Some(d), docs).value, t) == 1
  {
    CountWithout(docs, t);
    CountAppend(Without(docs, t), d, t);
  }

  /** An update keeps every document without the term. */
  lemma UpdateKeepsOthers(docs: seq<Document>, t: Term, d: Document)
    ensures Writable(d) ==> forall i :: 0 <= i < |docs| && !Matches(docs[i], t) ==>
      docs[i] in Effect(false, false, Some(t), Some(d), docs).value
  {
  }

  /** Optimizing changes no document, whatever the other fields hold. */
  lemma OptimizeKeeps(term: Option<Term>, doc: Option<Document>, docs: seq<Document>)
    ensures Effect(false, true, term, doc, docs) == Some(docs)
  {
  }

  /** `add` is checked first: an action with both flags adds. */
  lemma AddTakesPrecedence(term: Option<Term>, d: Document, docs: seq<Document>)
    ensures Effect(true, true, term, Some(d), docs) == if Writable(d) then Some(docs + [d]) else None
  {
  }

  /** One queued index mutation. The constructor is private in the source;
    * the three factories are the only way to make one. */
  class WriteAction {
    var add: bool
    var optimize: bool
    var term: Option<Term>
    var doc: Option<Document>

    /** `addAction(doc)`. */
    constructor AddAction(d: Document)
      ensures add && !optimize && term.None? && doc == Some(d)
    {
      add, optimize, term, doc := true, false, None, Some(d);
    }

    /** `updateAction(term, doc)`. */
    constructor UpdateAction(t: Term, d: Document)
      ensures !add && !optimize && term == Some(t) && doc == Some(d)
    {
      add, optimize, term, doc := false, false, Some(t), Some(d);
    }

    /** `optimizeAction()`. */
    constructor OptimizeAction()
      ensures !add && optimize && term.None? && doc.None?
    {
      add, optimize, term, doc := false, true, None, None;
    }

    /** The documents after this action has run on `docs`. */
    function Applied(docs: seq<Document>): seq<Document>
      reads this
    {
      var e := Effect(add, optimize, term, doc, docs);
      if e.Some? then e.value else docs
    }

    /** `run`: exactly one operation, then a commit. A missing writer
      * (`getIndexWriter()` is null) or a failing operation throws, and the
      * exception is logged and swallowed: nothing changes. */
    method Run(writer: Store?)
      modifies writer
      ensures writer != null && Effect(add, optimize, term, doc, old(writer.docs)).Some? ==>
        writer.docs == Effect(add, optimize, term, doc, old(writer.docs)).value && writer.committed == writer.docs
      ensures writer != null && Effect(add, optimize, term, doc, old(writer.docs)).None? ==>
        writer.docs == old(writer.docs) && writer.committed == old(writer.committed)
    {
      if writer == null {
        return;
      }
      var e := Effect(add, optimize, term, doc, writer.docs);
      if e.Some? {
        writer.docs := e.value;
        writer.committed := writer.docs;
      }
    }
  }

  // ---- IndexWriteExecutor: the lifecycle as pure steps ----

  /** The lifecycle state: the `writerClosed` flag, whether `indexWriter`
    * is non-null, whether a delayed close is scheduled and not yet done,
    * and whether the scheduler has been shut down (it then rejects new
    * delayed closes). */
  datatype Flags = Flags(writerClosed: bool, writerPresent: bool, delayedPending: bool, schedulerShut: bool)

  /** A writer exists only while the open flag is set. */
  predicate Consistent(f: Flags)
  {
    f.writerPresent ==> !f.writerClosed
  }

  const DefaultMaxIndexWriteActions := 500

  /** `openIndexWriter`: an existing writer is kept; otherwise one is
    * created, which may fail; either way the flag says open. */
  function Opened(f: Flags, creationSucceeds: bool): (r: Flags)
    ensures !r.writerClosed && Consistent(r)
    ensures f.writerPresent ==> r.writerPresent
    ensures r.writerPresent <==> f.writerPresent || creationSucceeds
    ensures r.delayedPending == f.delayedPending && r.schedulerShut == f.schedulerShut
  {
    f.(writerClosed := false, writerPresent := f.writerPresent || creationSucceeds)
  }

  /** `closeIndexWriter`: always ends closed and without a writer, even
    * when closing throws. */
  function Closed(f: Flags): (r: Flags)
    ensures r.writerClosed && !r.writerPresent && Consistent(r)
    ensures r.delayedPending == f.delayedPending && r.schedulerShut == f.schedulerShut
  {
    f.(writerClosed := true, writerPresent := false)
  }

  /** `beforeExecute`: the pending delayed close is cancelled, then the
    * writer is opened if the flag says closed. */
  function Before(f: Flags, creationSucceeds: bool): (r: Flags)
    requires Consistent(f)
    ensures !r.writerClosed && !r.delayedPending && Consistent(r)
    ensures r.writerPresent <==> f.writerPresent || (f.writerClosed && creationSucceeds)
    ensures r.schedulerShut == f.schedulerShut
  {
    var c := f.(delayedPending := false);
    if c.writerClosed then Opened(c, creationSucceeds) else c
  }

  /** `afterExecute` after the `n`-th completed task: a synchronous close
    * when closing early or when `n` is a multiple of the batch size;
    * otherwise one delayed close is scheduled, or, when the scheduler
    * rejects it, the writer is closed at once. `None`: the batch size is
    * zero and the remainder throws `ArithmeticException` (for `n >= 0`,
    * Java's remainder and Dafny's agree for either sign of the divisor). */
  function After(f: Flags, closeWriterEarly: bool, maxIndexWriteActions: int, n: nat): (r: Option<Flags>)
    requires Consistent(f)
    ensures r.None? <==> !closeWriterEarly && maxIndexWriteActions == 0
    ensures r.Some? ==> Consistent(r.value) && r.value.schedulerShut == f.schedulerShut
    ensures r.Some? && (closeWriterEarly || n % maxIndexWriteActions == 0) ==> r.value.writerClosed && !r.value.writerPresent
    ensures r.Some? && !closeWriterEarly && n % maxIndexWriteActions != 0 ==>
      (if f.schedulerShut then r.value.writerClosed && !r.value.delayedPending
       else r.value.delayedPending && r.value.writerClosed == f.writerClosed && r.value.writerPresent == f.writerPresent)
  {
    if closeWriterEarly then Some(Closed(f))
    else if maxIndexWriteActions == 0 then None
    else if n % maxIndexWriteActions == 0 then Some(Closed(f))
    else
      var c := f.(delayedPending := false);
      if c.schedulerShut then Some(Closed(c)) else Some(c.(delayedPending := true))
  }

  /** The delayed closer firing: its future is done, and it closes the
    * writer only when the flag says open and no action is queued. */
  function Fire(f: Flags, queueEmpty: bool): (r: Flags)
    ensures !r.delayedPending && r.schedulerShut == f.schedulerShut
    ensures r.writerClosed <==> f.writerClosed || queueEmpty
    ensures !f.writerClosed && !queueEmpty ==> r.writerPresent == f.writerPresent
    ensures Consistent(f) ==> Consistent(r)
  {
    var g := f.(delayedPending := false);
    if !g.writerClosed && queueEmpty then Closed(g) else g
  }

  /** `shutdown`: the pending close is cancelled, the scheduler stopped,
    * and the writer closed. */
  function ShutDown(f: Flags): (r: Flags)
    ensures r.writerClosed && !r.writerPresent && !r.delayedPending && r.schedulerShut
  {
    Closed(f.(delayedPending := false, schedulerShut := true))
  }

  /** One worker step: `beforeExecute`, the action, `afterExecute`. */
  function Executed(f: Flags, creationSucceeds: bool, closeWriterEarly: bool, maxIndexWriteActions: int, n: nat): Flags
    requires Consistent(f)
  {
    var b := Before(f, creationSucceeds);
    After(b, closeWriterEarly, maxIndexWriteActions, n).GetOr(b)
  }

  /** "Open flag, no writer" is reachable, and `beforeExecute` does not
    * repair it: every action then finds no writer until a close. */
  lemma OpenWithoutWriterPersists()
    ensures Opened(Closed(Flags(false, false, false, false)), false) == Flags(false, false, false, false)
    ensures forall cs :: !Before(Flags(false, false, false, false), cs).writerPresent
  {
  }

  /** A single write followed by an idle period (the delayed closer fires
    * on an empty queue) leaves the writer closed. */
  lemma IdleCloses(f: Flags, cs: bool, maxIndexWriteActions: int, n: nat)
    requires Consistent(f) && !f.schedulerShut
    requires maxIndexWriteActions != 0 && n % maxIndexWriteActions != 0
    ensures Executed(f, cs, false, maxIndexWriteActions, n).delayedPending
    ensures var g := Fire(Executed(f, cs, false, maxIndexWriteActions, n), true);
      g.writerClosed && !g.writerPresent && !g.delayedPending
  {
  }

  /** A second write arriving before the delayed closer fires cancels it and
    * reuses the open writer; its own `afterExecute` schedules a new one. */
  lemma SecondWriteCancels(f: Flags, cs1: bool, cs2: bool, maxIndexWriteActions: int, n: nat)
    requires Consistent(f) && !f.schedulerShut
    requires maxIndexWriteActions != 0 && n % maxIndexWriteActions != 0 && (n + 1) % maxIndexWriteActions != 0
    ensures var g := Executed(f, cs1, false, maxIndexWriteActions, n);
      var b := Before(g, cs2);
      !b.delayedPending && !b.writerClosed && b.writerPresent == g.writerPresent &&
      Executed(g, cs2, false, maxIndexWriteActions, n + 1) == g
  {
  }

  /** The state after workers steps with completed-task counts `ns`, in
    * order; `cs` says whether each writer creation succeeds. */
  function Batch(f: Flags, cs: bool, maxIndexWriteActions: int, ns: seq<nat>): (r: Flags)
    requires Consistent(f)
    ensures Consistent(r)
    decreases |ns|
  {
    if ns == [] then f
    else
      var g := Batch(f, cs, maxIndexWriteActions, ns[..|ns| - 1]);
      Executed(g, cs, false, maxIndexWriteActions, ns[|ns| - 1])
  }

  lemma {:induction false} MulAtLeast(d: int, m: int)
    requires m > 0 && d > 0
    ensures d * m >= m
  {
    if d > 1 {
      MulAtLeast(d - 1, m);
      assert d * m == (d - 1) * m + m;
    }
  }

  /** The Euclidean remainder is unique. */
  lemma RemUnique(x: int, m: int, q: int, r: int)
    requires m > 0 && 0 <= r < m && x == q * m + r
    ensures x % m == r
  {
    var q2, r2 := x / m, x % m;
    assert x == q2 * m + r2;
    var d := q - q2;
    assert d * m == r2 - r by {
      assert d * m == q * m - q2 * m;
    }
    if d > 0 {
      MulAtLeast(d, m);
    } else if d < 0 {
      MulAtLeast(-d, m);
    }
  }

  lemma ModAddDivisor(x: nat, m: nat)
    requires m > 0
    ensures (x + m) % m == x % m
  {
    var q := x / m;
    assert x == q * m + x % m;
    assert x + m == (q + 1) * m + x % m;
    RemUnique(x + m, m, q + 1, x % m);
  }

  /** A multiple of `m` among `m` consecutive counts. */
  lemma {:induction false} MultipleAmong(c: nat, m: nat) returns (j: nat)
    requires m > 0
    ensures j < m && (c + j) % m == 0
  {
    if c == 0 {
      j := 0;
    } else if c < m {
      j := m - c;
      ModAddDivisor(0, m);
    } else {
      j := MultipleAmong(c - m, m);
      ModAddDivisor(c - m + j, m);
    }
  }

  /** Without early closing, the writer stays open for at most
    * `maxIndexWriteActions` consecutive actions: among that many consecutive
    * completed-task counts one ends with a synchronous close. */
  lemma {:induction false} BatchClosesWithin(f: Flags, cs: bool, maxIndexWriteActions: nat, ns: seq<nat>)
    requires Consistent(f) && maxIndexWriteActions > 0 && |ns| >= maxIndexWriteActions
    requires forall i :: 0 < i < |ns| ==> ns[i] == ns[i - 1] + 1
    ensures exists k :: (0 < k <= maxIndexWriteActions &&
      Batch(f, cs, maxIndexWriteActions, ns[..k]).writerClosed && !Batch(f, cs, maxIndexWriteActions, ns[..k]).writerPresent)
  {
    var j := MultipleAmong(ns[0], maxIndexWriteActions);
    ConsecutiveCounts(ns, j);
    var pre := ns[..j + 1];
    assert pre[..|pre| - 1] == ns[..j] && pre[|pre| - 1] == ns[j];
    var g := Batch(f, cs, maxIndexWriteActions, ns[..j]);
    assert Batch(f, cs, maxIndexWriteActions, pre) == Executed(g, cs, false, maxIndexWriteActions, ns[j]);
  }

  lemma {:induction false} ConsecutiveCounts(ns: seq<nat>, j: nat)
    requires j < |ns|
    requires forall i :: 0 < i < |ns| ==> ns[i] == ns[i - 1] + 1
    ensures ns[j] == ns[0] + j
  {
    if j > 0 {
      ConsecutiveCounts(ns, j - 1);
    }
  }

  // ---- IndexWriteExecutor: the class ----

  class IndexWriteExecutor {
    var writer: Store?
    var writerClosed: bool
    var closeWriterEarly: bool
    var maxIndexWriteActions: int
    var delayedPending: bool
    var schedulerShut: bool
    var poolShut: bool
    /** The work queue of the single worker, in FIFO order. */
    var queue: seq<WriteAction>
    /** The index directory's last commit while no writer is open. */
    var directory: seq<Document>

    function Lifecycle(): Flags
      reads this
    {
      Flags(writerClosed, writer != null, delayedPending, schedulerShut)
    }

    /** The index as readers see it: the open writer's last commit, else the
      * directory. */
    function Disk(): seq<Document>
      reads this, writer
    {
      if writer != null then writer.committed else directory
    }

    /** The writer exists only while the flag says open, and every action
      * commits, so the writer holds no uncommitted documents between
      * actions. */
    predicate Valid()
      reads this, writer
    {
      Consistent(Lifecycle()) && (writer != null ==> writer.docs == writer.committed)
    }

    /** The constructor: writer closed, `Index.closeWriterEarly` default
      * false, `Index.maxIndexWriteActions` default 500. */
    constructor (closeWriterEarlySetting: Option<bool>, maxSetting: Option<int>, dir: seq<Document>)
      ensures Valid() && Lifecycle() == Flags(true, false, false, false) && !poolShut
      ensures closeWriterEarly == closeWriterEarlySetting.GetOr(false)
      ensures maxIndexWriteActions == maxSetting.GetOr(DefaultMaxIndexWriteActions)
      ensures queue == [] && Disk() == dir
    {
      writer := null;
      writerClosed := true;
      closeWriterEarly := closeWriterEarlySetting.GetOr(false);
      maxIndexWriteActions := maxSetting.GetOr(DefaultMaxIndexWriteActions);
      delayedPending, schedulerShut, poolShut := false, false, false;
      queue := [];
      directory := dir;
    }

    method OpenIndexWriter(creationSucceeds: bool)
      requires Valid()
      modifies this
      ensures Valid() && Lifecycle() == Opened(old(Lifecycle()), creationSucceeds)
      ensures old(writer) != null ==> writer == old(writer)
      ensures old(writer) == null && writer != null ==> fresh(writer)
      ensures Disk() == old(Disk())
      ensures queue == old(queue) && closeWriterEarly == old(closeWriterEarly)
      ensures maxIndexWriteActions == old(maxIndexWriteActions) && poolShut == old(poolShut)
    {
      if writer == null && creationSucceeds {
        writer := new Store(directory);
      }
      writerClosed := false;
    }

    /** Closing commits the writer's documents to the directory. */
    method CloseIndexWriter()
      requires Valid()
      modifies this
      ensures Valid() && Lifecycle() == Closed(old(Lifecycle()))
      ensures Disk() == old(Disk())
      ensures queue == old(queue) && closeWriterEarly == old(closeWriterEarly)
      ensures maxIndexWriteActions == old(maxIndexWriteActions) && poolShut == old(poolShut)
    {
      if writer != null {
        directory := writer.committed;
      }
      writerClosed := true;
      writer := null;
    }

    method CancelDelayedIndexCloser()
      modifies this
      ensures Lifecycle() == old(Lifecycle()).(delayedPending := false)
      ensures writer == old(writer) && directory == old(directory) && queue == old(queue)
      ensures closeWriterEarly == old(closeWriterEarly) && maxIndexWriteActions == old(maxIndexWriteActions)
      ensures poolShut == old(poolShut)
    {
      delayedPending := false;
    }

    /** `execute(action)`: queued, or rejected once the pool is shut down. */
    method Submit(a: WriteAction) returns (rejected: bool)
      modifies this
      ensures rejected <==> old(poolShut)
      ensures queue == if rejected then old(queue) else old(queue) + [a]
      ensures Lifecycle() == old(Lifecycle()) && writer == old(writer) && directory == old(directory)
      ensures closeWriterEarly == old(closeWriterEarly) && maxIndexWriteActions == old(maxIndexWriteActions)
      ensures poolShut == old(poolShut)
    {
      rejected := poolShut;
      if !rejected {
        queue := queue + [a];
      }
    }

    method BeforeExecute(creationSucceeds: bool)
      requires Valid()
      modifies this
      ensures Valid() && Lifecycle() == Before(old(Lifecycle()), creationSucceeds)
      ensures old(writer) != null ==> writer == old(writer)
      ensures old(writer) == null && writer != null ==> fresh(writer)
      ensures Disk() == old(Disk())
      ensures queue == old(queue) && closeWriterEarly == old(closeWriterEarly)
      ensures maxIndexWriteActions == old(maxIndexWriteActions) && poolShut == old(poolShut)
    {
      CancelDelayedIndexCloser();
      if writerClosed {
        OpenIndexWriter(creationSucceeds);
      }
    }

    /** `afterExecute` with the completed-task count `n`; `threw` is the
      * `ArithmeticException` of a zero batch size. */
    method AfterExecute(n: nat) returns (threw: bool)
      requires Valid()
      modifies this
      ensures Valid()
      ensures threw <==> After(old(Lifecycle()), closeWriterEarly, maxIndexWriteActions, n).None?
      ensures Lifecycle() == After(old(Lifecycle()), closeWriterEarly, maxIndexWriteActions, n).GetOr(old(Lifecycle()))
      ensures Disk() == old(Disk())
      ensures queue == old(queue) && closeWriterEarly == old(closeWriterEarly)
      ensures maxIndexWriteActions == old(maxIndexWriteActions) && poolShut == old(poolShut)
    {
      threw := false;
      if closeWriterEarly {
        CloseIndexWriter();
      } else if maxIndexWriteActions == 0 {
        threw := true;
      } else if n % maxIndexWriteActions == 0 {
        CloseIndexWriter();
      } else {
        CancelDelayedIndexCloser();
        if schedulerShut {
          CloseIndexWriter();
        } else {
          delayedPending := true;
        }
      }
    }

    /** The worker takes the head of the queue and runs it between
      * `beforeExecute` and `afterExecute`. The action changes the index only
      * when a writer is present after `beforeExecute`. */
    method RunNext(creationSucceeds: bool, n: nat) returns (threw: bool)
      requires Valid() && queue != []
      modifies this, writer
      ensures Valid()
      ensures Lifecycle() == Executed(old(Lifecycle()), creationSucceeds, old(closeWriterEarly), old(maxIndexWriteActions), n)
      ensures Before(old(Lifecycle()), creationSucceeds).writerPresent ==> Disk() == old(queue[0]).Applied(old(Disk()))
      ensures !Before(old(Lifecycle()), creationSucceeds).writerPresent ==> Disk() == old(Disk())
      ensures queue == old(queue[1..])
      ensures closeWriterEarly == old(closeWriterEarly) && maxIndexWriteActions == old(maxIndexWriteActions)
      ensures poolShut == old(poolShut)
    {
      var a := queue[0];
      queue := queue[1..];
      BeforeExecute(creationSucceeds);
      a.Run(writer);
      threw := AfterExecute(n);
    }

    /** The delayed closer firing. */
    method DelayedFire()
      requires Valid()
      modifies this
      ensures Valid() && Lifecycle() == Fire(old(Lifecycle()), old(queue) == [])
      ensures Disk() == old(Disk())
      ensures queue == old(queue) && closeWriterEarly == old(closeWriterEarly)
      ensures maxIndexWriteActions == old(maxIndexWriteActions) && poolShut == old(poolShut)
    {
      delayedPending := false;
      if !writerClosed && queue == [] {
        CloseIndexWriter();
      }
    }

    /** `shutdown`: no new actions are accepted; queued ones still run. */
    method Shutdown()
      requires Valid()
      modifies this
      ensures Valid() && Lifecycle() == ShutDown(old(Lifecycle())) && poolShut
      ensures Disk() == old(Disk())
      ensures queue == old(queue) && closeWriterEarly == old(closeWriterEarly)
      ensures maxIndexWriteActions == old(maxIndexWriteActions)
    {
      CancelDelayedIndexCloser();
      schedulerShut := true;
      poolShut := true;
      CloseIndexWriter();
    }
  }
}
