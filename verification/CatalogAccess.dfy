/**
 * The fair per-book critical section of approval writers and output readers
 * (`ApprovalCatalogAccess` in packages/application/src/completed-output.ts).
 *
 * One call of `runExclusive` is three atomic blocks: joining the queue, starting its operation when
 * the promise it waits for resolves, and the `finally` block. Blocks of any calls interleave freely.
 */
module CatalogAccess {
  import opened Wrappers
  import opened Text

  datatype Phase = Waiting | Holding | Done

  /**
   * `parent` is the call in whose operation this one was made, if any; `previous` the call whose
   * tail it waits for.
   */
  datatype Call = Call(bookId: string, parent: Option<nat>, previous: Option<nat>, phase: Phase)

  /** `tails[b]` is the call whose tail promise is stored for book `b`. */
  datatype Queue = Queue(tails: map<string, nat>, calls: seq<Call>)

  datatype EntryError = BlankBook | Reentry(held: string)

  /** A tail resolves when its own turn was released and the tail before it has resolved. */
  predicate Resolved(calls: seq<Call>, i: nat)
    decreases i
  {
    && i < |calls| && calls[i].phase == Done
    && (calls[i].previous.Some? ==> calls[i].previous.value < i && Resolved(calls, calls[i].previous.value))
  }

  /** The call is waiting and the promise it waits for has resolved. */
  predicate Admissible(calls: seq<Call>, i: nat) {
    && i < |calls| && calls[i].phase == Waiting
    && (calls[i].previous.Some? ==> Resolved(calls, calls[i].previous.value))
  }

  /** The nearest enclosing call that still holds its section. */
  function ActiveAncestor(calls: seq<Call>, context: Option<nat>): Option<nat>
    decreases if context.Some? then context.value + 1 else 0
  {
    if context.None? || context.value >= |calls| then None
    else if calls[context.value].phase == Holding then context
    else if calls[context.value].parent.Some? && calls[context.value].parent.value < context.value
    then ActiveAncestor(calls, calls[context.value].parent)
    else None
  }

  function Enqueued(q: Queue, bookId: string, context: Option<nat>): Queue {
    var previous := if bookId in q.tails then Some(q.tails[bookId]) else None;
    Queue(q.tails[bookId := |q.calls|], q.calls + [Call(bookId, context, previous, Waiting)])
  }

  function Admitted(q: Queue, i: nat): Queue
    requires i < |q.calls|
  {
    q.(calls := q.calls[i := q.calls[i].(phase := Holding)])
  }

  function Released(q: Queue, i: nat): Queue
    requires i < |q.calls|
  {
    var b := q.calls[i].bookId;
    Queue(if b in q.tails && q.tails[b] == i then q.tails - {b} else q.tails, q.calls[i := q.calls[i].(phase := Done)])
  }

  // ---------------------------------------------------------------- what every step keeps

  ghost predicate GoodCall(calls: seq<Call>, i: nat)
    requires i < |calls|
  {
    var c := calls[i];
    && (c.parent.Some? ==> c.parent.value < i && calls[c.parent.value].phase == Done)
    && (c.previous.Some? ==>
          && c.previous.value < i && calls[c.previous.value].bookId == c.bookId
          && forall k | c.previous.value < k < i :: calls[k].bookId != c.bookId)
    && (c.previous.None? || c.phase != Waiting ==>
          forall k | 0 <= k < i && calls[k].bookId == c.bookId :: calls[k].phase == Done)
  }

  ghost predicate GoodTail(q: Queue, bookId: string)
    requires bookId in q.tails
  {
    var t := q.tails[bookId];
    && t < |q.calls| && q.calls[t].bookId == bookId && q.calls[t].phase != Done
    && forall k | t < k < |q.calls| :: q.calls[k].bookId != bookId
  }

  ghost predicate Valid(q: Queue) {
    && (forall i | 0 <= i < |q.calls| :: GoodCall(q.calls, i))
    && (forall b | b in q.tails :: GoodTail(q, b))
    && (forall i | 0 <= i < |q.calls| && q.calls[i].phase != Done :: q.calls[i].bookId in q.tails)
  }

  lemma EnqueueKeepsValid(q: Queue, bookId: string, context: Option<nat>)
    requires Valid(q)
    requires context.Some? ==> context.value < |q.calls| && q.calls[context.value].phase == Done
    ensures Valid(Enqueued(q, bookId, context))
  {
    var after := Enqueued(q, bookId, context);
    forall i | 0 <= i < |after.calls| ensures GoodCall(after.calls, i) {
      if i < |q.calls| {
        assert GoodCall(q.calls, i);
      } else if bookId in q.tails {
        assert GoodTail(q, bookId);
      }
    }
    forall b | b in after.tails ensures GoodTail(after, b) {
      if b != bookId {
        assert GoodTail(q, b);
      }
    }
  }

  lemma {:induction false} DoneIsResolved(calls: seq<Call>, i: nat)
    requires i < |calls| && calls[i].phase == Done && forall k | 0 <= k < |calls| :: GoodCall(calls, k)
    ensures Resolved(calls, i)
    decreases i
  {
    assert GoodCall(calls, i);
    if calls[i].previous.Some? {
      DoneIsResolved(calls, calls[i].previous.value);
    }
  }

  lemma AdmitKeepsValid(q: Queue, i: nat)
    requires Valid(q) && Admissible(q.calls, i)
    ensures Valid(Admitted(q, i))
  {
    var after := Admitted(q, i);
    assert GoodCall(q.calls, i);
    if q.calls[i].previous.Some? {
      assert GoodCall(q.calls, q.calls[i].previous.value);
    }
    forall k | 0 <= k < |after.calls| ensures GoodCall(after.calls, k) {
      assert GoodCall(q.calls, k);
    }
    forall b | b in after.tails ensures GoodTail(after, b) {
      assert GoodTail(q, b);
    }
  }

  lemma ReleaseKeepsValid(q: Queue, i: nat)
    requires Valid(q) && i < |q.calls| && q.calls[i].phase == Holding
    ensures Valid(Released(q, i))
  {
    var after := Released(q, i);
    forall k | 0 <= k < |after.calls| ensures GoodCall(after.calls, k) {
      assert GoodCall(q.calls, k);
    }
    forall b | b in after.tails ensures GoodTail(after, b) {
      assert GoodTail(q, b);
    }
    forall k | 0 <= k < |after.calls| && after.calls[k].phase != Done ensures after.calls[k].bookId in after.tails {
      var b := q.calls[k].bookId;
      assert GoodTail(q, b);
      assert GoodCall(q.calls, i) && GoodCall(q.calls, k);
    }
  }

  // ---------------------------------------------------------------- what the invariant gives

  /** At most one call per book holds its section, and sections are entered in call order. */
  lemma FirstComeFirstServed(q: Queue, i: nat, j: nat)
    requires Valid(q) && i < j < |q.calls| && q.calls[i].bookId == q.calls[j].bookId
    requires q.calls[j].phase != Waiting
    ensures q.calls[i].phase == Done
  {
    assert GoodCall(q.calls, j);
  }

  /** A book has a stored tail exactly while some call for it holds or waits, and it is the last one's. */
  lemma TailsTrackUse(q: Queue, bookId: string)
    requires Valid(q)
    ensures bookId in q.tails <==> exists i :: 0 <= i < |q.calls| && q.calls[i].bookId == bookId && q.calls[i].phase != Done
  {
    if bookId in q.tails {
      assert GoodTail(q, bookId);
    }
  }

  /**
   * A call made inside an operation is refused exactly while that operation holds its section: every
   * enclosing operation further out has finished.
   */
  lemma ReentryIff(q: Queue, context: Option<nat>)
    requires Valid(q) && (context.Some? ==> context.value < |q.calls|)
    ensures ActiveAncestor(q.calls, context) ==
            if context.Some? && q.calls[context.value].phase == Holding then context else None
  {
    if context.Some? && q.calls[context.value].phase != Holding {
      assert GoodCall(q.calls, context.value);
      if q.calls[context.value].parent.Some? {
        DoneHasNoActiveAncestor(q, q.calls[context.value].parent.value);
      }
    }
  }

  lemma {:induction false} DoneHasNoActiveAncestor(q: Queue, i: nat)
    requires Valid(q) && i < |q.calls| && q.calls[i].phase == Done
    ensures ActiveAncestor(q.calls, Some(i)) == None
    decreases i
  {
    assert GoodCall(q.calls, i);
    if q.calls[i].parent.Some? {
      DoneHasNoActiveAncestor(q, q.calls[i].parent.value);
    }
  }

  /**
   * No waiting cycle: every unfinished call waits only for an earlier call of its own book that can
   * act, either because it holds the section or because it may start; and no call that holds a
   * section encloses a waiting one.
   */
  lemma {:induction false} SomeoneCanAct(q: Queue, i: nat) returns (j: nat)
    requires Valid(q) && i < |q.calls| && q.calls[i].phase != Done
    ensures j <= i && q.calls[j].bookId == q.calls[i].bookId
    ensures q.calls[j].phase == Holding || Admissible(q.calls, j)
    ensures ActiveAncestor(q.calls, q.calls[i].parent) == None
    decreases i
  {
    assert GoodCall(q.calls, i);
    if q.calls[i].parent.Some? {
      DoneHasNoActiveAncestor(q, q.calls[i].parent.value);
    }
    j := i;
    if q.calls[i].phase == Waiting && q.calls[i].previous.Some? {
      var p := q.calls[i].previous.value;
      if q.calls[p].phase == Done {
        DoneIsResolved(q.calls, p);
      } else {
        j := SomeoneCanAct(q, p);
      }
    }
  }

  // ---------------------------------------------------------------- every interleaving

  predicate MayCall(q: Queue, context: Option<nat>) {
    context.Some? ==> context.value < |q.calls| && q.calls[context.value].phase != Waiting
  }

  datatype Block = Enters(bookId: string, context: Option<nat>) | Starts(call: nat) | Finishes(call: nat)

  /** One atomic block; a refused call leaves the queue alone. */
  ghost predicate Step(q: Queue, block: Block, after: Queue) {
    match block
    case Enters(bookId, context) =>
      && MayCall(q, context)
      && after == if Blank(bookId) || ActiveAncestor(q.calls, context).Some? then q else Enqueued(q, bookId, context)
    case Starts(i) => Admissible(q.calls, i) && after == Admitted(q, i)
    case Finishes(i) => i < |q.calls| && q.calls[i].phase == Holding && after == Released(q, i)
  }

  ghost predicate IsRun(queues: seq<Queue>, blocks: seq<Block>) {
    && |queues| == |blocks| + 1 && queues[0] == Queue(map[], [])
    && forall k | 0 <= k < |blocks| :: Step(queues[k], blocks[k], queues[k + 1])
  }

  /** In every interleaving of any calls: one holder per book at most, in call order, and no call ever stuck. */
  lemma {:induction false} EveryRunIsFair(queues: seq<Queue>, blocks: seq<Block>, n: nat)
    requires IsRun(queues, blocks) && n < |queues|
    ensures Valid(queues[n])
    ensures var calls := queues[n].calls;
            && (forall i, j | 0 <= i < j < |calls| && calls[i].bookId == calls[j].bookId ::
                  calls[j].phase != Waiting ==> calls[i].phase == Done)
            && (forall i | 0 <= i < |calls| && calls[i].phase == Waiting ::
                  exists j :: 0 <= j <= i && calls[j].bookId == calls[i].bookId
                           && (calls[j].phase == Holding || Admissible(calls, j)))
  {
    if n > 0 {
      EveryRunIsFair(queues, blocks, n - 1);
      var q, block := queues[n - 1], blocks[n - 1];
      assert Step(q, block, queues[n]);
      match block
      case Enters(bookId, context) =>
        ReentryIff(q, context);
        if !Blank(bookId) && ActiveAncestor(q.calls, context).None? {
          EnqueueKeepsValid(q, bookId, context);
        }
      case Starts(i) => AdmitKeepsValid(q, i);
      case Finishes(i) => ReleaseKeepsValid(q, i);
    }
    var q := queues[n];
    forall i, j | 0 <= i < j < |q.calls| && q.calls[i].bookId == q.calls[j].bookId && q.calls[j].phase != Waiting
      ensures q.calls[i].phase == Done
    {
      FirstComeFirstServed(q, i, j);
    }
    forall i | 0 <= i < |q.calls| && q.calls[i].phase == Waiting
      ensures exists j :: 0 <= j <= i && q.calls[j].bookId == q.calls[i].bookId
                       && (q.calls[j].phase == Holding || Admissible(q.calls, j))
    {
      var j := SomeoneCanAct(q, i);
    }
  }

  // ---------------------------------------------------------------- every call gets in

  /** A call that joins waits behind the earlier ones of its book, and behind nothing else. */
  lemma JoiningWaitsItsTurn(q: Queue, bookId: string, context: Option<nat>)
    requires Valid(q)
    ensures var after := Enqueued(q, bookId, context);
      && |after.calls| == |q.calls| + 1 && after.calls[..|q.calls|] == q.calls
      && after.calls[|q.calls|].bookId == bookId && after.calls[|q.calls|].parent == context
      && after.calls[|q.calls|].phase == Waiting
      && (Admissible(after.calls, |q.calls|) <==> forall i | 0 <= i < |q.calls| && q.calls[i].bookId == bookId :: q.calls[i].phase == Done)
  {
    var after, n := Enqueued(q, bookId, context), |q.calls|;
    TailsTrackUse(q, bookId);
    if bookId in q.tails {
      assert GoodTail(q, bookId);
      assert !Resolved(after.calls, q.tails[bookId]);
    }
  }

  function Weight(phase: Phase): nat {
    match phase case Waiting => 2 case Holding => 1 case Done => 0
  }

  /** What is left to do for the first `n` calls. */
  function Work(calls: seq<Call>, n: nat): nat
    requires n <= |calls|
  {
    if n == 0 then 0 else Work(calls, n - 1) + Weight(calls[n - 1].phase)
  }

  lemma {:induction false} WorkShrinks(calls: seq<Call>, n: nat, j: nat, call: Call)
    requires n <= |calls| && j < |calls| && Weight(call.phase) < Weight(calls[j].phase)
    ensures Work(calls[j := call], n) <= Work(calls, n)
    ensures j < n ==> Work(calls[j := call], n) < Work(calls, n)
  {
    if n > 0 {
      WorkShrinks(calls, n - 1, j, call);
    }
  }

  /** The blocks lead from the first queue to the last one; they start and finish calls, and no call enters. */
  ghost predicate Leads(queues: seq<Queue>, blocks: seq<Block>) {
    && |queues| == |blocks| + 1
    && forall k | 0 <= k < |blocks| :: !blocks[k].Enters? && Step(queues[k], blocks[k], queues[k + 1])
  }

  lemma LeadOn(q: Queue, block: Block, queues: seq<Queue>, blocks: seq<Block>)
    requires Leads(queues, blocks) && !block.Enters? && Step(q, block, queues[0])
    ensures Leads([q] + queues, [block] + blocks)
  {
    var allQueues, all := [q] + queues, [block] + blocks;
    forall k | 0 <= k < |all| ensures !all[k].Enters? && Step(allQueues[k], all[k], allQueues[k + 1]) {
      if k > 0 {
        assert all[k] == blocks[k - 1] && allQueues[k] == queues[k - 1] && allQueues[k + 1] == queues[k];
      }
    }
  }

  /** From every reachable queue, each waiting call can come to hold its section while the others only finish. */
  lemma {:induction false} EveryCallGetsIn(q: Queue, i: nat) returns (queues: seq<Queue>, blocks: seq<Block>)
    requires Valid(q) && i < |q.calls| && q.calls[i].phase == Waiting
    ensures Leads(queues, blocks) && queues[0] == q
    ensures var last := queues[|blocks|]; i < |last.calls| && last.calls[i].phase == Holding
    decreases Work(q.calls, i)
  {
    var j := SomeoneCanAct(q, i);
    var next, block;
    if q.calls[j].phase == Holding {
      next, block := Released(q, j), Finishes(j);
      ReleaseKeepsValid(q, j);
    } else {
      next, block := Admitted(q, j), Starts(j);
      AdmitKeepsValid(q, j);
    }
    WorkShrinks(q.calls, i, j, next.calls[j]);
    if j == i {
      queues, blocks := [next], [];
    } else {
      queues, blocks := EveryCallGetsIn(next, i);
    }
    LeadOn(q, block, queues, blocks);
    queues, blocks := [q] + queues, [block] + blocks;
  }

  // ---------------------------------------------------------------- the object

  class ApprovalCatalogAccess {
    var tails: map<string, nat>
    var calls: seq<Call>

    ghost function Abstract(): Queue
      reads this
    {
      Queue(tails, calls)
    }

    constructor ()
      ensures Abstract() == Queue(map[], []) && Valid(Abstract())
    {
      tails, calls := map[], [];
    }

    /** From the call of `runExclusive` to its first await. */
    method Enter(bookId: string, context: Option<nat>) returns (r: Result<nat, EntryError>)
      requires Valid(Abstract())
      requires context.Some? ==> context.value < |calls| && calls[context.value].phase != Waiting
      modifies this
      ensures Valid(Abstract())
      ensures r == if Blank(bookId) then Err(BlankBook)
                   else if context.Some? && old(calls)[context.value].phase == Holding
                   then Err(Reentry(old(calls)[context.value].bookId))
                   else Ok(|old(calls)|)
      ensures Abstract() == if r.Ok? then Enqueued(old(Abstract()), bookId, context) else old(Abstract())
    {
      if Blank(bookId) { return Err(BlankBook); }
      var ancestor: Option<nat> := context;
      ReentryIff(Abstract(), context);
      while ancestor.Some? && calls[ancestor.value].phase != Holding
        invariant ancestor.Some? ==> ancestor.value < |calls|
        invariant ActiveAncestor(calls, ancestor) == ActiveAncestor(calls, context)
        decreases if ancestor.Some? then ancestor.value + 1 else 0
      {
        assert GoodCall(calls, ancestor.value);
        ancestor := calls[ancestor.value].parent;
      }
      if ancestor.Some? { return Err(Reentry(calls[ancestor.value].bookId)); }
      EnqueueKeepsValid(Abstract(), bookId, context);
      var previous := if bookId in tails then Some(tails[bookId]) else None;
      r := Ok(|calls|);
      tails := tails[bookId := |calls|];
      calls := calls + [Call(bookId, context, previous, Waiting)];
    }

    /** The awaited tail has resolved: the operation starts. */
    method Start(i: nat)
      requires Valid(Abstract()) && Admissible(calls, i)
      modifies this`calls
      ensures Valid(Abstract()) && Abstract() == Admitted(old(Abstract()), i)
    {
      AdmitKeepsValid(Abstract(), i);
      calls := calls[i := calls[i].(phase := Holding)];
    }

    /** The `finally` block: release the turn, and forget the tail when no later call joined. */
    method Finish(i: nat)
      requires Valid(Abstract()) && i < |calls| && calls[i].phase == Holding
      modifies this
      ensures Valid(Abstract()) && Abstract() == Released(old(Abstract()), i)
    {
      ReleaseKeepsValid(Abstract(), i);
      var bookId := calls[i].bookId;
      calls := calls[i := calls[i].(phase := Done)];
      if bookId in tails && tails[bookId] == i {
        tails := tails - {bookId};
      }
    }
  }
}
