/**
 The attester bridge: callers send mint requests over a bounded channel, one loop serves
 them and writes each caller's one-shot reply, and the loop ends when the last sender
 is gone and the channel is empty.
 */
module BridgeProtocol {
  import opened Wrappers

  const CAPACITY: nat := 64

  /** A request and the number of its reply slot. */
  datatype Request<A> = Request(slot: nat, args: A)

  /**
   `accepted` and `served` are histories: everything a `send` ever put in the channel,
   and everything the loop is done with, each in order.
   */
  datatype State<A, R> = State(senders: nat, queue: seq<Request<A>>, inService: Option<Request<A>>,
                               replies: map<nat, R>, abandoned: set<nat>, exited: bool,
                               accepted: seq<Request<A>>, served: seq<Request<A>>)

  datatype Step<A, R> =
    | CloneSender
    | DropSender
    | Send(args: A)
    | Abandon(slot: nat)   // a caller drops its receiver before the reply
    | Recv
    | Answer(result: R)
    | Exit

  ghost predicate Init<A, R>(s: State<A, R>) {
    s == State(1, [], None, map[], {}, false, [], [])
  }

  ghost predicate Enabled<A, R>(s: State<A, R>, l: Step<A, R>) {
    match l
    case CloneSender => s.senders > 0
    case DropSender => s.senders > 0
    case Send(_) => s.senders > 0 && |s.queue| < CAPACITY && !s.exited
    case Abandon(slot) => slot < |s.accepted| && slot !in s.replies
    case Recv => !s.exited && s.inService.None? && s.queue != []
    case Answer(_) => s.inService.Some?
    case Exit => !s.exited && s.inService.None? && s.queue == [] && s.senders == 0
  }

  ghost function After<A, R>(s: State<A, R>, l: Step<A, R>): State<A, R>
    requires Enabled(s, l)
  {
    match l
    case CloneSender => s.(senders := s.senders + 1)
    case DropSender => s.(senders := s.senders - 1)
    case Send(args) =>
      var r := Request(|s.accepted|, args);
      s.(queue := s.queue + [r], accepted := s.accepted + [r])
    case Abandon(slot) => s.(abandoned := s.abandoned + {slot})
    case Recv => s.(inService := Some(s.queue[0]), queue := s.queue[1..])
    case Answer(result) =>
      var r := s.inService.value;
      s.(inService := None, served := s.served + [r],
         replies := if r.slot in s.abandoned then s.replies else s.replies[r.slot := result])
    case Exit => s.(exited := true)
  }

  /** A run: a first state and the steps taken from it, each enabled where it is taken. */
  ghost predicate IsRun<A, R>(s: State<A, R>, steps: seq<Step<A, R>>)
    decreases |steps|
  {
    steps == [] || (Enabled(s, steps[0]) && IsRun(After(s, steps[0]), steps[1..]))
  }

  ghost function Final<A, R>(s: State<A, R>, steps: seq<Step<A, R>>): State<A, R>
    requires IsRun(s, steps)
    decreases |steps|
  {
    if steps == [] then s else Final(After(s, steps[0]), steps[1..])
  }

  // ----- the invariant -----

  ghost function InServiceSeq<A, R>(s: State<A, R>): seq<Request<A>> {
    if s.inService.Some? then [s.inService.value] else []
  }

  ghost predicate Inv<A, R>(s: State<A, R>) {
    && s.accepted == s.served + InServiceSeq(s) + s.queue
    && (forall i :: 0 <= i < |s.accepted| ==> s.accepted[i].slot == i)
    && |s.queue| <= CAPACITY
    && (forall slot :: slot in s.replies ==> slot < |s.served|)
    && (forall slot :: 0 <= slot < |s.served| ==> slot in s.replies || slot in s.abandoned)
    && (s.exited ==> s.senders == 0 && s.queue == [] && s.inService.None?)
  }

  lemma InvStep<A, R>(s: State<A, R>, l: Step<A, R>)
    requires Inv(s) && Enabled(s, l)
    ensures Inv(After(s, l))
  {
    var t := After(s, l);
    match l
    case Recv =>
      assert s.queue == [s.queue[0]] + s.queue[1..];
      assert t.accepted == t.served + InServiceSeq(t) + t.queue;
    case Answer(_) =>
      assert s.accepted[|s.served|] == s.inService.value;
      assert t.accepted == t.served + InServiceSeq(t) + t.queue;
    case Send(_) =>
      assert t.accepted == t.served + InServiceSeq(t) + t.queue;
    case _ =>
  }

  /** The invariant holds in every reachable state. */
  lemma {:induction false} InvReachable<A, R>(s: State<A, R>, steps: seq<Step<A, R>>)
    requires Inv(s) && IsRun(s, steps)
    ensures Inv(Final(s, steps))
    decreases |steps|
  {
    if steps != [] {
      InvStep(s, steps[0]);
      InvReachable(After(s, steps[0]), steps[1..]);
    }
  }

  lemma InvInit<A, R>(s: State<A, R>)
    requires Init(s)
    ensures Inv(s)
  {
  }

  // ----- what every reachable state keeps -----

  /** An accepted request is answered, in service or queued, and exactly one of the three. */
  lemma ExactlyOnePlace<A, R>(s: State<A, R>, i: nat)
    requires Inv(s) && i < |s.accepted|
    ensures var r := s.accepted[i];
            var answered, serving, queued := r in s.served, s.inService == Some(r), r in s.queue;
            && (answered || serving || queued)
            && !(answered && serving) && !(answered && queued) && !(serving && queued)
            && (answered <==> i < |s.served|)
  {
    var r := s.accepted[i];
    var n := |s.served| + |InServiceSeq(s)|;
    assert forall j :: 0 <= j < |s.served| ==> s.served[j] == s.accepted[j];
    assert s.inService.Some? ==> s.inService.value == s.accepted[|s.served|];
    assert forall j :: 0 <= j < |s.queue| ==> s.queue[j] == s.accepted[n + j];
    if i >= n {
      assert s.queue[i - n] == r;
    }
    if i < |s.served| {
      assert s.served[i] == r;
    }
  }

  /** Service is in order of acceptance: whatever was accepted before a served request is served. */
  lemma ServedInOrder<A, R>(s: State<A, R>, i: nat, j: nat)
    requires Inv(s) && i < j < |s.accepted| && s.accepted[j] in s.served
    ensures j < |s.served| && s.served[i] == s.accepted[i] && s.served[j] == s.accepted[j]
  {
    ExactlyOnePlace(s, j);
    ExactlyOnePlace(s, i);
    assert s.served[i] == s.accepted[i] && s.served[j] == s.accepted[j];
  }

  /** A reply goes into an empty slot. */
  lemma SlotEmptyWhenAnswered<A, R>(s: State<A, R>)
    requires Inv(s) && s.inService.Some?
    ensures s.inService.value.slot !in s.replies
  {
    assert s.accepted[|s.served|] == s.inService.value;
  }

  /** Over a whole run no reply is overwritten or lost, and nothing accepted is forgotten or reordered. */
  lemma {:induction false} RunKeepsReplies<A, R>(s: State<A, R>, steps: seq<Step<A, R>>)
    requires Inv(s) && IsRun(s, steps)
    ensures var t := Final(s, steps);
            && (forall slot :: slot in s.replies ==> slot in t.replies && t.replies[slot] == s.replies[slot])
            && s.accepted <= t.accepted && s.served <= t.served
    decreases |steps|
  {
    if steps != [] {
      var u := After(s, steps[0]);
      InvStep(s, steps[0]);
      if steps[0].Answer? {
        SlotEmptyWhenAnswered(s);
      }
      RunKeepsReplies(u, steps[1..]);
      assert s.accepted <= u.accepted && s.served <= u.served;
    }
  }

  /**
   While any clone of the sender is alive the loop runs, so a caller that holds the bridge
   is never told the channel is closed.
   */
  lemma OpenWhileHeld<A, R>(s: State<A, R>, steps: seq<Step<A, R>>)
    requires Init(s) && IsRun(s, steps)
    ensures Final(s, steps).senders > 0 ==> !Final(s, steps).exited
  {
    InvInit(s);
    InvReachable(s, steps);
  }

  /** When the loop has exited, everything ever accepted was served, and everyone still waiting has a reply. */
  lemma ExitLeavesNothing<A, R>(s: State<A, R>, steps: seq<Step<A, R>>)
    requires Init(s) && IsRun(s, steps) && Final(s, steps).exited
    ensures var t := Final(s, steps);
            && t.served == t.accepted
            && forall slot :: 0 <= slot < |t.accepted| && slot !in t.abandoned ==> slot in t.replies
  {
    InvInit(s);
    InvReachable(s, steps);
  }

  // ----- shutdown terminates -----

  predicate LoopStep<A, R>(l: Step<A, R>) {
    l.Recv? || l.Answer? || l.Exit?
  }

  /** Two loop steps for each queued request, one for the request in service, one to exit. */
  ghost function Remaining<A, R>(s: State<A, R>): nat {
    2 * |s.queue| + (if s.inService.Some? then 1 else 0) + if s.exited then 0 else 1
  }

  ghost function LoopSteps<A, R>(steps: seq<Step<A, R>>): nat {
    if steps == [] then 0 else (if LoopStep(steps[0]) then 1 else 0) + LoopSteps(steps[1..])
  }

  /** Once the last sender is gone, nothing enlarges what is left and the loop is never stuck before it exits. */
  lemma ProgressAfterLastDrop<A, R>(s: State<A, R>, result: R)
    requires Inv(s) && s.senders == 0
    ensures !s.exited ==> Enabled(s, Recv) || Enabled(s, Answer(result)) || Enabled(s, Exit)
    ensures forall l :: Enabled(s, l) ==>
              After(s, l).senders == 0
              && Remaining(After(s, l)) == Remaining(s) - if LoopStep(l) then 1 else 0
  {
  }

  /** After the last drop the loop takes exactly `Remaining` steps to exit, whatever callers do meanwhile. */
  lemma {:induction false} DrainsExactly<A, R>(s: State<A, R>, steps: seq<Step<A, R>>, result: R)
    requires Inv(s) && s.senders == 0 && IsRun(s, steps)
    ensures LoopSteps(steps) + Remaining(Final(s, steps)) == Remaining(s)
    ensures Final(s, steps).exited <==> LoopSteps(steps) == Remaining(s)
    decreases |steps|
  {
    InvReachable(s, steps);
    if steps != [] {
      ProgressAfterLastDrop(s, result);
      InvStep(s, steps[0]);
      DrainsExactly(After(s, steps[0]), steps[1..], result);
    }
  }

  lemma Served<A, R>(s: State<A, R>)
    requires Inv(s)
    ensures s.served <= s.accepted
    ensures s.queue == [] && s.inService.None? ==> s.served == s.accepted
  {
  }

  // ----- the loop itself -----

  /** What one poll of a future gives. */
  datatype Poll<T> = Pending | Ready(value: T)

  /** The two halves of the channel, the loop's hands and the reply slots. */
  class Bridge<A, R> {
    var senders: nat
    var queue: seq<Request<A>>
    var inService: Option<Request<A>>
    var replies: map<nat, R>
    var abandoned: set<nat>
    var exited: bool
    var next: nat
    ghost var accepted: seq<Request<A>>
    ghost var served: seq<Request<A>>

    ghost function Snapshot(): State<A, R>
      reads this
    {
      State(senders, queue, inService, replies, abandoned, exited, accepted, served)
    }

    ghost predicate Valid()
      reads this
    {
      Inv(Snapshot()) && next == |accepted|
    }

    constructor ()
      ensures Valid() && Init(Snapshot())
    {
      senders, queue, inService, replies, abandoned, exited, next := 1, [], None, map[], {}, false, 0;
      accepted, served := [], [];
    }

    /** One poll of `tx.send`: with room in the channel the request is accepted, otherwise the caller waits. */
    method SendRequest(args: A) returns (slot: Option<nat>)
      requires Valid() && senders > 0
      modifies this
      ensures Valid() && (slot.Some? <==> old(|queue|) < CAPACITY)
      ensures slot.Some? ==>
                && slot.value == old(|accepted|)
                && Enabled(old(Snapshot()), Send(args)) && Snapshot() == After(old(Snapshot()), Send(args))
      ensures slot.None? ==> Snapshot() == old(Snapshot())
    {
      if |queue| == CAPACITY {
        return None;
      }
      InvStep(Snapshot(), Step<A, R>.Send(args));
      slot := Some(next);
      var r := Request(next, args);
      queue := queue + [r];
      accepted := accepted + [r];
      next := next + 1;
    }

    /** One poll of `rx.recv`: the oldest request, the end once all senders are gone, or a wait. */
    method Receive() returns (r: Poll<Option<Request<A>>>)
      requires Valid() && !exited && inService.None?
      modifies this
      ensures Valid()
      ensures old(queue) != [] ==> r == Ready(Some(old(queue)[0])) && Snapshot() == After(old(Snapshot()), Recv)
      ensures old(queue) == [] && old(senders) == 0 ==> r == Ready(None) && Snapshot() == After(old(Snapshot()), Exit)
      ensures old(queue) == [] && old(senders) > 0 ==> r == Pending && Snapshot() == old(Snapshot())
    {
      if queue != [] {
        InvStep(Snapshot(), Step<A, R>.Recv);
        inService := Some(queue[0]);
        r := Ready(inService);
        queue := queue[1..];
      } else if senders == 0 {
        InvStep(Snapshot(), Step<A, R>.Exit);
        r := Ready(None);
        exited := true;
      } else {
        r := Pending;
      }
    }

    /** `reply.send`: writes the slot unless its caller went away, which is not an error. */
    method Reply(r: Request<A>, result: R)
      requires Valid() && inService == Some(r)
      modifies this
      ensures Valid() && Snapshot() == After(old(Snapshot()), Answer(result))
      ensures r.slot !in old(replies)
    {
      InvStep(Snapshot(), Answer(result));
      SlotEmptyWhenAnswered(Snapshot());
      if r.slot !in abandoned {
        replies := replies[r.slot := result];
      }
      inService := None;
      served := served + [r];
    }

    /** One turn of the loop: serve the request in hand, write its reply, poll for the next. */
    method ServeOne(r: Request<A>, handle: A -> R) returns (n: Poll<Option<Request<A>>>)
      requires Valid() && inService == Some(r)
      modifies this
      ensures Valid() && senders == old(senders) && accepted == old(accepted) && abandoned == old(abandoned)
      ensures Polled(n)
      ensures r == old(accepted)[|old(served)|] && r.slot == |old(served)| && served == old(served) + [r]
      ensures replies == if r.slot in abandoned then old(replies) else old(replies)[r.slot := handle(r.args)]
      ensures r.slot !in old(replies)
      ensures inService.Some? ==> |queue| < |old(queue)|
    {
      assert accepted[|served|] == r;
      var result := handle(r.args);
      Reply(r, result);
      n := Receive();
    }

    /** What a poll leaves: a request in hand, or nothing left to do, for good exactly when no sender is left. */
    ghost predicate Polled(n: Poll<Option<Request<A>>>)
      reads this
    {
      match n
      case Ready(Some(r)) => inService == Some(r) && !exited
      case Ready(None) => inService.None? && queue == [] && exited && senders == 0
      case Pending => inService.None? && queue == [] && !exited && senders > 0
    }

    /**
     The loop, run as far as it goes on its own: it answers everything accepted, in order
     and each with its own result, and then waits, or ends exactly when no sender is left.
     */
    method RunLoop(handle: A -> R)
      requires Valid() && !exited
      modifies this
      ensures Valid() && senders == old(senders) && served == accepted == old(accepted) && queue == []
      ensures exited <==> senders == 0
      ensures abandoned == old(abandoned)
      ensures forall i :: |old(served)| <= i < |accepted| ==>
                i in old(abandoned) || (i in replies && replies[i] == handle(accepted[i].args))
      ensures forall slot <- old(replies) :: slot in replies && replies[slot] == old(replies)[slot]
    {
      hide Inv;
      var n := Ready(inService);
      if inService.None? {
        n := Receive();
      }
      Served(Snapshot());
      while n.Ready? && n.value.Some?
        invariant Valid() && senders == old(senders) && accepted == old(accepted) && abandoned == old(abandoned)
        invariant Polled(n)
        invariant |old(served)| <= |served| <= |accepted|
        invariant forall slot <- old(replies) :: slot in replies && replies[slot] == old(replies)[slot]
        invariant forall i :: |old(served)| <= i < |served| ==>
                    i in abandoned || (i in replies && replies[i] == handle(accepted[i].args))
        decreases |queue|, inService.Some?
      {
        n := ServeOne(n.value.value, handle);
        Served(Snapshot());
      }
      Served(Snapshot());
    }

    /** Drops this handle's sender and waits for the loop, which ends exactly when that was the last sender. */
    method Shutdown(handle: A -> R)
      requires Valid() && senders > 0
      modifies this
      ensures Valid() && senders == old(senders) - 1 && served == accepted == old(accepted)
      ensures exited <==> old(senders) == 1
      ensures abandoned == old(abandoned)
      ensures forall i :: |old(served)| <= i < |accepted| ==>
                i in old(abandoned) || (i in replies && replies[i] == handle(accepted[i].args))
      ensures forall slot <- old(replies) :: slot in replies && replies[slot] == old(replies)[slot]
    {
      InvStep(Snapshot(), Step<A, R>.DropSender);
      senders := senders - 1;
      RunLoop(handle);
    }
  }
}
