/** The service as a whole: store operations from any number of clients,
    serialised by the mutex, interleaved with the polls of one watch session.

    An interleaving is a sequence of actions; the watch task only ever sees
    the store at its polls, so every statement about what a subscriber
    receives reduces to `Run` over the stores observed at those polls.
 */
module TodoSystem {
  import opened TodoTypes
  import TodoStore
  import opened TodoWatch

  /** A unary call of the service; `watch` is the session itself. */
  datatype Request =
    | AddRequest(todo: Todo)
    | RemoveRequest(ident: Identifier)
    | UpdateStatusRequest(update: StatusUpdateRequest)
    | GetRequest(ident: Identifier)

  /** The store after serving one call. */
  function Apply(s: Store, req: Request): (r: Store)
    ensures req.GetRequest? ==> r == s
    ensures WellKeyed(s) ==> WellKeyed(r)
  {
    match req
    case AddRequest(todo) => TodoStore.Add(s, todo).store
    case RemoveRequest(ident) => TodoStore.Remove(s, ident).store
    case UpdateStatusRequest(update) => TodoStore.UpdateStatus(s, update).store
    case GetRequest(ident) => TodoStore.Get(s, ident).store
  }

  /** The store after serving calls one after another; every reachable store
      keeps the key invariant. */
  function ApplyAll(s: Store, reqs: seq<Request>): (r: Store)
    ensures WellKeyed(s) ==> WellKeyed(r)
    decreases |reqs|
  {
    if |reqs| == 0 then s else ApplyAll(Apply(s, reqs[0]), reqs[1..])
  }

  /** One step of an interleaving: a client call, or a poll of the watch task. */
  datatype Action = Call(req: Request) | Poll

  /** The store, the watch session and what the subscriber has received. */
  datatype World = World(store: Store, session: Session, events: seq<Result<Todo>>)

  /** The interleaving that serves `reqs` back to back with no poll between. */
  function Calls(reqs: seq<Request>): (r: seq<Action>)
    ensures |r| == |reqs|
    ensures forall i :: 0 <= i < |reqs| ==> r[i] == Call(reqs[i])
  {
    seq(|reqs|, i requires 0 <= i < |reqs| => Call(reqs[i]))
  }

  /** The number of polls in an interleaving. */
  function PollCount(actions: seq<Action>): nat
    decreases |actions|
  {
    if |actions| == 0 then 0
    else (if actions[0].Poll? then 1 else 0) + PollCount(actions[1..])
  }

  /** Runs an interleaving from a store and a session. Each call is one
      atomic step on the store; each poll is one iteration of the watch task.
      The subscriber receives at most one item per poll, and a stopped
      session receives nothing. */
  function Simulate(s: Store, sess: Session, actions: seq<Action>): (r: World)
    ensures |r.events| <= PollCount(actions)
    ensures sess.Stopped? ==> r.session == Stopped && r.events == []
    decreases |actions|
  {
    if |actions| == 0 then World(s, sess, [])
    else match actions[0]
      case Call(req) => Simulate(Apply(s, req), sess, actions[1..])
      case Poll =>
        var t := Tick(sess, s);
        var w := Simulate(s, t.session, actions[1..]);
        World(w.store, w.session, Emitted(t.emitted) + w.events)
  }

  /** The stores the watch task observes, one per poll. */
  function Snapshots(s: Store, actions: seq<Action>): (r: seq<Store>)
    ensures |r| == PollCount(actions)
    decreases |actions|
  {
    if |actions| == 0 then []
    else match actions[0]
      case Call(req) => Snapshots(Apply(s, req), actions[1..])
      case Poll => [s] + Snapshots(s, actions[1..])
  }

  /** The calls of an interleaving, in order. */
  function Requests(actions: seq<Action>): (r: seq<Request>)
    ensures |r| + PollCount(actions) == |actions|
    decreases |actions|
  {
    if |actions| == 0 then []
    else match actions[0]
      case Call(req) => [req] + Requests(actions[1..])
      case Poll => Requests(actions[1..])
  }

  /** What a subscriber receives under any interleaving is what the polling
      task sends given only the stores at its polls, and the store ends as if
      the calls had run back to back. */
  lemma {:induction false} SimulateIsRunOverSnapshots(s: Store, sess: Session, actions: seq<Action>)
    ensures var run := Run(sess, Snapshots(s, actions));
      Simulate(s, sess, actions) == World(ApplyAll(s, Requests(actions)), run.session, run.events)
    decreases |actions|
  {
    if |actions| > 0 {
      var rest := actions[1..];
      match actions[0]
      case Call(req) =>
        SimulateIsRunOverSnapshots(Apply(s, req), sess, rest);
        assert ([req] + Requests(rest))[1..] == Requests(rest);
      case Poll =>
        var t := Tick(sess, s);
        SimulateIsRunOverSnapshots(s, t.session, rest);
        assert ([s] + Snapshots(s, rest))[1..] == Snapshots(s, rest);
    }
  }

  /** A run of calls followed by one poll shows the poll exactly one store:
      the one the calls left behind. */
  lemma {:induction false} CallsThenPoll(s: Store, reqs: seq<Request>)
    ensures Snapshots(s, Calls(reqs) + [Poll]) == [ApplyAll(s, reqs)]
    ensures Requests(Calls(reqs) + [Poll]) == reqs
    decreases |reqs|
  {
    var actions := Calls(reqs) + [Poll];
    if |reqs| == 0 {
      assert actions == [Poll];
    } else {
      assert actions[0] == Call(reqs[0]);
      assert actions[1..] == Calls(reqs[1..]) + [Poll];
      CallsThenPoll(Apply(s, reqs[0]), reqs[1..]);
    }
  }

  /** `watch` accepts exactly the keys `get` finds, and its first observed
      value is the record `get` returns. */
  lemma SubscribeAgreesWithGet(s: Store, ident: Identifier)
    ensures Subscribe(s, ident).Ok? <==> TodoStore.Get(s, ident).reply.Ok?
    ensures Subscribe(s, ident).Err? ==>
      Subscribe(s, ident).code == NotFound == TodoStore.Get(s, ident).reply.code
    ensures Subscribe(s, ident).Ok? ==>
      Subscribe(s, ident).value == Polling(ident.id, TodoStore.Get(s, ident).reply.value)
  {
  }

  /** Coalescing: however many calls land between two polls, the subscriber
      receives at most one item for them, and it reflects the store at the
      later poll; a record gone by then yields one NotFound and the end of
      the session. */
  lemma CoalescingBetweenPolls(s: Store, sess: Session, reqs: seq<Request>)
    requires sess.Polling?
    ensures var w := Simulate(s, sess, Calls(reqs) + [Poll]);
      var later := ApplyAll(s, reqs);
      && |w.events| <= 1
      && (sess.key in later ==>
            && w.session == Polling(sess.key, later[sess.key])
            && forall e :: e in w.events ==> e == Ok(later[sess.key]))
      && (sess.key !in later ==> w.session == Stopped && w.events == [Err(NotFound)])
  {
    CallsThenPoll(s, reqs);
    SimulateIsRunOverSnapshots(s, sess, Calls(reqs) + [Poll]);
    var later := ApplyAll(s, reqs);
    assert [later][1..] == [];
  }

  /** Two status updates between polls: at most one item reaches the
      subscriber, and it carries the second status; the first may never be
      seen. */
  lemma LastStatusWins(s: Store, k: u32, prev: Todo, first: Status, second: Status)
    requires k in s
    ensures var ident := Some(Identifier(k));
      var reqs := [UpdateStatusRequest(StatusUpdateRequest(ident, first)),
                   UpdateStatusRequest(StatusUpdateRequest(ident, second))];
      var w := Simulate(s, Polling(k, prev), Calls(reqs) + [Poll]);
      && |w.events| <= 1
      && forall e :: e in w.events ==> e.Ok? && e.value.status == second
  {
    var ident := Some(Identifier(k));
    var reqs := [UpdateStatusRequest(StatusUpdateRequest(ident, first)),
                 UpdateStatusRequest(StatusUpdateRequest(ident, second))];
    CoalescingBetweenPolls(s, Polling(k, prev), reqs);
    var s1 := Apply(s, reqs[0]);
    assert ApplyAll(s, reqs) == ApplyAll(s1, reqs[1..]);
    assert ApplyAll(s1, reqs[1..]) == ApplyAll(Apply(s1, reqs[1]), []);
    assert k in ApplyAll(s, reqs);
  }

  /** A stopped session receives nothing, whatever happens afterwards. */
  lemma StoppedStaysSilent(s: Store, actions: seq<Action>)
    ensures Simulate(s, Stopped, actions).session == Stopped
    ensures Simulate(s, Stopped, actions).events == []
  {
    SimulateIsRunOverSnapshots(s, Stopped, actions);
  }

  /** Removing the watched record ends the stream at the next poll with
      exactly one NotFound, and nothing follows it. */
  lemma RemoveEndsWatch(s: Store, k: u32, prev: Todo, after: seq<Action>)
    ensures var w := Simulate(s, Polling(k, prev), [Call(RemoveRequest(Identifier(k))), Poll] + after);
      w.session == Stopped && w.events == [Err(NotFound)]
  {
    var actions := [Call(RemoveRequest(Identifier(k))), Poll] + after;
    var s1 := Apply(s, RemoveRequest(Identifier(k)));
    assert actions[1..] == [Poll] + after;
    assert ([Poll] + after)[1..] == after;
    assert k !in s1;
    StoppedStaysSilent(s1, after);
  }
}
