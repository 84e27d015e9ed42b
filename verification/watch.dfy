/** The `watch` operation of `TodoService` (src/server.rs): the synchronous
    subscription check and the polling task it spawns.

    The task's sleep, lock and channel are abstracted away: a session is
    advanced by `Tick` once per poll, given the store as it stands at that
    poll, and what it would send on the channel is collected in a sequence.
    The task discards the result of every send, so nothing in the model stops
    a session other than the watched record disappearing.
 */
module TodoWatch {
  import opened TodoTypes

  /** The state of one polling task: still polling key `key` with the last
      value it observed, or returned after reporting NotFound. */
  datatype Session = Polling(key: u32, previous: Todo) | Stopped

  /** What one poll does: the session afterwards and the stream item it sends,
      if any. */
  datatype TickOutcome = TickOutcome(session: Session, emitted: Option<Result<Todo>>)

  /** A session after a sequence of polls and the stream items sent on the way. */
  datatype Trace = Trace(session: Session, events: seq<Result<Todo>>)

  /** The check `watch` makes before any streaming: the key must be present,
      and its record becomes the first value observed. */
  function Subscribe(s: Store, ident: Identifier): (r: Result<Session>)
    ensures r.Err? <==> ident.id !in s
    ensures r.Err? ==> r.code == NotFound
    ensures r.Ok? ==> r.value.Polling? && r.value.key == ident.id && r.value.previous == s[ident.id]
  {
    if ident.id in s then Ok(Polling(ident.id, s[ident.id])) else Err(NotFound)
  }

  /** One iteration of the polling loop. Whether or not it sends, a session
      that keeps polling has observed exactly the record now in the store. */
  function Tick(sess: Session, s: Store): (r: TickOutcome)
    ensures sess.Stopped? ==> r == TickOutcome(Stopped, None)
    ensures sess.Polling? && sess.key !in s ==> r == TickOutcome(Stopped, Some(Err(NotFound)))
    ensures sess.Polling? && sess.key in s ==>
      && r.session == Polling(sess.key, s[sess.key])
      && (r.emitted.Some? <==> s[sess.key] != sess.previous)
      && (r.emitted.Some? ==> r.emitted.value == Ok(s[sess.key]))
  {
    match sess
    case Stopped => TickOutcome(Stopped, None)
    case Polling(key, previous) =>
      if key !in s then TickOutcome(Stopped, Some(Err(NotFound)))
      else if s[key] != previous then TickOutcome(Polling(key, s[key]), Some(Ok(s[key])))
      else TickOutcome(sess, None)
  }

  /** The stream items of one poll, as a sequence of zero or one items. */
  function Emitted(e: Option<Result<Todo>>): seq<Result<Todo>> {
    match e
    case None => []
    case Some(item) => [item]
  }

  /** The polling task run over the stores it sees at successive polls. Each
      poll sends at most one item, and a stopped task sends nothing more. */
  function Run(sess: Session, polls: seq<Store>): (r: Trace)
    ensures |r.events| <= |polls|
    ensures sess.Stopped? ==> r == Trace(Stopped, [])
    decreases |polls|
  {
    if |polls| == 0 then Trace(sess, [])
    else
      var t := Tick(sess, polls[0]);
      var rest := Run(t.session, polls[1..]);
      Trace(rest.session, Emitted(t.emitted) + rest.events)
  }

  /** Running over `p + q` is running over `p` and then, from where that
      left off, over `q`. */
  lemma {:induction false} RunAppend(sess: Session, p: seq<Store>, q: seq<Store>)
    ensures var first := Run(sess, p);
      var second := Run(first.session, q);
      Run(sess, p + q) == Trace(second.session, first.events + second.events)
    decreases |p|
  {
    if |p| == 0 {
      assert p + q == q;
    } else {
      var t := Tick(sess, p[0]);
      assert (p + q)[0] == p[0];
      assert (p + q)[1..] == p[1..] + q;
      RunAppend(t.session, p[1..], q);
    }
  }

  /** A session stops exactly when some poll finds the watched key absent. */
  lemma {:induction false} StopsIffRemoved(k: u32, prev: Todo, polls: seq<Store>)
    ensures Run(Polling(k, prev), polls).session.Stopped?
      <==> exists i :: 0 <= i < |polls| && k !in polls[i]
    decreases |polls|
  {
    if |polls| > 0 {
      var t := Tick(Polling(k, prev), polls[0]);
      if k !in polls[0] {
        assert Run(Polling(k, prev), polls).session == Stopped;
      } else {
        StopsIffRemoved(k, polls[0][k], polls[1..]);
        if exists i :: 0 <= i < |polls| && k !in polls[i] {
          var i :| 0 <= i < |polls| && k !in polls[i];
          assert k !in polls[1..][i - 1];
        }
        if exists i :: 0 <= i < |polls[1..]| && k !in polls[1..][i] {
          var i :| 0 <= i < |polls[1..]| && k !in polls[1..][i];
          assert k !in polls[i + 1];
        }
      }
    }
  }

  /** NotFound is sent only as the last item, and a session that stopped
      during the run sent it. */
  lemma {:induction false} NotFoundIsFinal(sess: Session, polls: seq<Store>)
    ensures var r := Run(sess, polls);
      && (forall j :: 0 <= j < |r.events| && r.events[j].Err? ==>
            j == |r.events| - 1 && r.events[j] == Err(NotFound))
      && (sess.Polling? && r.session.Stopped? ==>
            |r.events| > 0 && r.events[|r.events| - 1] == Err(NotFound))
    decreases |polls|
  {
    if |polls| > 0 {
      var t := Tick(sess, polls[0]);
      NotFoundIsFinal(t.session, polls[1..]);
    }
  }

  /** Once a poll finds the key absent, later polls change nothing: the task
      stops for good. */
  lemma StopsForGood(sess: Session, polls: seq<Store>, i: nat)
    requires sess.Polling? && i < |polls| && sess.key !in polls[i]
    ensures Run(sess, polls) == Run(sess, polls[..i + 1])
  {
    var p, q := polls[..i + 1], polls[i + 1..];
    assert polls == p + q;
    RunAppend(sess, p, q);
    StopsIffRemoved(sess.key, sess.previous, p);
    assert p[i] == polls[i];
  }

  /** The leveled guarantee: when the key stays present, the session ends up
      holding the record of the last poll, and the last item sent (if any) is
      that same record, whatever happened in between. */
  lemma {:induction false} Leveled(k: u32, prev: Todo, polls: seq<Store>)
    requires |polls| > 0
    requires forall i :: 0 <= i < |polls| ==> k in polls[i]
    ensures var r := Run(Polling(k, prev), polls);
      var latest := polls[|polls| - 1][k];
      && r.session == Polling(k, latest)
      && (|r.events| > 0 ==> r.events[|r.events| - 1] == Ok(latest))
    decreases |polls|
  {
    assert k in polls[0];
    var t := Tick(Polling(k, prev), polls[0]);
    if |polls| > 1 {
      var rest := polls[1..];
      assert forall i :: 0 <= i < |rest| ==> k in rest[i] by {
        forall i | 0 <= i < |rest| ensures k in rest[i] {
          assert rest[i] == polls[i + 1];
        }
      }
      Leveled(k, polls[0][k], rest);
      var r1 := Run(t.session, rest);
      if |r1.events| == 0 {
        // The later polls all saw the record observed at the first one.
        SilentMeansUnchanged(k, polls[0][k], rest);
      }
    }
  }

  /** A run that sends nothing left the observed record as it was. */
  lemma {:induction false} SilentMeansUnchanged(k: u32, prev: Todo, polls: seq<Store>)
    requires forall i :: 0 <= i < |polls| ==> k in polls[i]
    requires |Run(Polling(k, prev), polls).events| == 0
    ensures Run(Polling(k, prev), polls).session == Polling(k, prev)
    decreases |polls|
  {
    if |polls| > 0 {
      assert k in polls[0];
      var rest := polls[1..];
      assert forall i :: 0 <= i < |rest| ==> k in rest[i] by {
        forall i | 0 <= i < |rest| ensures k in rest[i] {
          assert rest[i] == polls[i + 1];
        }
      }
      SilentMeansUnchanged(k, polls[0][k], rest);
    }
  }

  /** No stale or repeated values: the first item differs from the snapshot
      taken at subscription, and no item repeats the one before it. */
  lemma {:induction false} NoRepeats(k: u32, prev: Todo, polls: seq<Store>)
    ensures var r := Run(Polling(k, prev), polls);
      && (|r.events| > 0 ==> r.events[0] != Ok(prev))
      && (forall j :: 0 <= j < |r.events| - 1 ==> r.events[j] != r.events[j + 1])
    decreases |polls|
  {
    if |polls| > 0 && k in polls[0] {
      var v := polls[0][k];
      NoRepeats(k, v, polls[1..]);
    }
  }

  /** Some poll saw record `v` under key `k`. */
  predicate Observed(polls: seq<Store>, k: u32, v: Todo) {
    exists i :: 0 <= i < |polls| && k in polls[i] && polls[i][k] == v
  }

  /** Every record sent is the watched record as some poll saw it. */
  lemma {:induction false} SentValuesWereObserved(sess: Session, polls: seq<Store>)
    requires sess.Polling?
    ensures forall e :: e in Run(sess, polls).events && e.Ok? ==> Observed(polls, sess.key, e.value)
    decreases |polls|
  {
    if |polls| > 0 {
      var t := Tick(sess, polls[0]);
      var rest := Run(t.session, polls[1..]);
      if t.session.Polling? {
        SentValuesWereObserved(t.session, polls[1..]);
        assert forall e :: e in rest.events && e.Ok? ==> Observed(polls[1..], t.session.key, e.value);
      }
    }
  }

  /** Sessions whose observed record carries the identifier of the watched key. */
  predicate Consistent(sess: Session) {
    sess.Polling? ==> KeyedBy(sess.previous, sess.key)
  }

  /** On a well-keyed store, `watch` starts a consistent session and polling
      keeps it consistent, so every record sent names the watched key. */
  lemma TickKeepsConsistent(sess: Session, s: Store)
    requires Consistent(sess) && WellKeyed(s)
    ensures Consistent(Tick(sess, s).session)
    ensures var e := Tick(sess, s).emitted;
      e.Some? && e.value.Ok? ==> sess.Polling? && KeyedBy(e.value.value, sess.key)
  {
  }

  lemma SubscribeIsConsistent(s: Store, ident: Identifier)
    requires WellKeyed(s)
    ensures var r := Subscribe(s, ident); r.Ok? ==> Consistent(r.value)
  {
  }
}
