/** The record-store operations of `TodoService` (src/server.rs).

    Each operation runs under the service's mutex, so it is modelled as one
    atomic step from a store to a reply and the store after the step.
 */
module TodoStore {
  import opened TodoTypes

  const CreatedMessage := "New todo created"
  const RemovedMessage := "Removed a todo"
  const UpdatedMessage := "Updated status successfully"

  /** The reply of one operation together with the store it leaves behind. */
  datatype Step<+T> = Step(reply: Result<T>, store: Store)

  /** The store a fresh service starts with (`TodoService::default`). */
  function Empty(): (s: Store)
    ensures |s| == 0
    ensures WellKeyed(s)
  {
    map[]
  }

  /** `add`: insert a todo under the key its identifier names, never overwriting. */
  function Add(s: Store, todo: Todo): (r: Step<ChangeResponse>)
    ensures todo.id.None? ==> r == Step(Err(InvalidArgument), s)
    ensures todo.id.Some? && todo.id.value.id in s ==> r == Step(Err(AlreadyExists), s)
    ensures todo.id.Some? && todo.id.value.id !in s ==>
      && r.reply == Ok(ChangeResponse(todo.id, CreatedMessage))
      && r.store.Keys == s.Keys + {todo.id.value.id}
      && r.store[todo.id.value.id] == todo
      && AgreeOutside(s, r.store, {todo.id.value.id})
  {
    match todo.id
    case None => Step(Err(InvalidArgument), s)
    case Some(ident) =>
      if ident.id in s then Step(Err(AlreadyExists), s)
      else Step(Ok(ChangeResponse(Some(ident), CreatedMessage)), s[ident.id := todo])
  }

  /** `remove`: delete the todo under the given key. */
  function Remove(s: Store, ident: Identifier): (r: Step<ChangeResponse>)
    ensures ident.id !in s ==> r == Step(Err(NotFound), s)
    ensures ident.id in s ==>
      && r.reply == Ok(ChangeResponse(Some(ident), RemovedMessage))
      && r.store.Keys == s.Keys - {ident.id}
      && AgreeOutside(s, r.store, {ident.id})
  {
    if ident.id in s then Step(Ok(ChangeResponse(Some(ident), RemovedMessage)), s - {ident.id})
    else Step(Err(NotFound), s)
  }

  /** `update_status`: overwrite the `status` field of one stored todo. */
  function UpdateStatus(s: Store, req: StatusUpdateRequest): (r: Step<ChangeResponse>)
    ensures req.id.None? ==> r == Step(Err(InvalidArgument), s)
    ensures req.id.Some? && req.id.value.id !in s ==> r == Step(Err(NotFound), s)
    ensures req.id.Some? && req.id.value.id in s ==>
      var k := req.id.value.id;
      && r.reply == Ok(ChangeResponse(req.id, UpdatedMessage))
      && r.store.Keys == s.Keys
      && r.store[k].status == req.status
      && r.store[k].id == s[k].id
      && r.store[k].rest == s[k].rest
      && AgreeOutside(s, r.store, {k})
  {
    match req.id
    case None => Step(Err(InvalidArgument), s)
    case Some(ident) =>
      if ident.id in s then
        Step(Ok(ChangeResponse(Some(ident), UpdatedMessage)), s[ident.id := s[ident.id].(status := req.status)])
      else Step(Err(NotFound), s)
  }

  /** `get`: a copy of the todo under the given key. */
  function Get(s: Store, ident: Identifier): (r: Step<Todo>)
    ensures r.store == s
    ensures r.reply.Ok? <==> ident.id in s
    ensures r.reply.Ok? ==> r.reply.value == s[ident.id]
    ensures r.reply.Err? ==> r.reply.code == NotFound
  {
    if ident.id in s then Step(Ok(s[ident.id]), s) else Step(Err(NotFound), s)
  }

  /** A todo added under a fresh key is what `get` returns next. */
  lemma AddThenGet(s: Store, todo: Todo)
    requires todo.id.Some? && todo.id.value.id !in s
    ensures Get(Add(s, todo).store, todo.id.value).reply == Ok(todo)
  {
  }

  /** A second `add` of the same key is refused and the first record stays. */
  lemma AddTwice(s: Store, first: Todo, second: Todo)
    requires first.id.Some? && first.id.value.id !in s
    requires second.id.Some? && second.id.value.id == first.id.value.id
    ensures var s1 := Add(s, first).store;
      && Add(s1, second) == Step(Err(AlreadyExists), s1)
      && Get(s1, first.id.value).reply == Ok(first)
  {
  }

  /** Removing a key just added gives back the store as it was: `remove`
      undoes `add`. */
  lemma RemoveUndoesAdd(s: Store, todo: Todo)
    requires todo.id.Some? && todo.id.value.id !in s
    ensures Remove(Add(s, todo).store, todo.id.value).store == s
  {
  }

  /** After `remove`, present key or not, `get` of that key fails with NotFound. */
  lemma RemoveThenGet(s: Store, ident: Identifier)
    ensures Get(Remove(s, ident).store, ident).reply == Err(NotFound)
  {
  }

  /** After a successful `update_status`, `get` returns the old record with
      only its status replaced. */
  lemma UpdateStatusThenGet(s: Store, req: StatusUpdateRequest)
    requires req.id.Some? && req.id.value.id in s
    ensures Get(UpdateStatus(s, req).store, req.id.value).reply
      == Ok(s[req.id.value.id].(status := req.status))
  {
  }

  /** Writing the same status twice has the same effect on the store as once. */
  lemma UpdateStatusIdempotent(s: Store, req: StatusUpdateRequest)
    ensures UpdateStatus(UpdateStatus(s, req).store, req).store == UpdateStatus(s, req).store
  {
  }

  /** `add` establishes the key invariant for the record it inserts and keeps
      it for the others. */
  lemma AddPreservesWellKeyed(s: Store, todo: Todo)
    requires WellKeyed(s)
    ensures WellKeyed(Add(s, todo).store)
  {
  }

  lemma RemovePreservesWellKeyed(s: Store, ident: Identifier)
    requires WellKeyed(s)
    ensures WellKeyed(Remove(s, ident).store)
  {
  }

  /** `update_status` writes only `status`, so the identifier stays in step
      with its key. */
  lemma UpdateStatusPreservesWellKeyed(s: Store, req: StatusUpdateRequest)
    requires WellKeyed(s)
    ensures WellKeyed(UpdateStatus(s, req).store)
  {
  }
}
