/** Message types of the todo service and the shape of its in-memory store.

    The protobuf-generated messages are not part of this model; each is given
    the fields the service reads or writes, and derived equality stands in for
    the generated `PartialEq`.
 */
module TodoTypes {

  /** Unsigned 32-bit integer, the key type of the store. */
  newtype u32 = x: int | 0 <= x < 0x1_0000_0000

  datatype Option<+T> = None | Some(value: T)

  /** `TodoIdentifier`: names one todo. */
  datatype Identifier = Identifier(id: u32)

  /** The caller-controlled lifecycle field of a todo; the service only copies
      and compares it, so an integer code suffices. */
  datatype Status = Status(code: int)

  /** The descriptive fields of a todo other than `id` and `status`; the
      service never reads them, it only stores, copies and compares them. */
  datatype Details = Details(fields: seq<string>)

  /** `Todo`: the stored record. `id` is optional on the wire. */
  datatype Todo = Todo(id: Option<Identifier>, status: Status, rest: Details)

  /** `TodoStatusUpdateRequest`. */
  datatype StatusUpdateRequest = StatusUpdateRequest(id: Option<Identifier>, status: Status)

  /** `TodoChangeResponse`: the acknowledgement of a successful change. */
  datatype ChangeResponse = ChangeResponse(id: Option<Identifier>, message: string)

  /** The gRPC status codes the service produces; message texts are dropped. */
  datatype Code = InvalidArgument | AlreadyExists | NotFound

  datatype Result<+T> = Ok(value: T) | Err(code: Code)

  /** The content of the `HashMap<u32, Todo>` behind the service's mutex. */
  type Store = map<u32, Todo>

  /** A record is keyed by `k` when it carries an identifier naming `k`. */
  predicate KeyedBy(t: Todo, k: u32) {
    t.id.Some? && t.id.value.id == k
  }

  /** The store invariant: every record carries the identifier of its own key. */
  predicate WellKeyed(s: Store) {
    forall k :: k in s ==> KeyedBy(s[k], k)
  }

  /** `s'` holds the same record as `s` under every key of `s` outside `ks`. */
  predicate AgreeOutside(s: Store, s': Store, ks: set<u32>) {
    forall k :: k in s && k !in ks ==> k in s' && s'[k] == s[k]
  }
}
