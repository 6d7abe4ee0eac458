/**
 * The store's two effects. On mount it reads one key once; whenever the
 * conversation list is replaced it writes the whole list back under that key.
 * The pointer is not durable. JSON text is not modelled: a stored value is
 * absent, unparseable, or parsed into a list.
 */
module Persistence {
  import opened Wrappers
  import opened ChatTypes
  import Clock
  import opened Conversations

  /** The single fixed storage key. */
  const StorageKey: string := "chatgpt-conversations"

  /** What reading the key yields, seen through `JSON.parse`. */
  datatype Stored = Absent | Corrupt | Parsed(list: seq<Conversation>)

  /** One `setItem` call: the key and the full list serialized under it. */
  datatype Write = Write(key: string, value: seq<Conversation>)

  /** The in-memory store together with every write made so far, oldest first. */
  datatype Session = Session(store: Store, writes: seq<Write>)

  /** A store operation as the user interface issues it. */
  datatype Op =
    | CreateOp(at: Clock.Reads)
    | AppendOp(id: string, role: Role, content: string, at: Clock.Reads)
    | DeleteOp(id: string)
    | SelectOp(c: Conversation)

  /**
   * Durable state mirrors memory: every write went to the one key, at least
   * one write happened, and the latest holds the current list.
   */
  predicate WriteThrough(sess: Session) {
    && |sess.writes| > 0
    && (forall i :: 0 <= i < |sess.writes| ==> sess.writes[i].key == StorageKey)
    && sess.writes[|sess.writes| - 1].value == sess.store.conversations
  }

  /**
   * The mount effects. Loading replaces the empty initial list wholesale on a
   * successful parse and leaves it empty otherwise; no error escapes. The save
   * effect first runs with the initial empty list and runs again once a
   * parsed list has replaced it.
   */
  function Mount(stored: Stored): (r: Session)
    ensures r.store.currentId.None?
    ensures stored.Parsed? ==> r.store.conversations == stored.list
    ensures !stored.Parsed? ==> r.store == Empty
    ensures WriteThrough(r)
    ensures r.writes[0] == Write(StorageKey, [])
    ensures stored.Parsed? ==> |r.writes| == 2
    ensures !stored.Parsed? ==> |r.writes| == 1
  {
    var initial := [Write(StorageKey, [])];
    match stored
    case Parsed(list) => Session(Store(list, None), initial + [Write(StorageKey, list)])
    case _ => Session(Empty, initial)
  }

  /**
   * Whether an operation hands React a new array (the save effect's
   * dependency): create, append and delete always do, even when append or
   * delete matched nothing; select never touches the list, so skipping its
   * write loses nothing.
   */
  function ReplacesList(op: Op): (b: bool)
    ensures b <==> (op.CreateOp? || op.AppendOp? || op.DeleteOp?)
    ensures !b ==> forall s :: Perform(s, op).conversations == s.conversations
  {
    !op.SelectOp?
  }

  /** The store transition an operation performs. */
  function Perform(s: Store, op: Op): Store {
    match op
    case CreateOp(at) => Create(s, at)
    case AppendOp(id, role, content, at) => Append(s, id, role, content, at)
    case DeleteOp(id) => Delete(s, id)
    case SelectOp(c) => Select(s, c)
  }

  /**
   * One operation followed by the save effect: a list-replacing operation
   * writes the full new list under the key, a selection writes nothing.
   */
  function Step(sess: Session, op: Op): (r: Session)
    ensures r.store == Perform(sess.store, op)
    ensures !ReplacesList(op) ==> r.writes == sess.writes
    ensures ReplacesList(op) ==> r.writes == sess.writes + [Write(StorageKey, r.store.conversations)]
    ensures WriteThrough(sess) ==> WriteThrough(r)
  {
    var s := Perform(sess.store, op);
    if ReplacesList(op) then Session(s, sess.writes + [Write(StorageKey, s.conversations)])
    else Session(s, sess.writes)
  }

  /** A run of operations, applied in order. */
  function Run(sess: Session, ops: seq<Op>): Session
    decreases |ops|
  {
    if ops == [] then sess else Run(Step(sess, ops[0]), ops[1..])
  }

  /** The number of operations in a run that replace the list. */
  function ListChanges(ops: seq<Op>): nat {
    if ops == [] then 0 else (if ReplacesList(ops[0]) then 1 else 0) + ListChanges(ops[1..])
  }

  /**
   * After mounting and any run of operations, the last write under the key is
   * the current list, and exactly one write was made per list change.
   */
  lemma {:induction false} RunKeepsWriteThrough(sess: Session, ops: seq<Op>)
    requires WriteThrough(sess)
    ensures WriteThrough(Run(sess, ops))
    ensures |Run(sess, ops).writes| == |sess.writes| + ListChanges(ops)
    ensures Run(sess, ops).writes[..|sess.writes|] == sess.writes
    decreases |ops|
  {
    if ops != [] {
      var next := Step(sess, ops[0]);
      RunKeepsWriteThrough(next, ops[1..]);
      assert next.writes[..|sess.writes|] == sess.writes;
    }
  }

  /**
   * The pointer invariant survives every run in which each selection names a
   * conversation listed at the moment it is made.
   */
  lemma {:induction false} RunKeepsValid(sess: Session, ops: seq<Op>)
    requires Valid(sess.store)
    requires forall i :: 0 <= i < |ops| ==> ops[i].SelectOp? ==> ops[i].c.id in Ids(Run(sess, ops[..i]).store.conversations)
    ensures Valid(Run(sess, ops).store)
    decreases |ops|
  {
    if ops != [] {
      assert ops[..0] == [];
      var next := Step(sess, ops[0]);
      forall i | 0 <= i < |ops[1..]| && ops[1..][i].SelectOp?
        ensures ops[1..][i].c.id in Ids(Run(next, ops[1..][..i]).store.conversations)
      {
        assert ops[..i + 1] == [ops[0]] + ops[1..][..i];
        assert Run(sess, ops[..i + 1]) == Run(next, ops[1..][..i]);
      }
      RunKeepsValid(next, ops[1..]);
    }
  }
}
