/**
 * The conversation store hook: an ordered list of conversations, newest
 * first, and a nullable pointer to the current one. Every operation is a
 * pure transition on the store; the clock is passed in.
 */
module Conversations {
  import opened Wrappers
  import opened ChatTypes
  import Clock

  /** The title every new conversation starts with. */
  const DefaultTitle: string := "New Chat"

  /** How many characters of the first user message a derived title keeps. */
  const TitleLimit: nat := 50

  /** The marker added to a title that was cut short. */
  const Ellipsis: string := "..."

  datatype Store = Store(conversations: seq<Conversation>, currentId: Option<string>)

  /** The state before anything is loaded or created. */
  const Empty: Store := Store([], None)

  function Min(a: nat, b: nat): nat {
    if a <= b then a else b
  }

  /** The ids present in a list of conversations. */
  function Ids(cs: seq<Conversation>): set<string> {
    set c | c in cs :: c.id
  }

  /** The store invariant: the pointer is null or names a conversation in the list. */
  predicate Valid(s: Store) {
    s.currentId.Some? ==> s.currentId.value in Ids(s.conversations)
  }

  /**
   * The title taken from a first user message: the first fifty characters,
   * followed by an ellipsis when the content was longer.
   */
  function DeriveTitle(content: string): (t: string)
    ensures |t| <= TitleLimit + |Ellipsis|
    ensures |content| <= TitleLimit ==> t == content
    ensures |content| > TitleLimit ==> |t| == TitleLimit + |Ellipsis|
    ensures |content| > TitleLimit ==> t[..TitleLimit] == content[..TitleLimit] && t[TitleLimit..] == Ellipsis
  {
    content[..Min(TitleLimit, |content|)] + (if |content| > TitleLimit then Ellipsis else "")
  }

  /**
   * The message the hook builds: the caller's role and content, with an id
   * and a timestamp taken from two clock readings.
   */
  function NewMessage(role: Role, content: string, at: Clock.Reads): (m: Message)
    ensures m.role == role && m.content == content
    ensures m.id != "" && forall i :: 0 <= i < |m.id| ==> Clock.IsDigit(m.id[i])
    ensures m.id[0] == '0' ==> at.idMs == 0
    ensures Clock.ParseDecimal(m.id) == at.idMs
    ensures m.timestamp == at.stampMs
  {
    Clock.ParseToString(at.idMs);
    Message(Clock.ToString(at.idMs), role, content, at.stampMs)
  }

  /**
   * One conversation after a message is appended to it. The title is derived
   * from the message only when it is a user message landing in an empty
   * conversation; id and creation time are kept.
   */
  function Extend(c: Conversation, m: Message): (r: Conversation)
    ensures r.id == c.id && r.timestamp == c.timestamp
    ensures r.messages == c.messages + [m]
    ensures m.role == User && c.messages == [] ==> r.title == DeriveTitle(m.content)
    ensures !(m.role == User && c.messages == []) ==> r.title == c.title
  {
    var title := if m.role == User && |c.messages| == 0 then DeriveTitle(m.content) else c.title;
    c.(title := title, messages := c.messages + [m])
  }

  /**
   * The list after appending `m` to every conversation whose id is `id`
   * (`addMessageToConversation` maps over the whole list, so a repeated id is hit each time).
   */
  function AppendAll(cs: seq<Conversation>, id: string, m: Message): (r: seq<Conversation>)
    ensures |r| == |cs|
    ensures forall i :: 0 <= i < |cs| ==> r[i].id == cs[i].id
    ensures forall i :: 0 <= i < |cs| && cs[i].id != id ==> r[i] == cs[i]
    ensures forall i :: 0 <= i < |cs| && cs[i].id == id ==> r[i] == Extend(cs[i], m)
  {
    if cs == [] then []
    else [if cs[0].id == id then Extend(cs[0], m) else cs[0]] + AppendAll(cs[1..], id, m)
  }

  /** The list with every conversation whose id is `id` filtered out. */
  function Remove(cs: seq<Conversation>, id: string): (r: seq<Conversation>)
    ensures |r| <= |cs|
    ensures forall c :: c in r ==> c in cs && c.id != id
    ensures forall c :: c in cs && c.id != id ==> c in r
    ensures id !in Ids(cs) ==> r == cs
  {
    if cs == [] then []
    else if cs[0].id == id then Remove(cs[1..], id)
    else [cs[0]] + Remove(cs[1..], id)
  }

  /**
   * Delete removes exactly the matching conversations: each conversation
   * occurs in the result as often as before, unless it carries the id.
   */
  lemma {:induction false} RemoveCounts(cs: seq<Conversation>, id: string, c: Conversation)
    ensures multiset(Remove(cs, id))[c] == if c.id == id then 0 else multiset(cs)[c]
  {
    if cs != [] {
      assert cs == [cs[0]] + cs[1..];
      RemoveCounts(cs[1..], id, c);
    }
  }

  /** The position of the first conversation whose id is `id`, if any. */
  function FindFirst(cs: seq<Conversation>, id: string): (r: Option<nat>)
    ensures r.Some? ==> r.value < |cs| && cs[r.value].id == id
    ensures r.Some? ==> forall j :: 0 <= j < r.value ==> cs[j].id != id
    ensures r.None? <==> id !in Ids(cs)
  {
    if cs == [] then None
    else if cs[0].id == id then Some(0)
    else match FindFirst(cs[1..], id)
      case None => None
      case Some(k) => Some(k + 1)
  }

  /**
   * The conversation `Create` prepends: default title, no messages, an id
   * and a creation time taken from two clock readings.
   */
  function NewConversation(at: Clock.Reads): (c: Conversation)
    ensures c.title == DefaultTitle && c.messages == []
    ensures c.id != "" && forall i :: 0 <= i < |c.id| ==> Clock.IsDigit(c.id[i])
    ensures c.id[0] == '0' ==> at.idMs == 0
    ensures Clock.ParseDecimal(c.id) == at.idMs
    ensures c.timestamp == at.stampMs
  {
    Clock.ParseToString(at.idMs);
    Conversation(Clock.ToString(at.idMs), DefaultTitle, at.stampMs, [])
  }

  /**
   * createNewConversation: prepend a fresh, empty conversation and make it
   * current. Its id is the clock reading, so it may equal an older id.
   */
  function Create(s: Store, at: Clock.Reads): (r: Store)
    ensures |r.conversations| == |s.conversations| + 1
    ensures r.conversations[0].id == Clock.ToString(at.idMs)
    ensures r.conversations[0].title == DefaultTitle
    ensures r.conversations[0].timestamp == at.stampMs
    ensures r.conversations[0].messages == []
    ensures r.conversations[1..] == s.conversations
    ensures r.currentId == Some(r.conversations[0].id) && r.currentId.value != ""
    ensures Valid(r)
  {
    var c := NewConversation(at);
    Store([c] + s.conversations, Some(c.id))
  }

  /**
   * addMessageToConversation: append a message built from `role`, `content`
   * and the clock to every conversation whose id is `id`. A missing id is
   * silently a no-op, and the pointer is never touched.
   */
  function Append(s: Store, id: string, role: Role, content: string, at: Clock.Reads): (r: Store)
    ensures r.currentId == s.currentId
    ensures |r.conversations| == |s.conversations|
    ensures forall i :: 0 <= i < |s.conversations| ==> r.conversations[i].id == s.conversations[i].id
    ensures forall i :: 0 <= i < |s.conversations| && s.conversations[i].id != id ==>
              r.conversations[i] == s.conversations[i]
    ensures forall i :: 0 <= i < |s.conversations| && s.conversations[i].id == id ==>
              r.conversations[i] == Extend(s.conversations[i], NewMessage(role, content, at))
    ensures Ids(r.conversations) == Ids(s.conversations)
    ensures id !in Ids(s.conversations) ==> r == s
    ensures Valid(s) ==> Valid(r)
  {
    var cs := AppendAll(s.conversations, id, NewMessage(role, content, at));
    Store(cs, s.currentId)
  }

  /**
   * deleteConversation: filter out every conversation whose id is `id`, and
   * clear the pointer exactly when it named `id`.
   */
  function Delete(s: Store, id: string): (r: Store)
    ensures id !in Ids(r.conversations)
    ensures forall c :: c in s.conversations && c.id != id ==> c in r.conversations
    ensures forall c :: c in r.conversations ==> c in s.conversations
    ensures r.currentId.None? <==> (s.currentId.None? || s.currentId == Some(id))
    ensures r.currentId.Some? ==> r.currentId == s.currentId
    ensures id !in Ids(s.conversations) ==> r.conversations == s.conversations
    ensures Valid(s) ==> Valid(r)
  {
    var pointer := if s.currentId == Some(id) then None else s.currentId;
    Store(Remove(s.conversations, id), pointer)
  }

  /**
   * selectConversation: point at the given conversation. The hook does not
   * check that it is in the list, so the invariant survives only when it is.
   */
  function Select(s: Store, c: Conversation): (r: Store)
    ensures r.conversations == s.conversations
    ensures r.currentId == Some(c.id)
    ensures Valid(r) <==> c.id in Ids(s.conversations)
  {
    Store(s.conversations, Some(c.id))
  }

  /**
   * getCurrentConversation: the first conversation whose id equals the
   * pointer, or none; under the invariant it is none only when the pointer is null.
   */
  function GetCurrent(s: Store): (r: Option<Conversation>)
    ensures s.currentId.None? ==> r.None?
    ensures r.Some? ==> s.currentId == Some(r.value.id) && r.value in s.conversations
    ensures r.Some? ==> exists k :: (0 <= k < |s.conversations| && s.conversations[k] == r.value &&
              forall j :: 0 <= j < k ==> s.conversations[j].id != r.value.id)
    ensures Valid(s) && s.currentId.Some? ==> r.Some?
  {
    match s.currentId
    case None => None
    case Some(id) =>
      match FindFirst(s.conversations, id)
      case None => None
      case Some(k) => Some(s.conversations[k])
  }
}
