/**
 * The home page's store-facing handlers: sending a message (create-or-append
 * plus a deferred simulated reply) and reacting to a file upload's outcome.
 * The reply is a separate later step, so any store operation may run between
 * sending and replying.
 */
module Page {
  import opened Wrappers
  import opened ChatTypes
  import Clock
  import opened Conversations

  /**
   * JavaScript truthiness of the pointer: both `null` and the empty string
   * count as "no current conversation".
   */
  function HasCurrent(p: Option<string>): (b: bool)
    ensures b ==> p.Some?
    ensures p == Some("") ==> !b
    ensures p.Some? && p.value != "" ==> b
  {
    p.Some? && p.value != ""
  }

  const ReplyPrefix: string := "I received your message: \""
  const ReplySuffix: string := "\". This is a simulated response."

  /**
   * The simulated assistant's answer to message `m`: the message quoted
   * verbatim between a fixed opening and a fixed closing.
   */
  function ReplyText(m: string): (r: string)
    ensures |r| == |ReplyPrefix| + |m| + |ReplySuffix|
    ensures r[..|ReplyPrefix|] == ReplyPrefix
    ensures r[|ReplyPrefix|..|ReplyPrefix| + |m|] == m
    ensures r[|ReplyPrefix| + |m|..] == ReplySuffix
  {
    ReplyPrefix + m + ReplySuffix
  }

  const NoticePrefix: string := "File \""
  const NoticeSuffix: string := "\" uploaded successfully!"

  /** The status line appended after a successful upload: the file name, quoted. */
  function UploadNotice(name: string): (r: string)
    ensures |r| == |NoticePrefix| + |name| + |NoticeSuffix|
    ensures r[..|NoticePrefix|] == NoticePrefix
    ensures r[|NoticePrefix|..|NoticePrefix| + |name|] == name
    ensures r[|NoticePrefix| + |name|..] == NoticeSuffix
  {
    NoticePrefix + name + NoticeSuffix
  }

  /** The error a failed upload raises. */
  const UploadFailed: string := "Upload failed"

  /** A reply scheduled at send time: the captured target id and its text. */
  datatype PendingReply = PendingReply(target: string, content: string)

  /** The store after sending, and the reply that will fire later. */
  datatype Sent = Sent(store: Store, reply: PendingReply)

  /**
   * handleSendMessage. Without a current conversation it creates one (clock
   * `createAt`) and appends the user message to the new id; otherwise it
   * appends to the current one. The reply is bound to that id either way.
   */
  function SendMessage(s: Store, message: string, createAt: Clock.Reads, appendAt: Clock.Reads): (r: Sent)
    ensures r.reply.content == ReplyText(message)
    ensures !HasCurrent(s.currentId) ==>
              && r.reply.target == Clock.ToString(createAt.idMs)
              && |r.store.conversations| == |s.conversations| + 1
              && r.store.currentId == Some(r.reply.target)
              && r.store.conversations[0] == Extend(NewConversation(createAt), NewMessage(User, message, appendAt))
              && (forall i :: 0 <= i < |s.conversations| && s.conversations[i].id != r.reply.target ==>
                    r.store.conversations[i + 1] == s.conversations[i])
              && (forall i :: 0 <= i < |s.conversations| && s.conversations[i].id == r.reply.target ==>
                    r.store.conversations[i + 1] == Extend(s.conversations[i], NewMessage(User, message, appendAt)))
    ensures HasCurrent(s.currentId) ==>
              && r.reply.target == s.currentId.value
              && r.store.currentId == s.currentId
              && |r.store.conversations| == |s.conversations|
              && (forall i :: 0 <= i < |s.conversations| && s.conversations[i].id != r.reply.target ==>
                    r.store.conversations[i] == s.conversations[i])
              && (forall i :: 0 <= i < |s.conversations| && s.conversations[i].id == r.reply.target ==>
                    r.store.conversations[i] == Extend(s.conversations[i], NewMessage(User, message, appendAt)))
    ensures Valid(s) ==> Valid(r.store)
  {
    if !HasCurrent(s.currentId) then
      var created := Create(s, createAt);
      var id := Clock.ToString(createAt.idMs);
      var r := Append(created, id, User, message, appendAt);
      assert forall i :: 0 <= i < |s.conversations| ==> created.conversations[i + 1] == s.conversations[i];
      Sent(r, PendingReply(id, ReplyText(message)))
    else
      var id := s.currentId.value;
      Sent(Append(s, id, User, message, appendAt), PendingReply(id, ReplyText(message)))
  }

  /**
   * The timer callback: append the reply as an assistant message to the id
   * captured at send time, whatever is selected now. It never renames a
   * conversation and does nothing once the target has been deleted.
   */
  function DeliverReply(s: Store, p: PendingReply, at: Clock.Reads): (r: Store)
    ensures r.currentId == s.currentId
    ensures |r.conversations| == |s.conversations|
    ensures forall i :: 0 <= i < |s.conversations| ==>
              r.conversations[i].id == s.conversations[i].id &&
              r.conversations[i].timestamp == s.conversations[i].timestamp &&
              r.conversations[i].title == s.conversations[i].title
    ensures forall i :: 0 <= i < |s.conversations| && s.conversations[i].id == p.target ==>
              r.conversations[i].messages == s.conversations[i].messages + [NewMessage(Assistant, p.content, at)]
    ensures forall i :: 0 <= i < |s.conversations| && s.conversations[i].id != p.target ==>
              r.conversations[i] == s.conversations[i]
    ensures p.target !in Ids(s.conversations) ==> r == s
    ensures Valid(s) ==> Valid(r)
  {
    Append(s, p.target, Assistant, p.content, at)
  }

  /**
   * handleFileUpload after the request settles. `captured` is the pointer
   * the handler saw when it was invoked, before awaiting the response. A
   * failed upload raises and leaves the store alone; a successful one posts a
   * user notice to the captured conversation if there was one.
   */
  function UploadSettled(s: Store, captured: Option<string>, fileName: string, ok: bool, at: Clock.Reads)
    : (r: Result<Store, string>)
    ensures !ok ==> r == Failure(UploadFailed)
    ensures ok ==> r.Success? && r.value.currentId == s.currentId
    ensures ok && Valid(s) ==> Valid(r.value)
    ensures ok && !HasCurrent(captured) ==> r == Success(s)
    ensures ok && HasCurrent(captured) ==>
              && |r.value.conversations| == |s.conversations|
              && (forall i :: 0 <= i < |s.conversations| && s.conversations[i].id != captured.value ==>
                    r.value.conversations[i] == s.conversations[i])
              && (forall i :: 0 <= i < |s.conversations| && s.conversations[i].id == captured.value ==>
                    r.value.conversations[i] == Extend(s.conversations[i], NewMessage(User, UploadNotice(fileName), at)))
  {
    if !ok then Failure(UploadFailed)
    else if HasCurrent(captured) then Success(Append(s, captured.value, User, UploadNotice(fileName), at))
    else Success(s)
  }
}
