/**
 * How the deferred reply interacts with store operations that run between
 * sending and replying.
 */
module PageLaws {
  import opened Wrappers
  import opened ChatTypes
  import Clock
  import opened Conversations
  import opened Page

  /**
   * A first message sent with nothing selected, followed by its reply: the
   * new conversation holds the user message then the assistant reply, and its
   * title stays the one derived from the user message.
   */
  lemma FirstExchange(s: Store, message: string, createAt: Clock.Reads, sendAt: Clock.Reads, replyAt: Clock.Reads)
    requires !HasCurrent(s.currentId)
    ensures var sent := SendMessage(s, message, createAt, sendAt);
            var r := DeliverReply(sent.store, sent.reply, replyAt);
            && r.conversations[0].title == DeriveTitle(message)
            && r.conversations[0].messages ==
                 [NewMessage(User, message, sendAt), NewMessage(Assistant, ReplyText(message), replyAt)]
            && r.currentId == Some(r.conversations[0].id)
  {
  }

  /**
   * The reply lands in the conversation captured at send time even when the
   * user has selected another conversation in between.
   */
  lemma ReplyFollowsCapturedId(s: Store, message: string, createAt: Clock.Reads, sendAt: Clock.Reads,
                               other: Conversation, replyAt: Clock.Reads)
    requires HasCurrent(s.currentId)
    ensures var sent := SendMessage(s, message, createAt, sendAt);
            var r := DeliverReply(Select(sent.store, other), sent.reply, replyAt);
            && r.currentId == Some(other.id)
            && |r.conversations| == |s.conversations|
            && forall i :: 0 <= i < |s.conversations| && s.conversations[i].id == s.currentId.value ==>
                 r.conversations[i].messages == s.conversations[i].messages +
                   [NewMessage(User, message, sendAt), NewMessage(Assistant, ReplyText(message), replyAt)]
  {
    SendToCurrentIsAppend(s, message, createAt, sendAt);
    UserThenAssistantAppends(s, s.currentId.value, message, sendAt, other, replyAt);
  }

  /**
   * A user append to `id`, any selection, then an assistant append to the
   * same `id`: every conversation with that id ends with both messages.
   */
  lemma UserThenAssistantAppends(s: Store, id: string, message: string, sendAt: Clock.Reads,
                                 other: Conversation, replyAt: Clock.Reads)
    ensures var moved := Select(Append(s, id, User, message, sendAt), other);
            var r := Append(moved, id, Assistant, ReplyText(message), replyAt);
            && r.currentId == Some(other.id)
            && |r.conversations| == |s.conversations|
            && forall i :: 0 <= i < |s.conversations| && s.conversations[i].id == id ==>
                 r.conversations[i].messages == s.conversations[i].messages +
                   [NewMessage(User, message, sendAt), NewMessage(Assistant, ReplyText(message), replyAt)]
  {
    var user := NewMessage(User, message, sendAt);
    var reply := NewMessage(Assistant, ReplyText(message), replyAt);
    var moved := Select(Append(s, id, User, message, sendAt), other);
    var r := Append(moved, id, Assistant, ReplyText(message), replyAt);
    forall i | 0 <= i < |s.conversations| && s.conversations[i].id == id
      ensures r.conversations[i].messages == s.conversations[i].messages + [user, reply]
    {
      assert moved.conversations[i] == Extend(s.conversations[i], user);
      assert moved.conversations[i].id == id;
      assert r.conversations[i] == Extend(moved.conversations[i], reply);
    }
  }

  /** With a current conversation, sending is one append to its id. */
  lemma SendToCurrentIsAppend(s: Store, message: string, createAt: Clock.Reads, sendAt: Clock.Reads)
    requires HasCurrent(s.currentId)
    ensures SendMessage(s, message, createAt, sendAt) ==
            Sent(Append(s, s.currentId.value, User, message, sendAt),
                 PendingReply(s.currentId.value, ReplyText(message)))
  {
  }

  /** A reply whose conversation was deleted before it fired changes nothing. */
  lemma ReplyAfterDeleteIsNoOp(s: Store, message: string, createAt: Clock.Reads, sendAt: Clock.Reads,
                               replyAt: Clock.Reads)
    ensures var sent := SendMessage(s, message, createAt, sendAt);
            var gone := Delete(sent.store, sent.reply.target);
            DeliverReply(gone, sent.reply, replyAt) == gone && gone.currentId.None?
  {
  }

  /** The simulated reply quotes the message verbatim, so different messages get different replies. */
  lemma ReplyTextInjective(a: string, b: string)
    ensures ReplyText(a) == ReplyText(b) <==> a == b
  {
  }

  /** The upload notice names the file verbatim, so different names get different notices. */
  lemma UploadNoticeInjective(a: string, b: string)
    ensures UploadNotice(a) == UploadNotice(b) <==> a == b
  {
  }

  /**
   * New Chat followed by a send: the send goes through the has-current
   * branch, yet the empty new conversation still takes its title from the
   * message, and nothing further is created.
   */
  lemma NewChatThenSend(s: Store, at: Clock.Reads, message: string, createAt: Clock.Reads, sendAt: Clock.Reads)
    ensures var started := Create(s, at);
            var sent := SendMessage(started, message, createAt, sendAt);
            && |sent.store.conversations| == |started.conversations|
            && sent.store.conversations[0].title == DeriveTitle(message)
            && sent.store.conversations[0].messages == [NewMessage(User, message, sendAt)]
            && sent.reply.target == Clock.ToString(at.idMs)
  {
  }

  /** Every id the clock makes is a non-empty string, so a pointer holding one counts as current. */
  lemma ClockIdsAreCurrent(n: nat)
    ensures HasCurrent(Some(Clock.ToString(n)))
  {
  }
}
