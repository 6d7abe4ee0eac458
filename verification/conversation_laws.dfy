/**
 * Properties of the store operations that relate several calls: the order
 * delete keeps, idempotence, what a select without a membership check allows,
 * and what same-millisecond ids do to append and delete.
 */
module ConversationLaws {
  import opened Wrappers
  import opened ChatTypes
  import Clock
  import opened Conversations

  /**
   * Filtering distributes over concatenation, so the conversations that
   * survive a delete keep their relative order.
   */
  lemma {:induction false} RemoveKeepsOrder(a: seq<Conversation>, b: seq<Conversation>, id: string)
    ensures Remove(a + b, id) == Remove(a, id) + Remove(b, id)
  {
    if a == [] {
      assert a + b == b;
    } else {
      assert (a + b)[0] == a[0];
      assert (a + b)[1..] == a[1..] + b;
      RemoveKeepsOrder(a[1..], b, id);
    }
  }

  /** Deleting twice is deleting once. */
  lemma DeleteIdempotent(s: Store, id: string)
    ensures Delete(Delete(s, id), id) == Delete(s, id)
  {
  }

  /**
   * Select performs no membership check: selecting any conversation that is
   * not listed leaves the pointer dangling, whatever the store held before.
   */
  lemma SelectCanDangle(s: Store, c: Conversation)
    requires c.id !in Ids(s.conversations)
    ensures !Valid(Select(s, c))
  {
  }

  /**
   * Two conversations created in the same millisecond share an id, and one
   * append to that id reaches both of them.
   */
  lemma SameMillisecondAppendHitsBoth(s: Store, at1: Clock.Reads, at2: Clock.Reads, role: Role, content: string,
                                      later: Clock.Reads)
    requires at1.idMs == at2.idMs
    ensures var twice := Create(Create(s, at1), at2);
            var r := Append(twice, Clock.ToString(at1.idMs), role, content, later);
            r.conversations[0].messages == [NewMessage(role, content, later)] &&
            r.conversations[1].messages == [NewMessage(role, content, later)]
  {
  }

  /** Likewise, deleting that shared id removes both conversations. */
  lemma SameMillisecondDeleteRemovesBoth(s: Store, at1: Clock.Reads, at2: Clock.Reads)
    requires at1.idMs == at2.idMs
    ensures var id := Clock.ToString(at1.idMs);
            Delete(Create(Create(s, at1), at2), id).conversations == Remove(s.conversations, id)
  {
    var once := Create(s, at1);
    var twice := Create(once, at2);
    var id := Clock.ToString(at1.idMs);
    assert twice.conversations[0].id == id && twice.conversations[1..] == once.conversations;
    assert Remove(twice.conversations, id) == Remove(once.conversations, id);
    assert once.conversations[0].id == id && once.conversations[1..] == s.conversations;
  }

  /**
   * A walk through the store's life: create, a short first user message
   * becomes the title, an assistant reply leaves it alone, and deleting the
   * only conversation empties the store and clears the pointer.
   */
  lemma FirstConversationLifecycle(at1: Clock.Reads, at2: Clock.Reads, at3: Clock.Reads)
    ensures var s1 := Create(Empty, at1);
            var id := Clock.ToString(at1.idMs);
            var s2 := Append(s1, id, User, "Hello there, how are you today?", at2);
            var s3 := Append(s2, id, Assistant, "I'm fine", at3);
            && s2.conversations[0].title == "Hello there, how are you today?"
            && s3.conversations[0].title == "Hello there, how are you today?"
            && |s3.conversations[0].messages| == 2
            && Delete(s3, id) == Empty
  {
  }

  /** Right after a create, the current conversation is the new, empty one. */
  lemma CurrentAfterCreate(s: Store, at: Clock.Reads)
    ensures GetCurrent(Create(s, at)) == Some(NewConversation(at))
  {
  }

  /** Right after deleting the current conversation there is none. */
  lemma NoCurrentAfterDeletingIt(s: Store)
    requires s.currentId.Some?
    ensures GetCurrent(Delete(s, s.currentId.value)).None?
  {
  }
}
