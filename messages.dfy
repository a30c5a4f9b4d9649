/**
  The messages controller: sending a direct message, the conversation
  between two users (oldest first), a user's inbox (newest first),
  deleting a message (sender only) and marking one read.
*/
module Messages {
  import opened Common
  import opened Models
  import opened Queries

  function MessageCreatedAt(m: Message): int { m.createdAt }

  /**
    `sendMessage`: 400 when the sender, the receiver or the text is
    missing, and nothing is stored; otherwise an unread message with a new
    id is added.
  */
  method SendMessage(db: Db, senderId: Id, receiverId: Id, text: string, now: nat) returns (r: Reply<Message>)
    requires db.Valid()
    modifies db`messages
    ensures db.Valid()
    ensures r.Err? <==> !Given(senderId) || !Given(receiverId) || !Given(text)
    ensures r.Err? ==> r.status == 400 && db.messages == old(db.messages)
    ensures r.Ok? ==>
      && r.status == 201
      && r.body.id !in IdsOf(old(db.messages), MessageId)
      && r.body == Message(r.body.id, senderId, receiverId, text, now, false)
      && db.messages == old(db.messages) + [r.body]
  {
    if !Given(senderId) || !Given(receiverId) || !Given(text) {
      return Err(400);
    }
    var id := NewObjectId(IdsOf(db.messages, MessageId));
    var m := Message(id, senderId, receiverId, text, now, false);
    db.messages := db.messages + [m];
    r := Ok(201, m);
  }

  /** The query `{ $or: [{ senderId: a, receiverId: b }, { senderId: b, receiverId: a }] }`. */
  predicate Between(a: Id, b: Id, m: Message) {
    (m.senderId == a && m.receiverId == b) || (m.senderId == b && m.receiverId == a)
  }

  /**
    `getMessages`: 400 unless both users are given; otherwise exactly the
    messages between them in either direction, each as often as it is
    stored, oldest first.
  */
  function GetMessages(messages: seq<Message>, a: Id, b: Id): (r: Reply<seq<Message>>)
    ensures r.Err? <==> !Given(a) || !Given(b)
    ensures r.Err? ==> r.status == 400
    ensures r.Ok? ==>
      && r.status == 200
      && (forall m :: m in r.body <==> m in messages && Between(a, b, m))
      && (forall m :: multiset(r.body)[m] == if Between(a, b, m) then multiset(messages)[m] else 0)
      && Sorted(r.body, MessageCreatedAt, true)
  {
    if !Given(a) || !Given(b) then Err(400)
    else
      var keep := (m: Message) => Between(a, b, m);
      var found := Filter(messages, keep);
      var sorted := SortBy(found, MessageCreatedAt, true);
      forall m
        ensures m in sorted <==> m in messages && Between(a, b, m)
        ensures multiset(sorted)[m] == if Between(a, b, m) then multiset(messages)[m] else 0
      {
        SortByMembers(found, MessageCreatedAt, true, m);
        FilterCount(messages, keep, m);
      }
      Ok(200, sorted)
  }

  /** A conversation reads the same whichever of its two users asks for it. */
  lemma GetMessagesSymmetric(messages: seq<Message>, a: Id, b: Id)
    ensures GetMessages(messages, a, b) == GetMessages(messages, b, a)
  {
    FilterSameCondition(messages, (m: Message) => Between(a, b, m), (m: Message) => Between(b, a, m));
  }

  /** The query `{ $or: [{ senderId: u }, { receiverId: u }] }`. */
  predicate Involves(u: Id, m: Message) {
    m.senderId == u || m.receiverId == u
  }

  /**
    `getUserMessages`: exactly the messages the user sent or received, each
    as often as it is stored, newest first.
  */
  function GetUserMessages(messages: seq<Message>, userId: Id): (r: Reply<seq<Message>>)
    ensures r.Ok? && r.status == 200
    ensures forall m :: m in r.body <==> m in messages && Involves(userId, m)
    ensures forall m :: multiset(r.body)[m] == if Involves(userId, m) then multiset(messages)[m] else 0
    ensures Sorted(r.body, MessageCreatedAt, false)
  {
    var keep := (m: Message) => Involves(userId, m);
    var found := Filter(messages, keep);
    var sorted := SortBy(found, MessageCreatedAt, false);
    forall m
      ensures m in sorted <==> m in messages && Involves(userId, m)
      ensures multiset(sorted)[m] == if Involves(userId, m) then multiset(messages)[m] else 0
    {
      SortByMembers(found, MessageCreatedAt, false, m);
      FilterCount(messages, keep, m);
    }
    Ok(200, sorted)
  }

  /** Every message of a conversation is in the inbox of each of its two users. */
  lemma ConversationInInbox(messages: seq<Message>, a: Id, b: Id, m: Message)
    requires Given(a) && Given(b)
    requires m in GetMessages(messages, a, b).body
    ensures m in GetUserMessages(messages, a).body && m in GetUserMessages(messages, b).body
  {
  }

  /**
    `deleteMessage`: 400 unless the message id and the sender are given,
    404 when the message is missing, 403 when the stored sender is not the
    one given; otherwise exactly that message is removed.
  */
  method DeleteMessage(db: Db, messageId: Id, senderId: Id) returns (r: Reply<()>)
    requires db.Valid()
    modifies db`messages
    ensures db.Valid()
    ensures r.Err? ==> db.messages == old(db.messages)
    ensures !Given(messageId) || !Given(senderId) ==> r == Err(400)
    ensures Given(messageId) && Given(senderId) && IndexOf(old(db.messages), MessageId, messageId).None? ==> r == Err(404)
    ensures Given(messageId) && Given(senderId) && IndexOf(old(db.messages), MessageId, messageId).Some? ==>
      var i := IndexOf(old(db.messages), MessageId, messageId).value;
      if old(db.messages)[i].senderId != senderId then r == Err(403)
      else
        && r == Ok(200, ())
        && db.messages == RemoveAt(old(db.messages), i)
        && IdsOf(db.messages, MessageId) == IdsOf(old(db.messages), MessageId) - {messageId}
  {
    if !Given(messageId) || !Given(senderId) {
      return Err(400);
    }
    var found := IndexOf(db.messages, MessageId, messageId);
    if found.None? {
      return Err(404);
    }
    if db.messages[found.value].senderId != senderId {
      return Err(403);
    }
    RemoveAtKeepsUnique(db.messages, MessageId, found.value);
    db.messages := RemoveAt(db.messages, found.value);
    r := Ok(200, ());
  }

  /**
    `markMessageAsRead`: 404 when the message is missing; otherwise its
    `readStatus` becomes true and nothing else changes, so marking a
    message that is already read leaves the collection as it was.
  */
  method MarkMessageAsRead(db: Db, messageId: Id) returns (r: Reply<Message>)
    requires db.Valid()
    modifies db`messages
    ensures db.Valid()
    ensures IndexOf(old(db.messages), MessageId, messageId).None? ==> r == Err(404) && db.messages == old(db.messages)
    ensures IndexOf(old(db.messages), MessageId, messageId).Some? ==>
      var i := IndexOf(old(db.messages), MessageId, messageId).value;
      var read := old(db.messages)[i].(readStatus := true);
      && r == Ok(200, read)
      && db.messages == old(db.messages)[i := read]
      && (old(db.messages)[i].readStatus ==> db.messages == old(db.messages))
  {
    var found := IndexOf(db.messages, MessageId, messageId);
    if found.None? {
      return Err(404);
    }
    var m := db.messages[found.value].(readStatus := true);
    db.messages := db.messages[found.value := m];
    r := Ok(200, m);
  }
}
