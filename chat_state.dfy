/**
  The state of the chat server: the map from chat id to chat that the three
  gRPC handlers read and mutate, the reasons they reject a request for, and
  one pure function per handler giving its reply and the map it leaves behind.
  The handlers themselves (module ChatServer) are proved against these
  functions; the lemmas here state what the handlers promise.
 */
module ChatState {

  /** Go's int64. */
  newtype int64 = x: int | -0x8000_0000_0000_0000 <= x < 0x8000_0000_0000_0000

  datatype Option<T> = None | Some(value: T)

  /** The request's createdAt field: either absent, or a point in time. */
  datatype Timestamp = Missing | Present(instant: int)

  /** One posted message; createdAt is the request's timestamp converted to a time. */
  datatype Message = Message(fromUserId: int64, text: string, createdAt: int)

  /** A chat room: its id, its fixed participant list and its message log. */
  datatype Chat = Chat(id: int64, userIds: seq<int64>, messages: seq<Message>)

  /**
    Why a handler rejected a request, one value per distinct error message.
    The server reports every one of them with the InvalidArgument status code.
   */
  datatype Reason =
    | UserIdsRequired     // "UserIds is required"
    | UserIdsEmpty        // "UserIds must be not empty"
    | IdRequired          // "Id is required"
    | ChatNotFound        // "Chat not found"
    | ChatIdRequired      // "ChatId is required"
    | FromUserIdRequired  // "FromUserId is required"
    | TextRequired        // "Text is required"
    | CreatedAtRequired   // "CreatedAt is required"
    | NotMember           // "FromUserId is not presented in chat user ids"

  /** A handler's reply: a response value or an error, never both. */
  datatype Reply<T> = Ok(value: T) | Err(reason: Reason)

  /** A handler's reply together with the chat map after the call. */
  datatype Step<T> = Step(reply: Reply<T>, chats: map<int64, Chat>)

  /** A chat stored under `key` is well formed. */
  predicate ChatValid(key: int64, c: Chat) {
    && c.id == key
    && |c.userIds| > 0
    && forall m :: m in c.messages ==> m.fromUserId in c.userIds && m.text != ""
  }

  /**
    The registry invariant: every chat is stored under its own id, has at
    least one participant, and every message in it was sent by a participant
    and carries text.
   */
  predicate Valid(chats: map<int64, Chat>) {
    forall k :: k in chats ==> ChatValid(k, chats[k])
  }

  /** The chat as it is after `m` is appended to its log. */
  function Append(c: Chat, m: Message): (appended: Chat) {
    c.(messages := c.messages + [m])
  }

  // ---------------------------------------------------------------------
  // Create
  // ---------------------------------------------------------------------

  /**
    Create with participant list `userIds` (None for a nil list) and the
    freshly drawn random id `id`. The chat is stored unconditionally, so an
    existing chat under the same id is replaced.
   */
  function CreateStep(chats: map<int64, Chat>, userIds: Option<seq<int64>>, id: int64): (s: Step<int64>)
    ensures s.reply.Err? ==> s.chats == chats
    ensures s.reply == Err(UserIdsRequired) <==> userIds == None
    ensures s.reply == Err(UserIdsEmpty) <==> userIds == Some([])
    ensures s.reply.Ok? <==> userIds.Some? && |userIds.value| > 0
    ensures s.reply.Ok? ==>
      && s.reply.value == id
      && s.chats.Keys == chats.Keys + {id}
      && s.chats[id] == Chat(id, userIds.value, [])
      && forall k :: k in chats && k != id ==> s.chats[k] == chats[k]
  {
    match userIds
    case None => Step(Err(UserIdsRequired), chats)
    case Some(ids) =>
      if |ids| == 0 then Step(Err(UserIdsEmpty), chats)
      else Step(Ok(id), chats[id := Chat(id, ids, [])])
  }

  // ---------------------------------------------------------------------
  // Delete
  // ---------------------------------------------------------------------

  /** Delete the chat with id `id`. */
  function DeleteStep(chats: map<int64, Chat>, id: int64): (s: Step<()>)
    ensures s.reply.Err? ==> s.chats == chats
    ensures s.reply == Err(IdRequired) <==> id == 0
    ensures s.reply == Err(ChatNotFound) <==> id != 0 && id !in chats
    ensures s.reply.Ok? <==> id != 0 && id in chats
    ensures s.reply.Ok? ==>
      && s.chats.Keys == chats.Keys - {id}
      && forall k :: k in s.chats ==> s.chats[k] == chats[k]
  {
    if id == 0 then Step(Err(IdRequired), chats)
    else if id !in chats then Step(Err(ChatNotFound), chats)
    else Step(Ok(()), chats - {id})
  }

  // ---------------------------------------------------------------------
  // SendMessage
  // ---------------------------------------------------------------------

  /**
    The four field checks of SendMessage, which run before the chat is looked
    up: the first field that fails names the reason.
   */
  function SendFieldError(chatId: int64, fromUserId: int64, text: string, createdAt: Timestamp): (r: Option<Reason>)
    ensures r == None <==> chatId != 0 && fromUserId != 0 && text != "" && createdAt.Present?
    ensures r == Some(ChatIdRequired) <==> chatId == 0
    ensures r == Some(FromUserIdRequired) <==> chatId != 0 && fromUserId == 0
    ensures r == Some(TextRequired) <==> chatId != 0 && fromUserId != 0 && text == ""
    ensures r == Some(CreatedAtRequired) <==>
      chatId != 0 && fromUserId != 0 && text != "" && createdAt.Missing?
  {
    if chatId == 0 then Some(ChatIdRequired)
    else if fromUserId == 0 then Some(FromUserIdRequired)
    else if text == "" then Some(TextRequired)
    else if createdAt.Missing? then Some(CreatedAtRequired)
    else None
  }

  /** The message a successful SendMessage appends. */
  function Posted(fromUserId: int64, text: string, createdAt: Timestamp): (m: Message)
    requires createdAt.Present?
  {
    Message(fromUserId, text, createdAt.instant)
  }

  /**
    SendMessage: the field checks, then the lookup of the chat, then the
    membership test of the sender, then the append.
   */
  function SendStep(chats: map<int64, Chat>, chatId: int64, fromUserId: int64, text: string,
                    createdAt: Timestamp): (s: Step<()>)
    ensures s.reply.Err? ==> s.chats == chats
    ensures SendFieldError(chatId, fromUserId, text, createdAt).Some? ==>
      s.reply == Err(SendFieldError(chatId, fromUserId, text, createdAt).value)
    ensures s.reply == Err(ChatNotFound) <==>
      SendFieldError(chatId, fromUserId, text, createdAt).None? && chatId !in chats
    ensures s.reply == Err(NotMember) <==>
      && SendFieldError(chatId, fromUserId, text, createdAt).None?
      && chatId in chats && fromUserId !in chats[chatId].userIds
    ensures s.reply.Ok? <==>
      && SendFieldError(chatId, fromUserId, text, createdAt).None?
      && chatId in chats && fromUserId in chats[chatId].userIds
    ensures s.reply.Ok? ==>
      && s.chats.Keys == chats.Keys
      && s.chats[chatId].id == chats[chatId].id
      && s.chats[chatId].userIds == chats[chatId].userIds
      && |s.chats[chatId].messages| == |chats[chatId].messages| + 1
      && s.chats[chatId].messages[..|chats[chatId].messages|] == chats[chatId].messages
      && s.chats[chatId].messages[|chats[chatId].messages|] == Message(fromUserId, text, createdAt.instant)
      && forall k :: k in chats && k != chatId ==> s.chats[k] == chats[k]
  {
    match SendFieldError(chatId, fromUserId, text, createdAt)
    case Some(reason) => Step(Err(reason), chats)
    case None =>
      if chatId !in chats then Step(Err(ChatNotFound), chats)
      else if fromUserId !in chats[chatId].userIds then Step(Err(NotMember), chats)
      else Step(Ok(()), chats[chatId := Append(chats[chatId], Posted(fromUserId, text, createdAt))])
  }

  // ---------------------------------------------------------------------
  // The invariant is kept by every handler
  // ---------------------------------------------------------------------

  lemma CreatePreservesValid(chats: map<int64, Chat>, userIds: Option<seq<int64>>, id: int64)
    requires Valid(chats)
    ensures Valid(CreateStep(chats, userIds, id).chats)
  {
  }

  lemma DeletePreservesValid(chats: map<int64, Chat>, id: int64)
    requires Valid(chats)
    ensures Valid(DeleteStep(chats, id).chats)
  {
  }

  lemma SendPreservesValid(chats: map<int64, Chat>, chatId: int64, fromUserId: int64, text: string,
                           createdAt: Timestamp)
    requires Valid(chats)
    ensures Valid(SendStep(chats, chatId, fromUserId, text, createdAt).chats)
  {
  }

  // ---------------------------------------------------------------------
  // Properties relating several calls
  // ---------------------------------------------------------------------

  /**
    A chat id names at most one chat: a successful Create under an id that is
    already in use replaces that chat, and its participants and messages are lost.
   */
  lemma CreateOverwrites(chats: map<int64, Chat>, ids: seq<int64>, id: int64)
    requires id in chats && |ids| > 0
    ensures var s := CreateStep(chats, Some(ids), id);
      && s.reply == Ok(id)
      && |s.chats| == |chats|
      && s.chats[id].userIds == ids
      && s.chats[id].messages == []
  {
  }

  /**
    Deleting is not idempotent in its reply: a second Delete of the same id
    after a successful one fails with "Chat not found" and changes nothing.
   */
  lemma DeleteTwiceFails(chats: map<int64, Chat>, id: int64)
    requires DeleteStep(chats, id).reply.Ok?
    ensures var s := DeleteStep(chats, id);
      && id !in s.chats
      && DeleteStep(s.chats, id) == Step(Err(ChatNotFound), s.chats)
  {
  }

  /** After a successful Delete, messages to that chat are refused as "Chat not found". */
  lemma SendAfterDeleteFails(chats: map<int64, Chat>, id: int64, fromUserId: int64, text: string,
                             createdAt: Timestamp)
    requires DeleteStep(chats, id).reply.Ok?
    requires fromUserId != 0 && text != "" && createdAt.Present?
    ensures var s := DeleteStep(chats, id);
      SendStep(s.chats, id, fromUserId, text, createdAt) == Step(Err(ChatNotFound), s.chats)
  {
  }

  /**
    Creating a chat under an unused id and deleting it again gives back the
    map it started from.
   */
  lemma CreateThenDeleteRestores(chats: map<int64, Chat>, ids: seq<int64>, id: int64)
    requires id != 0 && id !in chats && |ids| > 0
    ensures var s := CreateStep(chats, Some(ids), id);
      DeleteStep(s.chats, id) == Step(Ok(()), chats)
  {
  }

  /**
    The field checks of SendMessage come before any lookup: when one of them
    fails, the reply does not depend on the chat map at all.
   */
  lemma FieldChecksPrecedeLookup(c1: map<int64, Chat>, c2: map<int64, Chat>, chatId: int64,
                                 fromUserId: int64, text: string, createdAt: Timestamp)
    requires SendFieldError(chatId, fromUserId, text, createdAt).Some?
    ensures SendStep(c1, chatId, fromUserId, text, createdAt).reply
         == SendStep(c2, chatId, fromUserId, text, createdAt).reply
  {
  }

  /**
    A chat stored under id 0 (rand.Int63 may return 0) can never be deleted or
    written to: both handlers reject id 0 before they look at the map.
   */
  lemma ChatAtZeroUnreachable(chats: map<int64, Chat>, fromUserId: int64, text: string,
                              createdAt: Timestamp)
    ensures DeleteStep(chats, 0) == Step(Err(IdRequired), chats)
    ensures SendStep(chats, 0, fromUserId, text, createdAt) == Step(Err(ChatIdRequired), chats)
  {
  }

  /**
    Messages are only ever appended: after any SendMessage, accepted or not,
    every chat keeps its participants and its log extends the log it had before.
   */
  lemma SendKeepsLogPrefixes(chats: map<int64, Chat>, chatId: int64, fromUserId: int64, text: string,
                             createdAt: Timestamp, k: int64)
    requires k in chats
    ensures var after := SendStep(chats, chatId, fromUserId, text, createdAt).chats;
      && k in after
      && after[k].userIds == chats[k].userIds
      && |chats[k].messages| <= |after[k].messages|
      && after[k].messages[..|chats[k].messages|] == chats[k].messages
  {
  }

  // ---------------------------------------------------------------------
  // A run of messages to one chat
  // ---------------------------------------------------------------------

  /** One SendMessage request to a fixed chat. */
  datatype Post = Post(fromUserId: int64, text: string, createdAt: Timestamp)

  /** The chat map after the posts are handled one after another, in order. */
  function SendAll(chats: map<int64, Chat>, chatId: int64, posts: seq<Post>): (after: map<int64, Chat>)
    decreases |posts|
  {
    if posts == [] then chats
    else
      var p := posts[0];
      SendAll(SendStep(chats, chatId, p.fromUserId, p.text, p.createdAt).chats, chatId, posts[1..])
  }

  /** The messages the posts turn into. */
  function Delivered(posts: seq<Post>): (ms: seq<Message>)
    requires forall i :: 0 <= i < |posts| ==> posts[i].createdAt.Present?
    ensures |ms| == |posts|
    ensures forall i :: 0 <= i < |posts| ==>
      ms[i] == Message(posts[i].fromUserId, posts[i].text, posts[i].createdAt.instant)
  {
    if posts == [] then []
    else [Posted(posts[0].fromUserId, posts[0].text, posts[0].createdAt)] + Delivered(posts[1..])
  }

  /** One accepted post to an existing chat appends its message and changes nothing else. */
  lemma AcceptedPost(chats: map<int64, Chat>, chatId: int64, p: Post)
    requires chatId != 0 && chatId in chats
    requires p.fromUserId != 0 && p.text != "" && p.createdAt.Present?
    requires p.fromUserId in chats[chatId].userIds
    ensures SendStep(chats, chatId, p.fromUserId, p.text, p.createdAt)
         == Step(Ok(()), chats[chatId := Append(chats[chatId], Posted(p.fromUserId, p.text, p.createdAt))])
  {
  }

  /**
    N accepted messages sent to one chat, one handler call after another, leave
    exactly those N messages at the end of its log, each once and in the order
    they were handled; no other chat and no participant list changes.
   */
  lemma {:induction false} SendAllAppendsInOrder(chats: map<int64, Chat>, chatId: int64, posts: seq<Post>)
    requires chatId != 0 && chatId in chats
    requires forall i :: 0 <= i < |posts| ==>
      && posts[i].fromUserId != 0 && posts[i].text != "" && posts[i].createdAt.Present?
      && posts[i].fromUserId in chats[chatId].userIds
    ensures var after := SendAll(chats, chatId, posts);
      && after.Keys == chats.Keys
      && after[chatId].userIds == chats[chatId].userIds
      && after[chatId].messages == chats[chatId].messages + Delivered(posts)
      && forall k :: k in chats && k != chatId ==> after[k] == chats[k]
  {
    if posts != [] {
      var p, rest := posts[0], posts[1..];
      var m := Posted(p.fromUserId, p.text, p.createdAt);
      AcceptedPost(chats, chatId, p);
      var next := chats[chatId := Append(chats[chatId], m)];
      assert SendAll(chats, chatId, posts) == SendAll(next, chatId, rest);
      forall i | 0 <= i < |rest|
        ensures rest[i].fromUserId in next[chatId].userIds
      {
        assert rest[i] == posts[i + 1];
      }
      SendAllAppendsInOrder(next, chatId, rest);
      assert Delivered(posts) == [m] + Delivered(rest);
      assert next[chatId].messages + Delivered(rest) == chats[chatId].messages + Delivered(posts);
    }
  }

  // ---------------------------------------------------------------------
  // A session from start to end
  // ---------------------------------------------------------------------

  /**
    Create a chat for users 1 and 2, post "hi" from user 1, try to post from
    user 3, delete the chat, then try to post to it again.
   */
  lemma Session(id: int64, t: int)
    requires id != 0
    ensures
      var s1 := CreateStep(map[], Some([1, 2]), id);
      var s2 := SendStep(s1.chats, id, 1, "hi", Present(t));
      var s3 := SendStep(s2.chats, id, 3, "hi", Present(t));
      var s4 := DeleteStep(s3.chats, id);
      var s5 := SendStep(s4.chats, id, 1, "hi", Present(t));
      && s1.reply == Ok(id)
      && s2.reply == Ok(()) && s2.chats[id].messages == [Message(1, "hi", t)]
      && s3.reply == Err(NotMember) && s3.chats[id].messages == [Message(1, "hi", t)]
      && s4.reply == Ok(()) && s4.chats == map[]
      && s5.reply == Err(ChatNotFound)
  {
  }
}
