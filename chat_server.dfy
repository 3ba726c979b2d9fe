/**
  The gRPC chat server's handlers over its single in-memory registry. Each
  handler is one atomic step on the registry; the reply and the new map are
  exactly those the matching function of ChatState gives.
 */
module ChatServer {
  import opened ChatState

  /**
    The registry: the map from chat id to chat that every handler shares.
    The readers-writer lock that guards it in the server is not modelled;
    every handler runs as one indivisible step.
   */
  class SyncMap {
    var chats: map<int64, Chat>

    /** The empty registry the server starts with. */
    constructor ()
      ensures chats == map[]
      ensures Valid(chats)
    {
      chats := map[];
    }

    /**
      Create: reject a nil or empty participant list, otherwise store a new
      chat with no messages under `id` (the server draws it from rand.Int63)
      and return `id`. An existing chat under `id` is overwritten.
     */
    method Create(userIds: Option<seq<int64>>, id: int64) returns (r: Reply<int64>)
      requires Valid(chats)
      modifies this
      ensures Valid(chats)
      ensures Step(r, chats) == CreateStep(old(chats), userIds, id)
    {
      CreatePreservesValid(chats, userIds, id);
      if userIds.None? {
        return Err(UserIdsRequired);
      }
      if |userIds.value| == 0 {
        return Err(UserIdsEmpty);
      }
      var created := Chat(id, userIds.value, []);
      chats := chats[created.id := created];
      return Ok(created.id);
    }

    /** Delete: reject id 0 and unknown ids, otherwise remove the chat. */
    method Delete(id: int64) returns (r: Reply<()>)
      requires Valid(chats)
      modifies this
      ensures Valid(chats)
      ensures Step(r, chats) == DeleteStep(old(chats), id)
    {
      DeletePreservesValid(chats, id);
      if id == 0 {
        return Err(IdRequired);
      }
      if id !in chats {
        return Err(ChatNotFound);
      }
      chats := chats - {id};
      return Ok(());
    }

    /**
      SendMessage: the four field checks in order, the lookup of the chat,
      the scan for the sender among its participants, then the append.
     */
    method SendMessage(chatId: int64, fromUserId: int64, text: string, createdAt: Timestamp)
      returns (r: Reply<()>)
      requires Valid(chats)
      modifies this
      ensures Valid(chats)
      ensures Step(r, chats) == SendStep(old(chats), chatId, fromUserId, text, createdAt)
    {
      SendPreservesValid(chats, chatId, fromUserId, text, createdAt);
      if chatId == 0 {
        return Err(ChatIdRequired);
      }
      if fromUserId == 0 {
        return Err(FromUserIdRequired);
      }
      if text == "" {
        return Err(TextRequired);
      }
      if createdAt.Missing? {
        return Err(CreatedAtRequired);
      }
      // The server performs this lookup and the scan below without holding
      // the lock, and takes the write lock only for the append. A Delete of
      // the chat, or a Create that replaces it, can run in between, and the
      // unlocked map read races with those locked writes. A sequential model
      // cannot show that.
      if chatId !in chats {
        return Err(ChatNotFound);
      }
      var chat := chats[chatId];
      var present := UserPresentedInChat(chat.userIds, fromUserId);
      if !present {
        return Err(NotMember);
      }
      chats := chats[chatId := chat.(messages := chat.messages + [Message(fromUserId, text, createdAt.instant)])];
      return Ok(());
    }
  }

  /**
    The scan of SendMessage over a chat's participants: stops at the first
    occurrence of `fromUserId` and reports whether there was one.
   */
  method UserPresentedInChat(userIds: seq<int64>, fromUserId: int64) returns (present: bool)
    ensures present <==> fromUserId in userIds
  {
    present := false;
    for i := 0 to |userIds|
      invariant !present
      invariant fromUserId !in userIds[..i]
    {
      if userIds[i] == fromUserId {
        present := true;
        break;
      }
    }
  }
}
