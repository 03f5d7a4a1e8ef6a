/**
 * The state kept by `ChatroomCtrl` in static/js/app/app.js: the id of the
 * open conversation and the HTTP requests the controller has issued. Each
 * `$http` call is recorded as a request appended to `requests`; what the
 * server answers, and what the promise handlers do with it, is not part of
 * this model.
 */
module Chatroom {
  import opened Wrappers
  import ConversationId

  /** An HTTP request issued by the controller. */
  datatype Request =
    | FetchFriends                          // GET /api/friends
    | FetchHistory(inbox: string)           // GET /api/chats with the query parameter inbox
    | PostMessage(url: string, body: string) // POST to url with the message as the body

  /** Chat messages are posted to this path followed by the conversation id, unescaped. */
  const ChatsPath := "/api/chats?inbox="

  /** A two-party identifier: tagged `d_`. */
  predicate IsDirectId(id: string)
  {
    |id| >= 2 && id[..2] == "d_"
  }

  class ChatroomCtrl {
    /**
     * `$sessionStorage.currentUser.id`: None when nobody has logged in in
     * this session (the chat page was opened directly), so that reading
     * `currentUser.id` throws.
     */
    const currentUserId: Option<string>
    /** `$scope.currentConversationID`; None is `null`. */
    var currentConversationId: Option<string>
    /** Every request the controller has issued, oldest first. */
    var requests: seq<Request>

    /** An open conversation is always a two-party one, so its id is never empty. */
    ghost predicate Valid()
      reads this`currentConversationId
    {
      currentConversationId.Some? ==> IsDirectId(currentConversationId.value)
    }

    /** Starting the controller: no conversation open, the friend list requested. */
    constructor (userId: Option<string>)
      ensures Valid()
      ensures currentUserId == userId
      ensures currentConversationId == None
      ensures requests == [FetchFriends]
    {
      currentUserId := userId;
      currentConversationId := None;
      requests := [FetchFriends];
    }

    /**
     * Opens the direct conversation between the current user and `friendId`
     * and asks for its history. The id is the one CreateConversationId gives
     * for the two users, in either order, so both sides of a chat open the
     * same conversation. Without a logged-in user the handler throws before
     * changing anything; `ok` is false exactly then.
     */
    method StartChattingWithFriend(friendId: string) returns (ok: bool)
      requires Valid()
      modifies this`currentConversationId, this`requests
      ensures Valid()
      ensures ok <==> currentUserId.Some?
      ensures !ok ==> currentConversationId == old(currentConversationId) && requests == old(requests)
      ensures ok ==> currentConversationId.Some?
      ensures ok ==> ConversationId.CreateConversationId([currentUserId.value, friendId]) == Success(currentConversationId.value)
      ensures ok ==> ConversationId.CreateConversationId([friendId, currentUserId.value]) == Success(currentConversationId.value)
      ensures ok ==> requests == old(requests) + [FetchHistory(currentConversationId.value)]
    {
      if currentUserId.None? {
        return false;
      }
      var me := currentUserId.value;
      var created := ConversationId.CreateConversationId([me, friendId]);
      ConversationId.CreateDirect(me, friendId);
      var id := created.value;
      currentConversationId := Some(id);
      requests := requests + [FetchHistory(id)];
      ok := true;
    }

    /**
     * Posts `message` to the open conversation. Nothing is sent when no
     * conversation is open (the id is null or, being falsy in JavaScript,
     * empty) or when the message is empty.
     */
    method SendChatMessage(message: string)
      requires Valid()
      modifies this`requests
      ensures Valid()
      ensures old(currentConversationId.None? || currentConversationId.value == "" || message == "") ==>
                requests == old(requests)
      ensures old(currentConversationId.Some? && currentConversationId.value != "" && message != "") ==>
                requests == old(requests) + [PostMessage(ChatsPath + currentConversationId.value, message)]
    {
      if currentConversationId.None? || currentConversationId.value == "" {
        return;
      }
      if message == "" {
        return;
      }
      requests := requests + [PostMessage(ChatsPath + currentConversationId.value, message)];
    }

    /** In a valid controller the only "no conversation" case is null. */
    lemma OpenIdIsNeverEmpty()
      requires Valid()
      ensures currentConversationId.None? || currentConversationId.value != ""
    {
    }
  }
}
