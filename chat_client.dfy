/**
 * The chat page's component state and the handlers that change it: typing
 * into the two inputs, joining, sending, and one tick of the polling
 * refresh. Each HTTP request is one atomic call on the server's store; an
 * axios call that fails is modelled by a boolean argument saying whether
 * the request went through, since a rejected `await` skips everything
 * after it in the handler and a failed `then` never runs.
 */
module ChatClient {
  import opened JsText
  import opened ChatServer

  class Client {
    /** The one backend the page talks to (its URL is fixed). */
    const server: Store

    var username: string
    var entered: bool
    var users: seq<string>
    var message: string
    var messages: seq<Message>

    /** The page as first rendered: nothing typed, not joined, empty lists. */
    constructor (server: Store)
      ensures this.server == server
      ensures username == "" && !entered && users == []
      ensures message == "" && messages == []
    {
      this.server := server;
      username := "";
      entered := false;
      users := [];
      message := "";
      messages := [];
    }

    /** The username field's onChange: it stores what was typed. The field
        is on screen only before joining. */
    method TypeUsername(text: string)
      requires !entered
      modifies this`username
      ensures username == text
    {
      username := text;
    }

    /** The message field's onChange: it stores what was typed. The field
        is on screen only after joining. */
    method TypeMessage(text: string)
      requires entered
      modifies this`message
      ensures message == text
    {
      message := text;
    }

    /** handleJoin: a name that trims to "" (a blank one, by
        TrimIsEmptyIffBlank) does nothing; otherwise the name is posted and,
        once the post succeeds, the page switches to the chat view. The Join
        button exists only before joining. Nothing ever switches back: no
        method other than this one has `entered` in its frame. */
    method HandleJoin(delivered: bool)
      requires !entered
      requires server.Valid()
      modifies this`entered, server
      ensures server.Valid()
      ensures Trim(username) == [] || !delivered ==>
                entered == old(entered) && unchanged(server)
      ensures Trim(username) != [] && delivered ==>
                entered && username in server.users &&
                server.users == Joined(old(server.users), username) &&
                server.messages == old(server.messages)
    {
      if Trim(username) != [] && delivered {
        server.JoinUser(username);
        entered := true;
      }
    }

    /** handleSend: a message that trims to "" is neither posted nor
        cleared; otherwise
        it is posted under the current username, stamped with the server's
        clock `now`, and the input is cleared once the post succeeds. The Send
        button and the Enter key handler exist only after joining. */
    method HandleSend(delivered: bool, now: string)
      requires entered
      requires server.Valid()
      modifies this`message, server
      ensures server.Valid()
      ensures Trim(old(message)) == [] || !delivered ==>
                message == old(message) && unchanged(server)
      ensures Trim(old(message)) != [] && delivered ==>
                message == "" &&
                server.messages == old(server.messages) + [Message(username, old(message), now)] &&
                server.users == old(server.users)
    {
      if Trim(message) != [] {
        if delivered {
          var _ := server.PostMessage(username, message, now);
          message := "";
        }
      }
    }

    /** One tick of the polling interval, which exists only after joining:
        each of the two fetches that succeeds replaces its local list with
        the server's snapshot as a whole. */
    method Refresh(messagesFetched: bool, usersFetched: bool)
      requires entered
      requires server.Valid()
      modifies this`messages, this`users
      ensures usersFetched ==> NoDuplicates(users)
      ensures messages == (if messagesFetched then server.messages else old(messages))
      ensures users == (if usersFetched then server.users else old(users))
    {
      if messagesFetched {
        var snapshot := server.ListMessages();
        messages := snapshot;
      }
      if usersFetched {
        var snapshot := server.ListUsers();
        users := snapshot;
      }
    }
  }
}
