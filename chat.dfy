/** The package chat (src/components/chat/Chat.tsx): the message list kept up to date
    from inserts and realtime events, the ids marked read, and the send handler. The
    database calls are parameters: the row the insert returns, and the ids sent to the
    mark-read update. */
module Chat {
  import opened JsBuiltins
  import opened Domain

  // ---------------------------------------------------------------- upsert

  /** Whether some message in `ms` has the id `id`. */
  predicate HasId(ms: seq<Message>, id: string) {
    exists i | 0 <= i < |ms| :: ms[i].id == id
  }

  /** The list after `addOrUpdateMessage(msg)`, defined message by message: the first
      message with the same id is replaced, and when there is none `msg` goes last. */
  function Upsert(ms: seq<Message>, msg: Message): (r: seq<Message>)
    ensures HasId(ms, msg.id) ==> |r| == |ms|
    ensures !HasId(ms, msg.id) ==> |r| == |ms| + 1
  {
    if ms == [] then [msg]
    else if ms[0].id == msg.id then [msg] + ms[1..]
    else
      assert HasId(ms, msg.id) ==> HasId(ms[1..], msg.id) by {
        if HasId(ms, msg.id) {
          var i :| 0 <= i < |ms| && ms[i].id == msg.id;
          assert ms[1..][i - 1].id == msg.id;
        }
      }
      [ms[0]] + Upsert(ms[1..], msg)
  }

  /** Without a message of that id, the new one is appended. */
  lemma {:induction false} UpsertAppends(ms: seq<Message>, msg: Message)
    requires !HasId(ms, msg.id)
    ensures Upsert(ms, msg) == ms + [msg]
  {
    if ms != [] {
      assert forall i | 0 <= i < |ms[1..]| :: ms[1..][i] == ms[i + 1];
      UpsertAppends(ms[1..], msg);
    }
  }

  /** With one, the first such message is replaced in place and every other position
      keeps its message. */
  lemma {:induction false} UpsertReplaces(ms: seq<Message>, msg: Message, k: nat)
    requires k < |ms| && ms[k].id == msg.id
    requires forall i | 0 <= i < k :: ms[i].id != msg.id
    ensures Upsert(ms, msg) == ms[k := msg]
  {
    if k > 0 {
      UpsertReplaces(ms[1..], msg, k - 1);
      assert [ms[0]] + ms[1..][k - 1 := msg] == ms[k := msg];
    }
  }

  /** After the upsert the list holds the message. */
  lemma UpsertContains(ms: seq<Message>, msg: Message)
    ensures msg in Upsert(ms, msg)
  {
    if HasId(ms, msg.id) {
      var k := FirstWithId(ms, msg.id);
      UpsertReplaces(ms, msg, k);
      assert Upsert(ms, msg)[k] == msg;
    } else {
      UpsertAppends(ms, msg);
      assert Upsert(ms, msg)[|ms|] == msg;
    }
  }

  /** Delivering the same message twice, as the send handler and the realtime insert
      event both do, leaves the list as one delivery does. */
  lemma UpsertIdempotent(ms: seq<Message>, msg: Message)
    ensures Upsert(Upsert(ms, msg), msg) == Upsert(ms, msg)
  {
    var once := Upsert(ms, msg);
    var k := if HasId(ms, msg.id) then FirstWithId(ms, msg.id) else |ms|;
    if HasId(ms, msg.id) {
      UpsertReplaces(ms, msg, k);
    } else {
      UpsertAppends(ms, msg);
    }
    assert once[k] == msg;
    assert forall i | 0 <= i < k :: once[i] == ms[i];
    UpsertReplaces(once, msg, k);
    assert once[k := msg] == once;
  }

  /** The index of the first message with id `id`. */
  function FirstWithId(ms: seq<Message>, id: string): (k: nat)
    requires HasId(ms, id)
    ensures k < |ms| && ms[k].id == id
    ensures forall i | 0 <= i < k :: ms[i].id != id
  {
    if ms[0].id == id then 0
    else
      assert HasId(ms[1..], id) by {
        var i :| 0 <= i < |ms| && ms[i].id == id;
        assert ms[1..][i - 1].id == id;
      }
      1 + FirstWithId(ms[1..], id)
  }

  // ---------------------------------------------------------------- mark read

  /** The ids the mark-read effect sends: those of the messages not sent by the current
      user and not yet read, in list order. */
  function UnreadIds(ms: seq<Message>, userId: string): (ids: seq<string>)
    ensures |ids| <= |ms|
  {
    if ms == [] then []
    else (if ms[0].senderId != userId && !ms[0].isRead then [ms[0].id] else []) + UnreadIds(ms[1..], userId)
  }

  /** The selection keeps list order: it is taken piece by piece. */
  lemma {:induction false} UnreadIdsAppend(a: seq<Message>, b: seq<Message>, userId: string)
    ensures UnreadIds(a + b, userId) == UnreadIds(a, userId) + UnreadIds(b, userId)
  {
    if a == [] {
      assert a + b == b;
    } else {
      assert (a + b)[1..] == a[1..] + b;
      UnreadIdsAppend(a[1..], b, userId);
    }
  }

  /** An id is selected exactly when some incoming, unread message carries it. */
  lemma {:induction false} UnreadIdsMembers(ms: seq<Message>, userId: string, id: string)
    ensures id in UnreadIds(ms, userId)
        <==> exists i | 0 <= i < |ms| :: ms[i].id == id && ms[i].senderId != userId && !ms[i].isRead
  {
    if ms != [] {
      UnreadIdsMembers(ms[1..], userId, id);
      if exists i | 0 <= i < |ms[1..]| :: ms[1..][i].id == id && ms[1..][i].senderId != userId && !ms[1..][i].isRead {
        var i :| 0 <= i < |ms[1..]| && ms[1..][i].id == id && ms[1..][i].senderId != userId && !ms[1..][i].isRead;
        assert ms[i + 1] == ms[1..][i];
      }
      if exists i | 0 <= i < |ms| :: ms[i].id == id && ms[i].senderId != userId && !ms[i].isRead {
        var i :| 0 <= i < |ms| && ms[i].id == id && ms[i].senderId != userId && !ms[i].isRead;
        if i > 0 {
          assert ms[1..][i - 1] == ms[i];
        }
      }
    }
  }

  /** `markUnread`: no update without a signed-in user, with no messages, or when
      nothing qualifies; otherwise one update for exactly the selected ids. */
  function MarkReadRequest(userId: Option<string>, ms: seq<Message>): (r: Option<seq<string>>)
    ensures r.Some? ==> userId.Some? && r.value != [] && r.value == UnreadIds(ms, userId.value)
    ensures r.None? <==> userId.None? || userId.value == "" || UnreadIds(ms, userId.value) == []
  {
    if userId.None? || userId.value == "" || ms == [] then None
    else
      var ids := UnreadIds(ms, userId.value);
      if ids == [] then None else Some(ids)
  }

  // ---------------------------------------------------------------- sending

  /** The signed-in user: an id and the role from the account metadata, if any. */
  datatype User = User(id: string, role: Option<string>)

  /** `user.user_metadata?.role || "client"`: a missing or empty role reads "client". */
  function SenderRole(u: User): (r: string)
    ensures r != ""
    ensures u.role.Some? && u.role.value != "" ==> r == u.role.value
    ensures u.role.None? || u.role.value == "" ==> r == "client"
  {
    if u.role.Some? && u.role.value != "" then u.role.value else "client"
  }

  /** The row the send handler inserts. */
  datatype NewMessageRow = NewMessageRow(packageId: string, senderId: string, content: string, senderRole: string)

  /** The chat's state: its message list and the text being typed. */
  class ChatView {
    const packageId: string
    var messages: seq<Message>
    var newMessage: string

    constructor (packageId: string)
      ensures this.packageId == packageId && messages == [] && newMessage == ""
    {
      this.packageId := packageId;
      messages := [];
      newMessage := "";
    }

    /** `addOrUpdateMessage`: a `findIndex` over the current list, then an append or an
        assignment at the found index. */
    method AddOrUpdateMessage(msg: Message)
      modifies this`messages
      ensures messages == Upsert(old(messages), msg)
    {
      var prev := messages;
      var idx := 0;
      while idx < |prev| && prev[idx].id != msg.id
        invariant 0 <= idx <= |prev|
        invariant forall i | 0 <= i < idx :: prev[i].id != msg.id
      {
        idx := idx + 1;
      }
      if idx == |prev| {
        UpsertAppends(prev, msg);
        messages := prev + [msg];
      } else {
        UpsertReplaces(prev, msg, idx);
        messages := prev[idx := msg];
      }
    }

    /** `sendMessage`: nothing happens when the trimmed text is empty or nobody is
        signed in; otherwise the row carries the trimmed text and the sender's role, and
        when the insert returns a row the input is cleared and the row upserted. */
    method SendMessage(user: Option<User>, inserted: Option<Message>) returns (row: Option<NewMessageRow>)
      modifies this`messages, this`newMessage
      ensures Trim(old(newMessage)) == "" || user.None? ==>
        row == None && messages == old(messages) && newMessage == old(newMessage)
      ensures Trim(old(newMessage)) != "" && user.Some? ==>
        row == Some(NewMessageRow(packageId, user.value.id, Trim(old(newMessage)), SenderRole(user.value)))
      ensures Trim(old(newMessage)) != "" && user.Some? && inserted.Some? ==>
        newMessage == "" && messages == Upsert(old(messages), inserted.value)
      ensures Trim(old(newMessage)) != "" && user.Some? && inserted.None? ==>
        newMessage == old(newMessage) && messages == old(messages)
    {
      if Trim(newMessage) == "" || user.None? {
        return None;
      }
      row := Some(NewMessageRow(packageId, user.value.id, Trim(newMessage), SenderRole(user.value)));
      if inserted.Some? {
        newMessage := "";
        AddOrUpdateMessage(inserted.value);
      }
    }
  }
}
