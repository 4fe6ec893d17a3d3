/** The chat repository and service as they run on their tables. */
module ChatService {
  import opened Models
  import opened Chat

  /** Reverse a slice in place, swapping from both ends. */
  method ReverseInPlace<T>(msgs: array<T>)
    modifies msgs
    ensures msgs[..] == Reversed(old(msgs[..]))
  {
    var i, j := 0, msgs.Length - 1;
    while i < j
      invariant 0 <= i <= j + 1 && i + j == msgs.Length - 1
      invariant forall k :: 0 <= k < i || j < k < msgs.Length ==> msgs[k] == old(msgs[msgs.Length - 1 - k])
      invariant forall k :: i <= k <= j ==> msgs[k] == old(msgs[k])
    {
      msgs[i], msgs[j] := msgs[j], msgs[i];
      i, j := i + 1, j - 1;
    }
  }

  class Repository {
    var users: set<Id>
    var conversations: seq<Conversation>
    var messages: seq<Message>

    constructor ()
      ensures View() == Chats({}, [], []) && Inv(View())
    {
      users, conversations, messages := {}, [], [];
    }

    function View(): Chats
      reads this
    {
      Chats(users, conversations, messages)
    }

    method GetOrCreate(me: Id, other: Id) returns (id: nat)
      modifies this`conversations
      ensures (View(), id) == Chat.GetOrCreate(old(View()), me, other)
    {
      var a, b := me, other;
      if a > b {
        a, b := b, a;
      }
      id := Find(conversations, Conversation(a, b));
      if id < |conversations| {
        return;
      }
      conversations := conversations + [Conversation(a, b)];
    }

    method MarkRead(conversation: nat, user: Id, fails: bool)
      modifies this`messages
      ensures messages == if fails then old(messages) else Chat.MarkRead(old(messages), conversation, user)
    {
      if fails {
        return;
      }
      var rows := messages;
      messages := seq(|rows|, i requires 0 <= i < |rows| =>
        if rows[i].conversation == conversation && rows[i].sender != user && !rows[i].read
        then rows[i].(read := true) else rows[i]);
    }

    /** The newest messages of a conversation, turned around to ascending order. */
    method Messages(conversation: nat, limit: nat) returns (shown: seq<Message>)
      ensures var thread := Thread(messages, conversation);
              shown == thread[|thread| - Min(|thread|, limit)..]
    {
      var rows := Newest(messages, conversation, limit);
      var msgs := new Message[|rows|](i requires 0 <= i < |rows| => rows[i]);
      assert msgs[..] == rows;
      ReverseInPlace(msgs);
      shown := msgs[..];
      ShownIsEndOfThread(messages, conversation, limit);
    }

    /** The badge, which is the sum of the unread counts in the user's list of conversations. */
    method Total(user: Id) returns (n: nat)
      ensures n == TotalUnread(View(), user)
      ensures n == SumOfCounts(conversations, messages, user, |conversations|)
    {
      n := TotalUnread(View(), user);
      BadgeIsSumOfList(View(), user);
    }
  }

  /** The conversation exists, and the user is one of its two participants. */
  ghost predicate IsMember(conversations: seq<Conversation>, conversation: nat, user: Id) {
    conversation < |conversations| && user in {conversations[conversation].a, conversations[conversation].b}
  }

  class Service {
    const repo: Repository

    constructor (repo: Repository)
      ensures this.repo == repo
    {
      this.repo := repo;
    }

    method Start(me: Id, other: Id) returns (id: Option<nat>)
      modifies repo
      ensures repo.View() == Apply(old(repo.View()), Act.Start(me, other))
      ensures id == if other in old(repo.users) then Some(Chat.GetOrCreate(old(repo.View()), me, other).1) else None
      ensures repo.users == old(repo.users) && repo.messages == old(repo.messages)
      ensures id.None? ==> other !in old(repo.users) && repo.conversations == old(repo.conversations)
      ensures id.Some? ==>
                && other in old(repo.users) && id.value < |repo.conversations|
                && {repo.conversations[id.value].a, repo.conversations[id.value].b} == {me, other}
                && (repo.conversations == old(repo.conversations)
                    || (id.value == |old(repo.conversations)|
                        && repo.conversations[..id.value] == old(repo.conversations)
                        && |repo.conversations| == id.value + 1))
      ensures Inv(old(repo.View())) ==> Inv(repo.View())
    {
      ghost var before := repo.View();
      if other !in repo.users {
        return None;
      }
      var k := repo.GetOrCreate(me, other);
      id := Some(k);
      if Inv(before) { ApplyInv(before, Act.Start(me, other)); }
    }

    method Messages(conversation: nat, user: Id, limit: nat, markFails: bool) returns (shown: Option<seq<Message>>)
      modifies repo
      ensures repo.View() == Apply(old(repo.View()), Act.Open(conversation, user, markFails))
      ensures shown == if Participates(old(repo.View()), conversation, user)
                       then Some(Reversed(Newest(repo.messages, conversation, limit))) else None
      ensures shown.Some? <==> IsMember(repo.conversations, conversation, user)
      ensures repo.users == old(repo.users) && repo.conversations == old(repo.conversations)
      ensures |repo.messages| == |old(repo.messages)|
      ensures forall i :: 0 <= i < |repo.messages| ==>
                var m := old(repo.messages)[i];
                repo.messages[i] ==
                Message(m.conversation, m.sender, m.body, m.sentAt,
                        m.read || (shown.Some? && !markFails && m.conversation == conversation && m.sender != user))
      ensures Inv(old(repo.View())) ==> Inv(repo.View())
    {
      ghost var before := repo.View();
      if conversation >= |repo.conversations| || !repo.conversations[conversation].Has(user) {
        return None;
      }
      repo.MarkRead(conversation, user, markFails);
      var msgs := repo.Messages(conversation, limit);
      ShownIsEndOfThread(repo.messages, conversation, limit);
      shown := Some(msgs);
      if Inv(before) { ApplyInv(before, Act.Open(conversation, user, markFails)); }
    }

    method Send(conversation: nat, sender: Id, body: string, at: Time) returns (outcome: Outcome)
      modifies repo
      ensures repo.View() == Apply(old(repo.View()), Act.Send(conversation, sender, body, at))
      ensures outcome == if !Participates(old(repo.View()), conversation, sender) then NotFound
                         else if !BodyAccepted(body) then Invalid else Done
      ensures outcome == NotFound <==> !IsMember(old(repo.conversations), conversation, sender)
      ensures outcome == Done <==> IsMember(old(repo.conversations), conversation, sender) && 1 <= |body| <= 2000
      ensures repo.users == old(repo.users) && repo.conversations == old(repo.conversations)
      ensures repo.messages == old(repo.messages)
                               + if outcome == Done then [Message(conversation, sender, body, at, false)] else []
      ensures Inv(old(repo.View())) ==> Inv(repo.View())
    {
      ghost var before := repo.View();
      if conversation >= |repo.conversations| || !repo.conversations[conversation].Has(sender) {
        return NotFound;
      }
      if body == "" || |body| > MAX_BODY {
        return Invalid;
      }
      var m := Message(conversation, sender, body, at, false);
      repo.messages := repo.messages + [m];
      outcome := Done;
      if Inv(before) { ApplyInv(before, Act.Send(conversation, sender, body, at)); }
    }
  }
}
