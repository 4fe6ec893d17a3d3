/** One-to-one conversations and the accounting of unread messages. */
module Chat {
  import opened Models

  /** A conversation's participants, the smaller id first. Its key is its position in the table. */
  datatype Conversation = Conversation(a: Id, b: Id)
  {
    predicate Has(user: Id) { user == a || user == b }
  }

  datatype Message = Message(conversation: nat, sender: Id, body: string, sentAt: Time, read: bool)

  /** The tables; messages in the order of their creation. */
  datatype Chats = Chats(users: set<Id>, conversations: seq<Conversation>, messages: seq<Message>)

  datatype Act =
    | Register(user: Id)
    | Start(me: Id, other: Id)
    | Send(conversation: nat, sender: Id, body: string, at: Time)
    | Open(conversation: nat, user: Id, markFails: bool)

  // ----- Starting a conversation -----

  function Pair(x: Id, y: Id): Conversation {
    if x > y then Conversation(y, x) else Conversation(x, y)
  }

  /** The position of a conversation in the table, or the table's length. */
  function Find(conversations: seq<Conversation>, c: Conversation): (k: nat)
    ensures k <= |conversations|
    ensures k < |conversations| ==> conversations[k] == c
    ensures forall i :: 0 <= i < k ==> conversations[i] != c
  {
    if conversations == [] || conversations[0] == c then 0 else 1 + Find(conversations[1..], c)
  }

  function GetOrCreate(s: Chats, me: Id, other: Id): (Chats, nat) {
    var k := Find(s.conversations, Pair(me, other));
    if k < |s.conversations| then (s, k) else (s.(conversations := s.conversations + [Pair(me, other)]), k)
  }

  // ----- Sending and reading -----

  predicate Participates(s: Chats, conversation: nat, user: Id) {
    conversation < |s.conversations| && s.conversations[conversation].Has(user)
  }

  const MAX_BODY := 2000

  /** The length check on a body from which the surrounding space has been cut. */
  predicate BodyAccepted(body: string) { body != "" && |body| <= MAX_BODY }

  function Append(s: Chats, m: Message): Chats {
    s.(messages := s.messages + [m])
  }

  /** The row update that marks a user's incoming messages in a conversation as read. */
  function MarkedRead(m: Message, conversation: nat, user: Id): Message {
    if m.conversation == conversation && m.sender != user then m.(read := true) else m
  }

  function MarkRead(messages: seq<Message>, conversation: nat, user: Id): (after: seq<Message>)
    ensures |after| == |messages|
    ensures forall i :: 0 <= i < |messages| ==> after[i] == MarkedRead(messages[i], conversation, user)
  {
    if messages == [] then []
    else
      var last := |messages| - 1;
      MarkRead(messages[..last], conversation, user) + [MarkedRead(messages[last], conversation, user)]
  }

  function Apply(s: Chats, act: Act): Chats {
    match act
    case Register(user) => s.(users := s.users + {user})
    case Start(me, other) => if other in s.users then GetOrCreate(s, me, other).0 else s
    case Send(c, sender, body, at) =>
      if Participates(s, c, sender) && BodyAccepted(body) then Append(s, Message(c, sender, body, at, false)) else s
    case Open(c, user, markFails) =>
      if Participates(s, c, user) && !markFails then s.(messages := MarkRead(s.messages, c, user)) else s
  }

  /** The tables after the first `n` acts. */
  function State(acts: seq<Act>, n: nat): Chats
    requires n <= |acts|
  {
    if n == 0 then Chats({}, [], []) else Apply(State(acts, n - 1), acts[n - 1])
  }

  // ----- Every reachable state -----

  ghost predicate Inv(s: Chats) {
    && (forall i :: 0 <= i < |s.conversations| ==> s.conversations[i].a <= s.conversations[i].b)
    && (forall i, j :: 0 <= i < j < |s.conversations| ==> s.conversations[i] != s.conversations[j])
    && (forall k :: 0 <= k < |s.messages| ==> Participates(s, s.messages[k].conversation, s.messages[k].sender))
  }

  lemma ApplyInv(s: Chats, act: Act)
    requires Inv(s)
    ensures Inv(Apply(s, act))
  {
  }

  lemma {:induction false} RunInv(acts: seq<Act>, n: nat)
    requires n <= |acts|
    ensures Inv(State(acts, n))
  {
    if n == 0 {
    } else {
      RunInv(acts, n - 1);
      ApplyInv(State(acts, n - 1), acts[n - 1]);
    }
  }

  /** In every reachable state two users share at most one conversation, and either of them who starts it, again or for
      the first time, gets the same one. */
  lemma OneConversation(acts: seq<Act>, n: nat, x: Id, y: Id)
    requires n <= |acts|
    ensures var s := State(acts, n);
            && (forall i, j | 0 <= i < |s.conversations| && 0 <= j < |s.conversations| ::
                  {s.conversations[i].a, s.conversations[i].b} == {s.conversations[j].a, s.conversations[j].b} ==> i == j)
            && GetOrCreate(s, x, y) == GetOrCreate(s, y, x)
            && var (after, k) := GetOrCreate(s, x, y);
               Participates(after, k, x) && Participates(after, k, y) && GetOrCreate(after, y, x) == (after, k)
  {
    RunInv(acts, n);
    var s := State(acts, n);
    hide State;
    forall i, j | 0 <= i < |s.conversations| && 0 <= j < |s.conversations|
                  && {s.conversations[i].a, s.conversations[i].b} == {s.conversations[j].a, s.conversations[j].b}
      ensures i == j
    {
      SamePair(s.conversations[i], s.conversations[j]);
    }
    var (after, k) := GetOrCreate(s, x, y);
    assert after.conversations[k] == Pair(x, y);
  }

  lemma SamePair(c: Conversation, d: Conversation)
    requires c.a <= c.b && d.a <= d.b && {c.a, c.b} == {d.a, d.b}
    ensures c == d
  {
    assert c.a in {d.a, d.b} && c.b in {d.a, d.b} && d.a in {c.a, c.b} && d.b in {c.a, c.b};
  }

  // ----- Unread messages -----

  /** The message counts as unread for the user, wherever it is. */
  predicate UnreadFor(m: Message, user: Id) { m.sender != user && !m.read }

  /** A conversation's unread count, as the list of conversations shows it. */
  function UnreadIn(messages: seq<Message>, conversation: nat, user: Id): nat {
    if messages == [] then 0
    else
      var m := messages[|messages| - 1];
      UnreadIn(messages[..|messages| - 1], conversation, user)
      + if m.conversation == conversation && UnreadFor(m, user) then 1 else 0
  }

  /** The header's badge: unread messages in all of the user's conversations. */
  function TotalUnread(s: Chats, user: Id): nat {
    TotalOf(s.conversations, s.messages, user)
  }

  function TotalOf(conversations: seq<Conversation>, messages: seq<Message>, user: Id): nat {
    if messages == [] then 0
    else
      var m := messages[|messages| - 1];
      TotalOf(conversations, messages[..|messages| - 1], user)
      + if m.conversation < |conversations| && conversations[m.conversation].Has(user) && UnreadFor(m, user)
        then 1 else 0
  }

  /** The unread counts of the user's conversations among the first `k`, added up. */
  function SumOfCounts(conversations: seq<Conversation>, messages: seq<Message>, user: Id, k: nat): nat
    requires k <= |conversations|
  {
    if k == 0 then 0
    else SumOfCounts(conversations, messages, user, k - 1)
         + if conversations[k - 1].Has(user) then UnreadIn(messages, k - 1, user) else 0
  }

  lemma {:induction false} SumWithOneMore(conversations: seq<Conversation>, messages: seq<Message>, user: Id, k: nat)
    requires k <= |conversations| && messages != []
    ensures var m := messages[|messages| - 1];
            SumOfCounts(conversations, messages, user, k) ==
            SumOfCounts(conversations, messages[..|messages| - 1], user, k)
            + if m.conversation < k && conversations[m.conversation].Has(user) && UnreadFor(m, user) then 1 else 0
  {
    if k == 0 {
    } else {
      SumWithOneMore(conversations, messages, user, k - 1);
    }
  }

  lemma {:induction false} SumWithNone(conversations: seq<Conversation>, user: Id, k: nat)
    requires k <= |conversations|
    ensures SumOfCounts(conversations, [], user, k) == 0
  {
    if k == 0 {
    } else {
      SumWithNone(conversations, user, k - 1);
    }
  }

  lemma {:induction false} TotalIsSum(conversations: seq<Conversation>, messages: seq<Message>, user: Id)
    ensures TotalOf(conversations, messages, user)
            == SumOfCounts(conversations, messages, user, |conversations|)
    decreases |messages|
  {
    if messages == [] {
      SumWithNone(conversations, user, |conversations|);
    } else {
      TotalIsSum(conversations, messages[..|messages| - 1], user);
      SumWithOneMore(conversations, messages, user, |conversations|);
    }
  }

  /** The badge is the sum of the counts in the list. */
  lemma BadgeIsSumOfList(s: Chats, user: Id)
    ensures TotalUnread(s, user) == SumOfCounts(s.conversations, s.messages, user, |s.conversations|)
  {
    TotalIsSum(s.conversations, s.messages, user);
  }

  /** A message raises by one the total of every participant except its sender, and nobody else's: in a conversation of
      two people, that of the other one. */
  lemma SendRaisesOther(s: Chats, c: nat, sender: Id, body: string, at: Time, user: Id)
    requires Participates(s, c, sender) && BodyAccepted(body)
    ensures TotalUnread(Apply(s, Send(c, sender, body, at)), user) ==
            TotalUnread(s, user) + if user != sender && s.conversations[c].Has(user) then 1 else 0
  {
    var after := Apply(s, Send(c, sender, body, at));
    assert after.messages[..|after.messages| - 1] == s.messages;
  }

  lemma {:induction false} MarkReadEffect(conversations: seq<Conversation>, messages: seq<Message>, c: nat, reader: Id,
                                          user: Id)
    requires c < |conversations| && conversations[c].Has(reader)
    requires forall k :: 0 <= k < |messages| && messages[k].conversation == c ==> conversations[c].Has(messages[k].sender)
    ensures var after := MarkRead(messages, c, reader);
            && TotalOf(conversations, after, user) + (if user == reader then UnreadIn(messages, c, reader) else 0)
               == TotalOf(conversations, messages, user)
            && UnreadIn(after, c, reader) == 0
    decreases |messages|
  {
    if messages == [] {
    } else {
      var last := |messages| - 1;
      MarkReadEffect(conversations, messages[..last], c, reader, user);
      assert MarkRead(messages, c, reader)[..last] == MarkRead(messages[..last], c, reader);
    }
  }

  /** Opening a conversation clears exactly its share of the reader's total, and changes nobody else's. */
  lemma OpenClearsShare(acts: seq<Act>, n: nat, c: nat, reader: Id, user: Id)
    requires n <= |acts| && Participates(State(acts, n), c, reader)
    ensures var s := State(acts, n);
            var after := Apply(s, Open(c, reader, false));
            && UnreadIn(after.messages, c, reader) == 0
            && TotalUnread(after, reader) == TotalUnread(s, reader) - UnreadIn(s.messages, c, reader)
            && (user != reader ==> TotalUnread(after, user) == TotalUnread(s, user))
  {
    RunInv(acts, n);
    var s := State(acts, n);
    MarkReadEffect(s.conversations, s.messages, c, reader, reader);
    MarkReadEffect(s.conversations, s.messages, c, reader, user);
  }

  lemma {:induction false} TotalWithMoreConversations(conversations: seq<Conversation>, extra: Conversation,
                                                      messages: seq<Message>, user: Id)
    requires forall k :: 0 <= k < |messages| ==> messages[k].conversation < |conversations|
    ensures TotalOf(conversations + [extra], messages, user) == TotalOf(conversations, messages, user)
    decreases |messages|
  {
    if messages == [] {
    } else {
      TotalWithMoreConversations(conversations, extra, messages[..|messages| - 1], user);
    }
  }

  /** Starting a conversation leaves everybody's total alone. */
  lemma StartKeepsTotals(acts: seq<Act>, n: nat, me: Id, other: Id, user: Id)
    requires n <= |acts|
    ensures TotalUnread(Apply(State(acts, n), Start(me, other)), user) == TotalUnread(State(acts, n), user)
  {
    RunInv(acts, n);
    var s := State(acts, n);
    TotalWithMoreConversations(s.conversations, Pair(me, other), s.messages, user);
  }

  // ----- The thread that is shown -----

  /** A conversation's messages, oldest first. */
  function Thread(messages: seq<Message>, conversation: nat): seq<Message> {
    if messages == [] then []
    else
      var m := messages[|messages| - 1];
      var before := Thread(messages[..|messages| - 1], conversation);
      if m.conversation == conversation then before + [m] else before
  }

  function Reversed<T>(s: seq<T>): (r: seq<T>)
    ensures |r| == |s|
    ensures forall i :: 0 <= i < |s| ==> r[i] == s[|s| - 1 - i]
  {
    seq(|s|, i requires 0 <= i < |s| => s[|s| - 1 - i])
  }

  function Min(x: nat, y: nat): nat { if x < y then x else y }

  /** `ORDER BY created_at DESC LIMIT limit`. */
  function Newest(messages: seq<Message>, conversation: nat, limit: nat): seq<Message> {
    var thread := Thread(messages, conversation);
    Reversed(thread)[..Min(|thread|, limit)]
  }

  /** Reversed, the newest messages are the end of the thread in its own order. */
  lemma ShownIsEndOfThread(messages: seq<Message>, conversation: nat, limit: nat)
    ensures var thread := Thread(messages, conversation);
            Reversed(Newest(messages, conversation, limit)) == thread[|thread| - Min(|thread|, limit)..]
  {
  }

  /** Messages were created one after another. */
  ghost predicate Chronological(messages: seq<Message>) {
    forall i, j :: 0 <= i < j < |messages| ==> messages[i].sentAt < messages[j].sentAt
  }

  lemma {:induction false} ThreadIsExact(messages: seq<Message>, conversation: nat)
    requires Chronological(messages)
    ensures Chronological(Thread(messages, conversation))
    ensures forall m :: m in Thread(messages, conversation) <==> m in messages && m.conversation == conversation
    decreases |messages|
  {
    if messages == [] {
    } else {
      var init, last := messages[..|messages| - 1], messages[|messages| - 1];
      ThreadIsExact(init, conversation);
      assert messages == init + [last];
      forall m | m in init ensures m.sentAt < last.sentAt {
        var k :| 0 <= k < |init| && init[k] == m;
        assert messages[k].sentAt < messages[|init|].sentAt;
      }
    }
  }

  /** What a reader sees is in ascending order, belongs to the conversation, is as much as the limit allows, and no
      message that is left out is newer than one that is shown. */
  lemma ShownAreTheNewest(messages: seq<Message>, conversation: nat, limit: nat)
    requires Chronological(messages)
    ensures var shown := Reversed(Newest(messages, conversation, limit));
            && Chronological(shown)
            && |shown| == Min(|Thread(messages, conversation)|, limit)
            && (forall m :: m in shown ==> m in messages && m.conversation == conversation)
            && (forall m, o :: m in messages && m.conversation == conversation && m !in shown && o in shown ==>
                  m.sentAt < o.sentAt)
  {
    ThreadIsExact(messages, conversation);
    ShownIsEndOfThread(messages, conversation, limit);
    hide Thread, Newest, Reversed;
    var thread := Thread(messages, conversation);
    SuffixIsNewest(thread, |thread| - Min(|thread|, limit));
  }

  lemma SuffixIsNewest(thread: seq<Message>, from: nat)
    requires Chronological(thread) && from <= |thread|
    ensures Chronological(thread[from..])
    ensures forall m :: m in thread[from..] ==> m in thread
    ensures forall m, o :: m in thread && m !in thread[from..] && o in thread[from..] ==> m.sentAt < o.sentAt
  {
    var shown := thread[from..];
    assert forall k :: from <= k < |thread| ==> shown[k - from] == thread[k];
    forall m, o | m in thread && m !in shown && o in shown
      ensures m.sentAt < o.sentAt
    {
      var i :| 0 <= i < |thread| && thread[i] == m;
      var j :| 0 <= j < |shown| && shown[j] == o;
      assert i < from;
      assert thread[from + j] == o;
    }
  }
}
