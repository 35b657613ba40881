/** The chat directory: `chatService` over the `chats` table. */
module ChatService {

  import opened Wrappers
  import opened Schema
  import opened Seqs
  import opened Db
  import MessageService

  /** getOne: the first row of `WHERE id = ? LIMIT 1`, or null. */
  function GetOne(chats: seq<ChatRow>, id: Id): (r: Option<ChatRow>)
    ensures r.Some? ==> r.value in chats && r.value.id == id
    ensures r.None? <==> !HasChatId(chats, id)
  {
    var all := Filter(chats, (c: ChatRow) => c.id == id);
    var found := Limit(all, 1);
    if |found| > 0 then
      assert found[0] == all[0] && all[0] in all;
      Some(found[0])
    else
      assert !HasChatId(chats, id) by {
        forall i | 0 <= i < |chats| ensures !(chats[i].id == id) {
          assert chats[i] in chats && chats[i] !in all;
        }
      }
      None
  }

  /** With the primary key in force, getOne finds the one chat that has the id. */
  lemma GetOneFindsTheChat(chats: seq<ChatRow>, users: seq<UserRow>, c: ChatRow)
    requires ChatsValid(chats, users)
    requires c in chats
    ensures GetOne(chats, c.id) == Some(c)
  {
    var r := GetOne(chats, c.id);
    assert HasChatId(chats, c.id) by {
      var i :| 0 <= i < |chats| && chats[i] == c;
    }
    var i :| 0 <= i < |chats| && chats[i] == c;
    var j :| 0 <= j < |chats| && chats[j] == r.value;
    assert i == j;
  }

  predicate Involves(c: ChatRow, u: Id) {
    c.user1 == u || c.user2 == u
  }

  /** The four columns getUserChats selects. */
  datatype ChatHead = ChatHead(id: Id, user1: Id, user2: Id, updatedAt: Timestamp)

  function Head(c: ChatRow): ChatHead {
    ChatHead(c.id, c.user1, c.user2, c.updatedAt)
  }

  function Heads(cs: seq<ChatRow>): (r: seq<ChatHead>)
    ensures |r| == |cs| && forall i :: 0 <= i < |cs| ==> r[i] == Head(cs[i])
  {
    seq(|cs|, i requires 0 <= i < |cs| => Head(cs[i]))
  }

  /** ORDER BY updatedAt DESC holds of `hs`. */
  ghost predicate NewestFirst(hs: seq<ChatHead>) {
    forall i, j :: 0 <= i < j < |hs| ==> hs[i].updatedAt >= hs[j].updatedAt
  }

  function InsertNewestFirst(h: ChatHead, hs: seq<ChatHead>): seq<ChatHead>
    decreases |hs|
  {
    if hs == [] then [h]
    else if h.updatedAt >= hs[0].updatedAt then [h] + hs
    else [hs[0]] + InsertNewestFirst(h, hs[1..])
  }

  /** Insertion adds exactly `h`. */
  lemma {:induction false} InsertNewestFirstMultiset(h: ChatHead, hs: seq<ChatHead>)
    ensures multiset(InsertNewestFirst(h, hs)) == multiset(hs) + multiset{h}
    decreases |hs|
  {
    if hs != [] && h.updatedAt < hs[0].updatedAt {
      assert hs == [hs[0]] + hs[1..];
      InsertNewestFirstMultiset(h, hs[1..]);
    }
  }

  lemma NewestFirstTail(hs: seq<ChatHead>)
    requires hs != [] && NewestFirst(hs)
    ensures NewestFirst(hs[1..])
    ensures forall x :: x in hs[1..] ==> hs[0].updatedAt >= x.updatedAt
  {
    forall x | x in hs[1..] ensures hs[0].updatedAt >= x.updatedAt {
      var m :| 0 <= m < |hs[1..]| && hs[1..][m] == x;
      assert hs[m + 1] == x;
    }
    forall i, j | 0 <= i < j < |hs[1..]| ensures hs[1..][i].updatedAt >= hs[1..][j].updatedAt {
      assert hs[1..][i] == hs[i + 1] && hs[1..][j] == hs[j + 1];
    }
  }

  lemma NewestFirstCons(x: ChatHead, hs: seq<ChatHead>)
    requires NewestFirst(hs)
    requires forall y :: y in hs ==> x.updatedAt >= y.updatedAt
    ensures NewestFirst([x] + hs)
  {
    var r := [x] + hs;
    forall i, j | 0 <= i < j < |r| ensures r[i].updatedAt >= r[j].updatedAt {
      assert r[j] == hs[j - 1];
      if i > 0 { assert r[i] == hs[i - 1]; }
    }
  }

  /** Insertion into a newest-first sequence keeps it newest first. */
  lemma {:induction false} InsertNewestFirstSorted(h: ChatHead, hs: seq<ChatHead>)
    requires NewestFirst(hs)
    ensures NewestFirst(InsertNewestFirst(h, hs))
    decreases |hs|
  {
    if hs == [] {
    } else if h.updatedAt >= hs[0].updatedAt {
      NewestFirstTail(hs);
      NewestFirstCons(h, hs);
    } else {
      NewestFirstTail(hs);
      var rest := InsertNewestFirst(h, hs[1..]);
      InsertNewestFirstSorted(h, hs[1..]);
      InsertNewestFirstMultiset(h, hs[1..]);
      forall y | y in rest ensures hs[0].updatedAt >= y.updatedAt {
        assert y in multiset(rest);
        if y != h {
          assert y in multiset(hs[1..]);
        }
      }
      NewestFirstCons(hs[0], rest);
    }
  }

  /** One ordering the database may produce for ORDER BY updatedAt DESC
      (rows with equal timestamps keep no particular order in SQL). */
  function SortNewestFirst(hs: seq<ChatHead>): seq<ChatHead>
    decreases |hs|
  {
    if hs == [] then [] else InsertNewestFirst(hs[0], SortNewestFirst(hs[1..]))
  }

  /** The ordering is newest first and a permutation of its input. */
  lemma {:induction false} SortNewestFirstCorrect(hs: seq<ChatHead>)
    ensures NewestFirst(SortNewestFirst(hs))
    ensures multiset(SortNewestFirst(hs)) == multiset(hs)
    decreases |hs|
  {
    if hs != [] {
      assert hs == [hs[0]] + hs[1..];
      SortNewestFirstCorrect(hs[1..]);
      InsertNewestFirstSorted(hs[0], SortNewestFirst(hs[1..]));
      InsertNewestFirstMultiset(hs[0], SortNewestFirst(hs[1..]));
    }
  }

  /** The chats of `u`, as the rows the query's WHERE admits. */
  function ChatsOf(chats: seq<ChatRow>, u: Id): seq<ChatRow> {
    Filter(chats, (c: ChatRow) => Involves(c, u))
  }

  /** The first query of getUserChats: WHERE user1 = u OR user2 = u ORDER BY updatedAt DESC LIMIT 20. */
  function TopChats(chats: seq<ChatRow>, u: Id): (r: seq<ChatHead>)
    ensures |r| == if |ChatsOf(chats, u)| <= 20 then |ChatsOf(chats, u)| else 20
    ensures multiset(r) <= multiset(Heads(ChatsOf(chats, u)))
    ensures NewestFirst(r)
    ensures forall h :: h in r ==> h.user1 == u || h.user2 == u
    ensures forall h :: h in r ==> exists c :: c in chats && Involves(c, u) && Head(c) == h
  {
    var all := Heads(ChatsOf(chats, u));
    var sorted := SortNewestFirst(all);
    var r := Limit(sorted, 20);
    SortNewestFirstCorrect(all);
    assert |sorted| == |all| by {
      assert |multiset(sorted)| == |multiset(all)|;
    }
    HeadsComeFromChats(chats, u, r);
    PrefixNewestFirst(sorted, r);
    r
  }

  /** Every head drawn from `Heads(ChatsOf(chats, u))` is the head of a chat of `u`. */
  lemma HeadsComeFromChats(chats: seq<ChatRow>, u: Id, r: seq<ChatHead>)
    requires multiset(r) <= multiset(Heads(ChatsOf(chats, u)))
    ensures forall h :: h in r ==> exists c :: c in chats && Involves(c, u) && Head(c) == h
  {
    var all := Heads(ChatsOf(chats, u));
    forall h | h in r ensures exists c :: c in chats && Involves(c, u) && Head(c) == h {
      assert h in multiset(r);
      assert h in all;
      var i :| 0 <= i < |all| && all[i] == h;
      var c := ChatsOf(chats, u)[i];
      assert c in ChatsOf(chats, u);
      assert c in chats && Involves(c, u) && Head(c) == h;
    }
  }

  lemma PrefixNewestFirst(sorted: seq<ChatHead>, r: seq<ChatHead>)
    requires NewestFirst(sorted) && |r| <= |sorted| && r == sorted[..|r|]
    ensures NewestFirst(r)
  {
    forall i, j | 0 <= i < j < |r| ensures r[i].updatedAt >= r[j].updatedAt {
      assert r[i] == sorted[i] && r[j] == sorted[j];
    }
  }

  lemma HeadInHeads(cs: seq<ChatRow>, c: ChatRow)
    requires c in cs
    ensures Head(c) in Heads(cs)
  {
    var i :| 0 <= i < |cs| && cs[i] == c;
    assert Heads(cs)[i] == Head(c);
  }

  /** The 20 returned are the newest: when `u` has at most 20 chats none is left out;
      otherwise exactly 20 of them come back, and every chat of `u` left out is no newer
      than any returned. */
  lemma {:induction false} TopChatsComplete(chats: seq<ChatRow>, u: Id)
    ensures |ChatsOf(chats, u)| <= 20 ==> multiset(TopChats(chats, u)) == multiset(Heads(ChatsOf(chats, u)))
    ensures |ChatsOf(chats, u)| > 20 ==>
      |TopChats(chats, u)| == 20 && multiset(TopChats(chats, u)) <= multiset(Heads(ChatsOf(chats, u)))
    ensures forall c, h :: c in chats && Involves(c, u) && Head(c) !in TopChats(chats, u) && h in TopChats(chats, u)
                           ==> c.updatedAt <= h.updatedAt
  {
    var all := Heads(ChatsOf(chats, u));
    var sorted := SortNewestFirst(all);
    var r := TopChats(chats, u);
    SortNewestFirstCorrect(all);
    assert |sorted| == |all| by {
      assert |multiset(sorted)| == |multiset(all)|;
    }
    assert r == Limit(sorted, 20);
    forall c, h | c in chats && Involves(c, u) && Head(c) !in r && h in r
      ensures c.updatedAt <= h.updatedAt
    {
      HeadInHeads(ChatsOf(chats, u), c);
      assert Head(c) in multiset(sorted);
      var j :| 0 <= j < |sorted| && sorted[j] == Head(c);
      var i :| 0 <= i < |r| && r[i] == h;
      assert sorted[i] == h;
      assert i < j;
    }
  }

  /** An entry of getUserChats: the chat's columns and its latest message, or null. */
  datatype UserChat = UserChat(id: Id, user1: Id, user2: Id, updatedAt: Timestamp, lastMessage: Option<MessageRow>)

  function LastMessage(messages: seq<MessageRow>, chatId: Id): (r: Option<MessageRow>)
    ensures r.None? <==> forall m :: m in messages ==> m.chatId != chatId
    ensures r.Some? ==> r.value in messages && r.value.chatId == chatId
    ensures r.Some? ==> forall m :: m in messages && m.chatId == chatId ==> m.createdAt <= r.value.createdAt
  {
    var last := MessageService.GetLast(messages, chatId);
    if |last| > 0 then Some(last[0]) else None
  }

  /** getUserChats: the top chats of `u`, each enriched with its latest message
      (the concurrent per-chat lookups are taken one after the other). */
  function GetUserChats(chats: seq<ChatRow>, messages: seq<MessageRow>, u: Id): (r: seq<UserChat>)
    ensures |r| == |TopChats(chats, u)|
    ensures forall i :: 0 <= i < |r| ==>
      var h := TopChats(chats, u)[i];
      r[i].id == h.id && r[i].user1 == h.user1 && r[i].user2 == h.user2 && r[i].updatedAt == h.updatedAt
    ensures forall i :: 0 <= i < |r| ==> r[i].lastMessage == LastMessage(messages, r[i].id)
  {
    var top := TopChats(chats, u);
    seq(|top|, i requires 0 <= i < |top| =>
      UserChat(top[i].id, top[i].user1, top[i].user2, top[i].updatedAt, LastMessage(messages, top[i].id)))
  }

  /** Why an INSERT of (user1, user2) under `id` is refused, if it is: a missing
      participant, then a unique key (id or the ordered pair), then a foreign key. */
  function InsertError(chats: seq<ChatRow>, users: seq<UserRow>, id: Id, user1: Option<Id>, user2: Option<Id>): Option<PgError> {
    if user1.None? || user2.None? then Some(NotNullViolation)
    else if HasChatId(chats, id) || HasPair(chats, user1.value, user2.value) then Some(UniqueViolation)
    else if !HasUserId(users, user1.value) || !HasUserId(users, user2.value) then Some(ForeignKeyViolation)
    else None
  }

  /** createNew: INSERT the participants as given; `id` and `now` are the database's
      UUID and clock defaults, `unavailable` a failure of the call itself. */
  method CreateNew(db: Database, user1: Option<Id>, user2: Option<Id>, id: Id, now: Timestamp, unavailable: bool)
    returns (r: Result<InsertResult, ServiceError>)
    requires db.Valid()
    modifies db
    ensures db.Valid()
    ensures db.users == old(db.users) && db.messages == old(db.messages)
    ensures r.Success? <==> !unavailable && InsertError(old(db.chats), old(db.users), id, user1, user2).None?
    ensures r.Success? ==>
      (r.value == InsertResult(1) && db.chats == old(db.chats) + [ChatRow(id, user1.value, user2.value, now, now)])
    ensures r.Failure? ==> db.chats == old(db.chats)
    ensures r.Failure? && !unavailable ==> r.error == Translate(InsertError(old(db.chats), old(db.users), id, user1, user2).value)
    ensures r.Failure? && unavailable ==> r.error == Db(Unavailable)
  {
    if unavailable {
      return Failure(Db(Unavailable));
    }
    var err := InsertError(db.chats, db.users, id, user1, user2);
    if err.Some? {
      return Failure(Translate(err.value));
    }
    var row := ChatRow(id, user1.value, user2.value, now, now);
    ghost var before := db.chats;
    db.chats := db.chats + [row];
    assert forall x :: HasChatId(before, x) ==> HasChatId(db.chats, x) by {
      forall x | HasChatId(before, x) ensures HasChatId(db.chats, x) {
        var i :| 0 <= i < |before| && before[i].id == x;
        assert db.chats[i].id == x;
      }
    }
    r := Success(InsertResult(1));
  }

  /** Uniqueness is on the ordered pair: (b, a) is not a duplicate of an existing (a, b). */
  lemma ReversedPairIsNoDuplicate(chats: seq<ChatRow>, users: seq<UserRow>, a: Id, b: Id, id: Id, t: Timestamp)
    requires a != b && HasPair(chats, a, b) && !HasPair(chats, b, a) && !HasChatId(chats, id)
    requires HasUserId(users, a) && HasUserId(users, b)
    ensures InsertError(chats, users, id, Some(b), Some(a)) == None
  {
  }

  /** The chats with `updatedAt` of chat `chatId` set to `now`: no row is added, removed
      or moved, and no other column or row changes. */
  function Touch(chats: seq<ChatRow>, chatId: Id, now: Timestamp): (r: seq<ChatRow>)
    ensures |r| == |chats|
    ensures forall i :: 0 <= i < |r| ==>
      && r[i].id == chats[i].id && r[i].user1 == chats[i].user1 && r[i].user2 == chats[i].user2
      && r[i].createdAt == chats[i].createdAt
      && r[i].updatedAt == if chats[i].id == chatId then now else chats[i].updatedAt
  {
    seq(|chats|, i requires 0 <= i < |chats| =>
      if chats[i].id == chatId then chats[i].(updatedAt := now) else chats[i])
  }

  /** updateTimestamp: UPDATE chats SET updatedAt = now WHERE id = chatId. No matching
      row is not an error. */
  method UpdateTimestamp(db: Database, chatId: Id, now: Timestamp, unavailable: bool)
    returns (r: Result<(), ServiceError>)
    requires db.Valid()
    modifies db
    ensures db.Valid()
    ensures db.users == old(db.users) && db.messages == old(db.messages)
    ensures r.Success? <==> !unavailable
    ensures r.Failure? ==> r.error == Db(Unavailable) && db.chats == old(db.chats)
    ensures r.Success? ==> db.chats == Touch(old(db.chats), chatId, now)
  {
    if unavailable {
      return Failure(Db(Unavailable));
    }
    ghost var before := db.chats;
    db.chats := Touch(db.chats, chatId, now);
    assert forall x :: HasChatId(before, x) ==> HasChatId(db.chats, x) by {
      forall x | HasChatId(before, x) ensures HasChatId(db.chats, x) {
        var i :| 0 <= i < |before| && before[i].id == x;
        assert db.chats[i].id == x;
      }
    }
    r := Success(());
  }
}
