/** Accounts: `userService` over the `users` table. */
module UserService {

  import opened Wrappers
  import opened Schema
  import opened Seqs
  import opened Db
  import opened JsString
  import opened Sql

  /** getOne: the first row of `WHERE id = ? LIMIT 1`, or undefined. */
  function GetOne(users: seq<UserRow>, id: Id): (r: Option<UserRow>)
    ensures r.Some? ==> r.value in users && r.value.id == id
    ensures r.None? <==> !HasUserId(users, id)
  {
    var all := Filter(users, (u: UserRow) => u.id == id);
    var found := Limit(all, 1);
    if |found| > 0 then
      assert found[0] == all[0] && all[0] in all;
      Some(found[0])
    else
      assert !HasUserId(users, id) by {
        forall i | 0 <= i < |users| ensures !(users[i].id == id) {
          assert users[i] in users && users[i] !in all;
        }
      }
      None
  }

  /** getOneByEmail: the first row of `WHERE email = ? LIMIT 1`, or undefined. */
  function GetOneByEmail(users: seq<UserRow>, email: string): (r: Option<UserRow>)
    ensures r.Some? ==> r.value in users && r.value.email == Some(email)
    ensures r.None? <==> !HasEmail(users, email)
  {
    var all := Filter(users, (u: UserRow) => u.email == Some(email));
    var found := Limit(all, 1);
    if |found| > 0 then
      assert found[0] == all[0] && all[0] in all;
      Some(found[0])
    else
      assert !HasEmail(users, email) by {
        forall i | 0 <= i < |users| ensures !(users[i].email == Some(email)) {
          assert users[i] in users && users[i] !in all;
        }
      }
      None
  }

  /** With the unique email constraint in force, the lookup by email finds the one account. */
  lemma GetOneByEmailFindsTheUser(users: seq<UserRow>, u: UserRow, email: string)
    requires UsersValid(users)
    requires u in users && u.email == Some(email)
    ensures GetOneByEmail(users, email) == Some(u)
  {
    var i :| 0 <= i < |users| && users[i] == u;
    assert HasEmail(users, email);
    var r := GetOneByEmail(users, email).value;
    var j :| 0 <= j < |users| && users[j] == r;
    assert i == j;
  }

  /** getAll: the whole table. */
  function GetAll(users: seq<UserRow>): (r: seq<UserRow>)
    ensures |r| == |users| && forall u :: u in r <==> u in users
    ensures multiset(r) == multiset(users)
  {
    users
  }

  /** The search term: the query trimmed and lower-cased. */
  function Normalise(query: string): (r: string)
    ensures forall i :: 0 <= i < |r| ==> !IsUpper(r[i])
    ensures r != [] ==> !IsWhiteSpace(r[0]) && !IsWhiteSpace(r[|r| - 1])
  {
    LowerTrimmed(Trim(query))
  }

  /** Lower-casing a string that neither starts nor ends with white space. */
  function LowerTrimmed(t: string): (r: string)
    requires t != [] ==> !IsWhiteSpace(t[0]) && !IsWhiteSpace(t[|t| - 1])
    ensures forall i :: 0 <= i < |r| ==> !IsUpper(r[i])
    ensures r != [] ==> !IsWhiteSpace(r[0]) && !IsWhiteSpace(r[|r| - 1])
  {
    LowerKeepsEnds(t);
    ToLower(t)
  }

  /** Lower-casing keeps the non-white-space ends of a string. */
  lemma LowerKeepsEnds(t: string)
    requires t != [] ==> !IsWhiteSpace(t[0]) && !IsWhiteSpace(t[|t| - 1])
    ensures forall i :: 0 <= i < |ToLower(t)| ==> !IsUpper(ToLower(t)[i])
    ensures ToLower(t) != [] ==> !IsWhiteSpace(ToLower(t)[0]) && !IsWhiteSpace(ToLower(t)[|t| - 1])
  {
    if t != [] {
      LowerKeepsNonWhiteSpace(t[0]);
      LowerKeepsNonWhiteSpace(t[|t| - 1]);
    }
  }

  lemma LowerKeepsNonWhiteSpace(c: char)
    requires !IsWhiteSpace(c)
    ensures !IsWhiteSpace(LowerChar(c))
  {
  }

  /** A term already trimmed and in lower case is its own normal form. */
  lemma NormaliseFixed(s: string)
    requires s == [] || (!IsWhiteSpace(s[0]) && !IsWhiteSpace(s[|s| - 1]))
    requires forall i :: 0 <= i < |s| ==> !IsUpper(s[i])
    ensures Normalise(s) == s
  {
    assert TrimEnd(s) == s;
    assert TrimStart(s) == s;
    assert ToLower(s) == s;
  }

  /** `%<term>%`, the LIKE pattern of getUsersByQuery. */
  function SearchPattern(query: string): (p: string)
    ensures |p| == |Normalise(query)| + 2 && p[0] == '%' && p[|p| - 1] == '%'
    ensures p[1..|p| - 1] == Normalise(query)
  {
    "%" + Normalise(query) + "%"
  }

  predicate MatchesPattern(u: UserRow, pattern: string) {
    LikeNullable(u.username, pattern) || LikeNullable(u.email, pattern)
  }

  /** The rows `WHERE username LIKE p OR email LIKE p` admits, in storage order. */
  function Matching(users: seq<UserRow>, query: string): (r: seq<UserRow>)
    ensures |r| <= |users| && multiset(r) <= multiset(users)
    ensures forall u :: u in r <==> u in users && MatchesPattern(u, SearchPattern(query))
    ensures forall u :: multiset(r)[u] == if MatchesPattern(u, SearchPattern(query)) then multiset(users)[u] else 0
  {
    Filter(users, (u: UserRow) => MatchesPattern(u, SearchPattern(query)))
  }

  /** getUsersByQuery: the admitted rows under LIMIT 20. Which 20 rows come back when
      more are admitted is left open by SQL; the model takes the first 20 stored. */
  function GetUsersByQuery(users: seq<UserRow>, query: string): (r: seq<UserRow>)
    ensures |r| == if |Matching(users, query)| <= 20 then |Matching(users, query)| else 20
    ensures multiset(r) <= multiset(users)
    ensures forall u :: u in r ==> u in users && MatchesPattern(u, SearchPattern(query))
  {
    var all := Matching(users, query);
    var r := Limit(all, 20);
    assert forall u :: u in r ==> u in all;
    assert multiset(r) <= multiset(all) <= multiset(users);
    r
  }

  /** `q` occurs, as stored, in the username or the email of `u`. */
  predicate ContainsTerm(u: UserRow, q: string) {
    (u.username.Some? && IsSubstring(q, u.username.value)) || (u.email.Some? && IsSubstring(q, u.email.value))
  }

  /** For a term without LIKE wildcards the pattern is a case-sensitive substring test. */
  lemma PatternIsTerm(u: UserRow, query: string)
    requires Literal(Normalise(query))
    ensures MatchesPattern(u, SearchPattern(query)) <==> ContainsTerm(u, Normalise(query))
  {
    var q := Normalise(query);
    assert SearchPattern(query) == "%" + q + "%";
    if u.username.Some? { SubstringPattern(u.username.value, q); }
    if u.email.Some? { SubstringPattern(u.email.value, q); }
  }

  /** A search term without LIKE wildcards admits exactly the users whose stored username
      or email contains it (no case folding on the column side), each as often as stored;
      every result is one of them, and all of them come back when at most 20 do. */
  lemma SearchFindsSubstrings(users: seq<UserRow>, query: string)
    requires Literal(Normalise(query))
    ensures forall u :: (multiset(Matching(users, query))[u] ==
                          if ContainsTerm(u, Normalise(query)) then multiset(users)[u] else 0)
    ensures forall u :: u in GetUsersByQuery(users, query) ==> ContainsTerm(u, Normalise(query))
    ensures |Matching(users, query)| <= 20 ==>
      forall u :: u in users && ContainsTerm(u, Normalise(query)) ==> u in GetUsersByQuery(users, query)
    ensures |Matching(users, query)| > 20 ==> |GetUsersByQuery(users, query)| == 20
  {
    forall u ensures MatchesPattern(u, SearchPattern(query)) <==> ContainsTerm(u, Normalise(query)) {
      PatternIsTerm(u, query);
    }
    if |Matching(users, query)| <= 20 {
      assert GetUsersByQuery(users, query) == Matching(users, query);
    }
  }

  /** The pattern of the query "alice". */
  lemma AlicePattern()
    ensures Normalise("alice") == "alice" && SearchPattern("alice") == "%alice%"
  {
    NormaliseFixed("alice");
  }

  lemma AliceNotLikeCapitalised()
    ensures !Like("Alice", "%alice%")
  {
    assert Literal("alice");
    assert !IsSubstring("alice", "Alice") by {
      forall i | 0 <= i <= |"Alice"| ensures !OccursAt("alice", "Alice", i) {
        if i == 0 { assert "Alice"[0..5][0] == 'A'; }
      }
    }
    SubstringPattern("Alice", "alice");
  }

  /** As written, a stored capital letter can never be found: "Alice" is missed by the query "alice". */
  lemma SearchMissesCapitalisedName()
    ensures GetUsersByQuery([UserRow("u1", Some("Alice"), None, None)], "alice") == []
  {
    var u := UserRow("u1", Some("Alice"), None, None);
    var r := GetUsersByQuery([u], "alice");
    AlicePattern();
    AliceNotLikeCapitalised();
    assert !MatchesPattern(u, SearchPattern("alice"));
  }

  /** The evidently intended search: both sides lower-cased (PostgreSQL ILIKE on ASCII letters). */
  predicate MatchesIgnoringCase(u: UserRow, pattern: string) {
    (u.username.Some? && Like(ToLower(u.username.value), pattern))
    || (u.email.Some? && Like(ToLower(u.email.value), pattern))
  }

  /** The rows the corrected WHERE clause admits, in storage order. */
  function MatchingIgnoringCase(users: seq<UserRow>, query: string): (r: seq<UserRow>)
    ensures |r| <= |users| && multiset(r) <= multiset(users)
    ensures forall u :: u in r <==> u in users && MatchesIgnoringCase(u, SearchPattern(query))
    ensures forall u :: multiset(r)[u] == if MatchesIgnoringCase(u, SearchPattern(query)) then multiset(users)[u] else 0
  {
    Filter(users, (u: UserRow) => MatchesIgnoringCase(u, SearchPattern(query)))
  }

  function GetUsersByQueryIgnoringCase(users: seq<UserRow>, query: string): (r: seq<UserRow>)
    ensures |r| == if |MatchingIgnoringCase(users, query)| <= 20 then |MatchingIgnoringCase(users, query)| else 20
    ensures multiset(r) <= multiset(users)
    ensures forall u :: u in r ==> u in users && MatchesIgnoringCase(u, SearchPattern(query))
  {
    var all := MatchingIgnoringCase(users, query);
    var r := Limit(all, 20);
    assert forall u :: u in r ==> u in all;
    assert multiset(r) <= multiset(all) <= multiset(users);
    r
  }

  /** `q` occurs in the lower-cased username or email of `u`. */
  predicate ContainsTermIgnoringCase(u: UserRow, q: string) {
    (u.username.Some? && IsSubstring(q, ToLower(u.username.value)))
    || (u.email.Some? && IsSubstring(q, ToLower(u.email.value)))
  }

  lemma PatternIsTermIgnoringCase(u: UserRow, query: string)
    requires Literal(Normalise(query))
    ensures MatchesIgnoringCase(u, SearchPattern(query)) <==> ContainsTermIgnoringCase(u, Normalise(query))
  {
    var q := Normalise(query);
    assert SearchPattern(query) == "%" + q + "%";
    if u.username.Some? { SubstringPattern(ToLower(u.username.value), q); }
    if u.email.Some? { SubstringPattern(ToLower(u.email.value), q); }
  }

  /** The corrected search admits exactly the users in whose lower-cased username or email
      the term occurs; every result is one of them, and all of them come back when at most 20 do. */
  lemma IgnoringCaseFindsSubstrings(users: seq<UserRow>, query: string)
    requires Literal(Normalise(query))
    ensures forall u :: (multiset(MatchingIgnoringCase(users, query))[u] ==
                          if ContainsTermIgnoringCase(u, Normalise(query)) then multiset(users)[u] else 0)
    ensures forall u :: u in GetUsersByQueryIgnoringCase(users, query) ==> ContainsTermIgnoringCase(u, Normalise(query))
    ensures |MatchingIgnoringCase(users, query)| <= 20 ==>
      forall u :: u in users && ContainsTermIgnoringCase(u, Normalise(query)) ==> u in GetUsersByQueryIgnoringCase(users, query)
    ensures |MatchingIgnoringCase(users, query)| > 20 ==> |GetUsersByQueryIgnoringCase(users, query)| == 20
  {
    forall u ensures MatchesIgnoringCase(u, SearchPattern(query)) <==> ContainsTermIgnoringCase(u, Normalise(query)) {
      PatternIsTermIgnoringCase(u, query);
    }
    if |MatchingIgnoringCase(users, query)| <= 20 {
      assert GetUsersByQueryIgnoringCase(users, query) == MatchingIgnoringCase(users, query);
    }
  }

  /** The corrected search finds "Alice" by "alice". */
  lemma IgnoringCaseFindsCapitalisedName()
    ensures GetUsersByQueryIgnoringCase([UserRow("u1", Some("Alice"), None, None)], "alice")
            == [UserRow("u1", Some("Alice"), None, None)]
  {
    var u := UserRow("u1", Some("Alice"), None, None);
    AlicePattern();
    AliceLowered();
    IgnoringCaseFindsSubstrings([u], "alice");
    var r := GetUsersByQueryIgnoringCase([u], "alice");
    assert u in r && |r| <= 1;
    assert r[0] == u;
  }

  lemma AliceLowered()
    ensures Literal("alice")
    ensures IsSubstring("alice", ToLower("Alice"))
    ensures ContainsTermIgnoringCase(UserRow("u1", Some("Alice"), None, None), "alice")
  {
    assert ToLower("Alice") == "alice";
    assert OccursAt("alice", ToLower("Alice"), 0);
  }

  /** The row createNew hands to the database. */
  datatype NewUser = NewUser(username: Option<string>, email: Option<string>, password: Option<string>)

  /** Why an INSERT under `id` is refused, if it is: the primary key or the unique email
      (NULL emails never collide). */
  function InsertError(users: seq<UserRow>, id: Id, user: NewUser): Option<PgError> {
    if HasUserId(users, id) || (user.email.Some? && HasEmail(users, user.email.value)) then Some(UniqueViolation)
    else None
  }

  /** createNew: INSERT the new account; a unique violation becomes "Duplicate entry". */
  method CreateNew(db: Database, user: NewUser, id: Id, unavailable: bool)
    returns (r: Result<InsertResult, ServiceError>)
    requires db.Valid()
    modifies db
    ensures db.Valid()
    ensures db.chats == old(db.chats) && db.messages == old(db.messages)
    ensures r.Success? <==> !unavailable && InsertError(old(db.users), id, user).None?
    ensures r.Success? ==>
      (r.value == InsertResult(1) && db.users == old(db.users) + [UserRow(id, user.username, user.email, user.password)])
    ensures r.Failure? ==> db.users == old(db.users)
    ensures r.Failure? ==> r.error == if unavailable then Db(Unavailable) else DuplicateEntry
  {
    if unavailable {
      return Failure(Db(Unavailable));
    }
    var err := InsertError(db.users, id, user);
    if err.Some? {
      return Failure(Translate(err.value));
    }
    ghost var before := db.users;
    db.users := db.users + [UserRow(id, user.username, user.email, user.password)];
    assert forall x :: HasUserId(before, x) ==> HasUserId(db.users, x) by {
      forall x | HasUserId(before, x) ensures HasUserId(db.users, x) {
        var i :| 0 <= i < |before| && before[i].id == x;
        assert db.users[i].id == x;
      }
    }
    r := Success(InsertResult(1));
  }
}
