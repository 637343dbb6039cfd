/** `getRecentSessions` and `getUserSessions`: the `session_history` rows,
    newest first, cut to `limit` and projected to the companion each row
    points at. Unlike `getBookmarkedCompanions`, these keep a null for a row
    whose companion is gone. */
module Sessions {
  import opened Common

  /** A row of `session_history`. `userId` is absent when the session was
      recorded without a signed-in user. */
  datatype SessionEntry = SessionEntry(companionId: string, userId: Option<string>, createdAt: int)

  const DefaultSessionLimit: int := 10

  predicate NewestFirstOrder(s: seq<SessionEntry>) {
    forall i, j :: 0 <= i < j < |s| ==> s[i].createdAt >= s[j].createdAt
  }

  /** Places `e` before the first entry that is older than it. */
  function Insert(e: SessionEntry, s: seq<SessionEntry>): (r: seq<SessionEntry>)
    requires NewestFirstOrder(s)
    ensures NewestFirstOrder(r)
    ensures multiset(r) == multiset(s) + multiset{e}
    ensures |r| == |s| + 1
    ensures r[0] == e || (|s| > 0 && r[0] == s[0])
  {
    if s == [] || e.createdAt >= s[0].createdAt then [e] + s
    else
      var rest := Insert(e, s[1..]);
      assert s == [s[0]] + s[1..];
      [s[0]] + rest
  }

  /** The store's `.order("created_at", { ascending: false })`. */
  function NewestFirst(h: seq<SessionEntry>): (r: seq<SessionEntry>)
    ensures NewestFirstOrder(r)
    ensures multiset(r) == multiset(h)
    ensures |r| == |h|
  {
    if h == [] then []
    else
      assert h == [h[0]] + h[1..];
      Insert(h[0], NewestFirst(h[1..]))
  }

  /** The store's `.limit(n)`: the first `n` rows (none for a negative `n`). */
  function Take<T>(s: seq<T>, n: int): (r: seq<T>)
    ensures |r| == if n <= 0 then 0 else if n < |s| then n else |s|
    ensures forall k :: 0 <= k < |r| ==> r[k] == s[k]
  {
    if n <= 0 then [] else if n < |s| then s[..n] else s
  }

  /** In a newest-first list, every entry after position `n` is no newer
      than any entry before it. */
  lemma PrefixIsNewest(s: seq<SessionEntry>, n: nat, e: SessionEntry, k: int)
    requires NewestFirstOrder(s) && n <= |s|
    requires e in multiset(s) - multiset(s[..n]) && 0 <= k < n
    ensures s[k].createdAt >= e.createdAt
  {
    assert s == s[..n] + s[n..];
    assert multiset(s) == multiset(s[..n]) + multiset(s[n..]);
    assert e in s[n..];
    var j :| 0 <= j < |s[n..]| && s[n..][j] == e;
    assert s[n + j] == e;
  }

  /** The `limit` newest entries of `h`, newest first. */
  function Latest(h: seq<SessionEntry>, limit: int): (r: seq<SessionEntry>)
    ensures |r| == if limit <= 0 then 0 else if limit < |h| then limit else |h|
    ensures NewestFirstOrder(r)
  {
    Take(NewestFirst(h), limit)
  }

  /** `Latest` keeps entries of the history only, and leaves out none that
      is newer than one it keeps. */
  lemma LatestKeepsNewest(h: seq<SessionEntry>, limit: int)
    ensures multiset(Latest(h, limit)) <= multiset(h)
    ensures forall e, k :: e in multiset(h) - multiset(Latest(h, limit)) && 0 <= k < |Latest(h, limit)| ==>
      Latest(h, limit)[k].createdAt >= e.createdAt
  {
    var s := NewestFirst(h);
    var r := Latest(h, limit);
    assert r == s[..|r|];
    assert s == r + s[|r|..];
    assert multiset(s) == multiset(r) + multiset(s[|r|..]);
    forall e, k | e in multiset(h) - multiset(r) && 0 <= k < |r|
      ensures r[k].createdAt >= e.createdAt
    {
      PrefixIsNewest(s, |r|, e, k);
    }
  }

  /** Every entry of `Latest(h, limit)` comes from `h`. */
  lemma LatestFromHistory(h: seq<SessionEntry>, limit: int, k: int)
    requires 0 <= k < |Latest(h, limit)|
    ensures Latest(h, limit)[k] in h
  {
    var r := Latest(h, limit);
    LatestKeepsNewest(h, limit);
    assert r[k] in multiset(r);
  }

  /** Each history row replaced by the companion it points at (null when
      that companion is gone). */
  function Companions(rows: seq<SessionEntry>, companions: seq<Companion>): (r: seq<Option<Companion>>)
    ensures |r| == |rows|
    ensures forall k :: 0 <= k < |rows| ==> r[k] == Lookup(companions, rows[k].companionId)
  {
    seq(|rows|, k requires 0 <= k < |rows| => Lookup(companions, rows[k].companionId))
  }

  /** `getRecentSessions`: the companions of the `limit` newest sessions of
      all users, or the store's error. */
  function GetRecentSessions(history: seq<SessionEntry>, companions: seq<Companion>, limit: Option<int>,
                             fault: Option<string>): (r: Result<seq<Option<Companion>>>)
    ensures fault.Some? ==> r == Err(StoreFailed(StoreError(fault.value)))
    ensures fault.None? ==> r.Ok?
    ensures r.Ok? ==>
      var n := limit.GetOr(DefaultSessionLimit);
      |r.value| == if n <= 0 then 0 else if n < |history| then n else |history|
    ensures r.Ok? ==> forall k :: 0 <= k < |r.value| ==>
      r.value[k] == Lookup(companions, Latest(history, limit.GetOr(DefaultSessionLimit))[k].companionId)
  {
    if fault.Some? then Err(StoreFailed(StoreError(fault.value)))
    else Ok(Companions(Latest(history, limit.GetOr(DefaultSessionLimit)), companions))
  }

  /** The history rows of one user, in table order. */
  function UserEntries(history: seq<SessionEntry>, userId: string): (r: seq<SessionEntry>)
    ensures |r| <= |history|
    ensures forall e :: e in r <==> e in history && e.userId == Some(userId)
  {
    if history == [] then []
    else if history[0].userId == Some(userId) then [history[0]] + UserEntries(history[1..], userId)
    else UserEntries(history[1..], userId)
  }

  /** `getUserSessions`: the companions of the user's `limit` newest
      sessions, or the store's error. */
  function GetUserSessions(history: seq<SessionEntry>, userId: string, companions: seq<Companion>, limit: Option<int>,
                           fault: Option<string>): (r: Result<seq<Option<Companion>>>)
    ensures fault.Some? ==> r == Err(StoreFailed(StoreError(fault.value)))
    ensures fault.None? ==> r.Ok?
    ensures r.Ok? ==>
      var n, mine := limit.GetOr(DefaultSessionLimit), |UserEntries(history, userId)|;
      |r.value| == if n <= 0 then 0 else if n < mine then n else mine
    ensures r.Ok? ==> forall k :: 0 <= k < |r.value| ==>
      r.value[k] == Lookup(companions, Latest(UserEntries(history, userId), limit.GetOr(DefaultSessionLimit))[k].companionId)
  {
    if fault.Some? then Err(StoreFailed(StoreError(fault.value)))
    else Ok(Companions(Latest(UserEntries(history, userId), limit.GetOr(DefaultSessionLimit)), companions))
  }

  /** Without a `limit` both feeds show the ten newest sessions. */
  lemma DefaultFeedIsTenNewest(history: seq<SessionEntry>, userId: string, companions: seq<Companion>)
    ensures |GetRecentSessions(history, companions, None, None).value| == if |history| < 10 then |history| else 10
    ensures |GetUserSessions(history, userId, companions, None, None).value| <= 10
  {
  }

  /** A user's list is made of that user's sessions only. */
  lemma UserSessionsAreTheUsers(history: seq<SessionEntry>, userId: string, limit: int, k: int)
    requires 0 <= k < |Latest(UserEntries(history, userId), limit)|
    ensures Latest(UserEntries(history, userId), limit)[k] in history
    ensures Latest(UserEntries(history, userId), limit)[k].userId == Some(userId)
  {
    LatestFromHistory(UserEntries(history, userId), limit, k);
  }

  /** Another user's sessions never change a user's list. */
  lemma {:induction false} OtherUsersIgnored(history: seq<SessionEntry>, e: SessionEntry, userId: string)
    requires e.userId != Some(userId)
    ensures UserEntries(history + [e], userId) == UserEntries(history, userId)
  {
    if history == [] {
      assert [e][1..] == [];
    } else {
      assert (history + [e])[0] == history[0];
      assert (history + [e])[1..] == history[1..] + [e];
      OtherUsersIgnored(history[1..], e, userId);
    }
  }

  /** A user whose sessions are the whole history sees the global feed. */
  lemma {:induction false} SoleUserSeesRecentSessions(history: seq<SessionEntry>, userId: string,
                                                      companions: seq<Companion>, limit: Option<int>)
    requires forall e :: e in history ==> e.userId == Some(userId)
    ensures GetUserSessions(history, userId, companions, limit, None) == GetRecentSessions(history, companions, limit, None)
  {
    assert UserEntries(history, userId) == history by {
      UserEntriesOfSoleUser(history, userId);
    }
  }

  lemma {:induction false} UserEntriesOfSoleUser(history: seq<SessionEntry>, userId: string)
    requires forall e :: e in history ==> e.userId == Some(userId)
    ensures UserEntries(history, userId) == history
  {
    if history != [] {
      assert history[0] in history;
      assert forall e :: e in history[1..] ==> e in history;
      UserEntriesOfSoleUser(history[1..], userId);
    }
  }
}
