/** The `bookmarks` table and the operations on it: `addBookmark`,
    `removeBookmark`, `isBookmarked` and `getBookmarkedCompanions`. The
    remote table becomes an in-memory sequence of rows owned by a
    `BookmarkTable`; the ambient signed-in user becomes an explicit
    `userId` argument. */
module Bookmarks {
  import opened Common

  /** A row of the `bookmarks` table. */
  datatype Bookmark = Bookmark(companionId: string, userId: string)

  /** The service's invariant: at most one row per (companion, user) pair. */
  ghost predicate AtMostOnePerPair(rows: seq<Bookmark>) {
    forall b :: multiset(rows)[b] <= 1
  }

  /** With at most one row per pair, no two rows are equal. */
  lemma AtMostOnePerPairDistinct(rows: seq<Bookmark>, i: int, j: int)
    requires AtMostOnePerPair(rows)
    requires 0 <= i < j < |rows|
    ensures rows[i] != rows[j]
  {
    var x := rows[j];
    assert rows == rows[..j] + [x] + rows[j + 1..];
    assert multiset(rows)[x] == multiset(rows[..j])[x] + 1 + multiset(rows[j + 1..])[x];
    assert rows[..j][i] == rows[i];
    assert multiset(rows[..j])[rows[i]] >= 1;
  }

  /** `rows` with every row equal to `b` deleted, the others kept in order. */
  function Without(rows: seq<Bookmark>, b: Bookmark): seq<Bookmark> {
    if rows == [] then []
    else
      var last := rows[|rows| - 1];
      Without(rows[..|rows| - 1], b) + (if last == b then [] else [last])
  }

  /** Deleting `b` removes all of its rows and no other row. */
  lemma {:induction false} WithoutCount(rows: seq<Bookmark>, b: Bookmark, x: Bookmark)
    ensures multiset(Without(rows, b))[x] == if x == b then 0 else multiset(rows)[x]
  {
    if rows != [] {
      var init := rows[..|rows| - 1];
      assert rows == init + [rows[|rows| - 1]];
      WithoutCount(init, b, x);
    }
  }

  /** Deleting a pair that has no row changes nothing. */
  lemma {:induction false} WithoutAbsent(rows: seq<Bookmark>, b: Bookmark)
    requires b !in rows
    ensures Without(rows, b) == rows
  {
    if rows != [] {
      var init := rows[..|rows| - 1];
      assert rows == init + [rows[|rows| - 1]];
      WithoutAbsent(init, b);
    }
  }

  /** Deleting keeps the order of the remaining rows: it distributes over
      concatenation. */
  lemma {:induction false} WithoutAppend(a: seq<Bookmark>, c: seq<Bookmark>, b: Bookmark)
    ensures Without(a + c, b) == Without(a, b) + Without(c, b)
  {
    if c == [] {
      assert a + c == a;
    } else {
      var init := c[..|c| - 1];
      assert (a + c)[..|a + c| - 1] == a + init;
      assert (a + c)[|a + c| - 1] == c[|c| - 1];
      WithoutAppend(a, init, b);
    }
  }

  /** `n` copies of `b`: the rows a delete of `b` returns. */
  function Copies(b: Bookmark, n: nat): (r: seq<Bookmark>)
    ensures |r| == n
    ensures forall x :: x in r ==> x == b
  {
    seq(n, _ => b)
  }

  class BookmarkTable {
    var rows: seq<Bookmark>

    ghost predicate Valid()
      reads this
    {
      AtMostOnePerPair(rows)
    }

    constructor ()
      ensures Valid() && rows == []
    {
      rows := [];
    }

    /** The store's `.eq("companion_id", ...).eq("user_id", ...)` query:
        the number of rows for the pair. */
    method CountMatching(b: Bookmark) returns (n: nat)
      ensures n == multiset(rows)[b]
      ensures n > 0 <==> b in rows
    {
      n := 0;
      var i := 0;
      while i < |rows|
        invariant 0 <= i <= |rows|
        invariant n == multiset(rows[..i])[b]
      {
        assert rows[..i + 1] == rows[..i] + [rows[i]];
        if rows[i] == b {
          n := n + 1;
        }
        i := i + 1;
      }
      assert rows[..i] == rows;
    }

    /** `addBookmark`: refuses an unauthenticated caller and an existing
        bookmark, otherwise inserts one row and returns it. The existence
        check uses `maybeSingle()`, which fails when it meets more than one
        row. */
    method AddBookmark(companionId: string, userId: Option<string>) returns (r: Result<seq<Bookmark>>)
      modifies this
      ensures !Present(userId) ==> r == Err(NotAuthenticated) && rows == old(rows)
      ensures Present(userId) ==>
        var b := Bookmark(companionId, userId.value);
        && (multiset(old(rows))[b] > 1 ==>
              r == Err(CheckFailed(StoreError(MultipleRowsMessage))) && rows == old(rows))
        && (multiset(old(rows))[b] == 1 ==> r == Err(AlreadyBookmarked) && rows == old(rows))
        && (b !in old(rows) ==> r == Ok([b]) && rows == old(rows) + [b])
      ensures AtMostOnePerPair(old(rows)) ==> AtMostOnePerPair(rows)
    {
      if !Present(userId) {
        return Err(NotAuthenticated);
      }
      var b := Bookmark(companionId, userId.value);
      var existing := CountMatching(b);
      if existing > 1 {
        return Err(CheckFailed(StoreError(MultipleRowsMessage)));
      }
      if existing == 1 {
        return Err(AlreadyBookmarked);
      }
      rows := rows + [b];
      r := Ok([b]);
    }

    /** `removeBookmark`: refuses an unauthenticated caller, otherwise
        deletes every row of the pair (possibly none) and returns the
        deleted rows. */
    method RemoveBookmark(companionId: string, userId: Option<string>) returns (r: Result<seq<Bookmark>>)
      modifies this
      ensures !Present(userId) ==> r == Err(NotAuthenticated) && rows == old(rows)
      ensures Present(userId) ==>
        var b := Bookmark(companionId, userId.value);
        && r == Ok(Copies(b, multiset(old(rows))[b]))
        && rows == Without(old(rows), b)
      ensures AtMostOnePerPair(old(rows)) ==> AtMostOnePerPair(rows)
    {
      if !Present(userId) {
        return Err(NotAuthenticated);
      }
      var b := Bookmark(companionId, userId.value);
      var kept: seq<Bookmark> := [];
      var deleted: seq<Bookmark> := [];
      var i := 0;
      while i < |rows|
        invariant 0 <= i <= |rows|
        invariant kept == Without(rows[..i], b)
        invariant deleted == Copies(b, multiset(rows[..i])[b])
      {
        assert rows[..i + 1] == rows[..i] + [rows[i]];
        assert rows[..i + 1][..i] == rows[..i];
        if rows[i] == b {
          deleted := deleted + [b];
        } else {
          kept := kept + [rows[i]];
        }
        i := i + 1;
      }
      assert rows[..i] == rows;
      forall x ensures multiset(kept)[x] <= multiset(rows)[x] {
        WithoutCount(rows, b, x);
      }
      rows := kept;
      r := Ok(deleted);
    }

    /** `isBookmarked`: whether the pair has a row. Like the check in
        `addBookmark`, it fails when the pair has more than one row. */
    method IsBookmarked(companionId: string, userId: string) returns (r: Result<bool>)
      ensures var b := Bookmark(companionId, userId);
        && (multiset(rows)[b] > 1 ==> r == Err(StoreFailed(StoreError(MultipleRowsMessage))))
        && (multiset(rows)[b] <= 1 ==> r == Ok(b in rows))
    {
      var n := CountMatching(Bookmark(companionId, userId));
      if n > 1 {
        r := Err(StoreFailed(StoreError(MultipleRowsMessage)));
      } else {
        r := Ok(n == 1);
      }
    }
  }

  /** Adding the same bookmark twice: the first call inserts one row, the
      second is refused and changes nothing, and the pair reads as
      bookmarked. */
  method AddTwice(t: BookmarkTable, companionId: string, userId: string)
      returns (first: Result<seq<Bookmark>>, second: Result<seq<Bookmark>>, present: Result<bool>)
    requires t.Valid() && userId != ""
    requires Bookmark(companionId, userId) !in t.rows
    modifies t
    ensures first == Ok([Bookmark(companionId, userId)])
    ensures second == Err(AlreadyBookmarked)
    ensures present == Ok(true)
    ensures t.Valid() && t.rows == old(t.rows) + [Bookmark(companionId, userId)]
  {
    first := t.AddBookmark(companionId, Some(userId));
    second := t.AddBookmark(companionId, Some(userId));
    present := t.IsBookmarked(companionId, userId);
  }

  /** Removing a bookmark always succeeds, deletes at most one row of a valid
      table, leaves the table as it was when there was nothing to delete, and
      the pair then reads as not bookmarked. */
  method RemoveThenCheck(t: BookmarkTable, companionId: string, userId: string)
      returns (removed: Result<seq<Bookmark>>, present: Result<bool>)
    requires t.Valid() && userId != ""
    modifies t
    ensures removed.Ok? && |removed.value| <= 1
    ensures Bookmark(companionId, userId) !in old(t.rows) ==> removed == Ok([]) && t.rows == old(t.rows)
    ensures present == Ok(false)
    ensures t.Valid()
  {
    var b := Bookmark(companionId, userId);
    removed := t.RemoveBookmark(companionId, Some(userId));
    WithoutCount(old(t.rows), b, b);
    if b !in old(t.rows) {
      WithoutAbsent(old(t.rows), b);
    }
    present := t.IsBookmarked(companionId, userId);
  }

  /** The rows of one user, in table order. */
  function UserRows(rows: seq<Bookmark>, userId: string): (r: seq<Bookmark>)
    ensures |r| <= |rows|
    ensures forall b :: b in r <==> b in rows && b.userId == userId
  {
    if rows == [] then []
    else if rows[0].userId == userId then [rows[0]] + UserRows(rows[1..], userId)
    else UserRows(rows[1..], userId)
  }

  lemma {:induction false} UserRowsAppend(a: seq<Bookmark>, c: seq<Bookmark>, userId: string)
    ensures UserRows(a + c, userId) == UserRows(a, userId) + UserRows(c, userId)
  {
    if a == [] {
      assert a + c == c;
    } else {
      assert (a + c)[0] == a[0];
      assert (a + c)[1..] == a[1..] + c;
      UserRowsAppend(a[1..], c, userId);
    }
  }

  /** Each bookmark row joined to its companion, null when the companion is
      gone. */
  function JoinCompanions(rows: seq<Bookmark>, companions: seq<Companion>): (r: seq<Option<Companion>>)
    ensures |r| == |rows|
    ensures forall i :: 0 <= i < |rows| ==> r[i] == Lookup(companions, rows[i].companionId)
  {
    seq(|rows|, i requires 0 <= i < |rows| => Lookup(companions, rows[i].companionId))
  }

  lemma JoinCompanionsAppend(a: seq<Bookmark>, c: seq<Bookmark>, companions: seq<Companion>)
    ensures JoinCompanions(a + c, companions) == JoinCompanions(a, companions) + JoinCompanions(c, companions)
  {
  }

  /** The companions a user's bookmarks point at, in bookmark order, with
      orphaned bookmarks (null joins) dropped. */
  function BookmarkedList(rows: seq<Bookmark>, userId: string, companions: seq<Companion>): (r: seq<Companion>)
    ensures |r| <= |UserRows(rows, userId)|
  {
    Somes(JoinCompanions(UserRows(rows, userId), companions))
  }

  /** A companion is listed exactly when one of the user's bookmarks points
      at it. */
  lemma BookmarkedListMembers(rows: seq<Bookmark>, userId: string, companions: seq<Companion>, c: Companion)
    ensures c in BookmarkedList(rows, userId, companions) <==>
      exists b :: b in rows && b.userId == userId && Lookup(companions, b.companionId) == Some(c)
  {
    var mine := UserRows(rows, userId);
    var joined := JoinCompanions(mine, companions);
    if Some(c) in joined {
      var i :| 0 <= i < |joined| && joined[i] == Some(c);
      assert mine[i] in mine;
    }
    if exists b :: b in rows && b.userId == userId && Lookup(companions, b.companionId) == Some(c) {
      var b :| b in rows && b.userId == userId && Lookup(companions, b.companionId) == Some(c);
      assert b in mine;
      var i :| 0 <= i < |mine| && mine[i] == b;
      assert joined[i] == Some(c);
    }
  }

  /** `getBookmarkedCompanions`: the user's bookmarked companions, or the
      store's error; the empty list when the user has no bookmarks. */
  function GetBookmarkedCompanions(rows: seq<Bookmark>, userId: string, companions: seq<Companion>,
                                   fault: Option<string>): (r: Result<seq<Companion>>)
    ensures fault.Some? ==> r == Err(StoreFailed(StoreError(fault.value)))
    ensures fault.None? ==> r == Ok(BookmarkedList(rows, userId, companions))
    ensures r.Ok? ==> |r.value| <= |UserRows(rows, userId)|
    ensures r.Ok? && UserRows(rows, userId) == [] ==> r.value == []
  {
    if fault.Some? then Err(StoreFailed(StoreError(fault.value)))
    else Ok(BookmarkedList(rows, userId, companions))
  }

  /** The listing follows the order of the bookmark rows: bookmarks added
      later come later. */
  lemma BookmarkedListInRowOrder(a: seq<Bookmark>, c: seq<Bookmark>, userId: string,
                                 companions: seq<Companion>)
    ensures BookmarkedList(a + c, userId, companions) ==
      BookmarkedList(a, userId, companions) + BookmarkedList(c, userId, companions)
  {
    var ua, uc := UserRows(a, userId), UserRows(c, userId);
    UserRowsAppend(a, c, userId);
    JoinCompanionsAppend(ua, uc, companions);
    SomesAppend(JoinCompanions(ua, companions), JoinCompanions(uc, companions));
  }

  /** A bookmark whose companion is gone contributes nothing: the listing is
      the same as without that row. */
  lemma OrphanIsDropped(rows: seq<Bookmark>, b: Bookmark, userId: string, companions: seq<Companion>)
    requires forall c :: c in companions ==> c.id != b.companionId
    ensures BookmarkedList(rows + [b], userId, companions) == BookmarkedList(rows, userId, companions)
  {
    BookmarkedListInRowOrder(rows, [b], userId, companions);
    assert [b][1..] == [];
    var j := JoinCompanions(UserRows([b], userId), companions);
    assert j == [] || j == [None];
    assert Somes(j) == [] by {
      if j == [None] {
        assert j[1..] == [];
      }
    }
    assert BookmarkedList(rows + [b], userId, companions) == BookmarkedList(rows, userId, companions) + [];
  }
}
