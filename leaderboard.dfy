/**
 * GET /api/leaderboard (src/app/api/leaderboard/route.ts): the top 50 users
 * by level, then XP, numbered from 1, with the avatar enum turned into an
 * image file name.
 */
module Leaderboard {
  import opened Wrappers
  import Validations

  /** `take: 50`. */
  const PageSize := 50

  /** The selected columns of a user row. */
  datatype UserRow = UserRow(id: int, username: string, avatar: string, level: int, xp: int)

  /** One element of the `leaderboard` array of the response. */
  datatype Entry = Entry(rank: int, id: int, username: string, avatar: string, level: int, xp: int)

  // ---------------------------------------------------------------------
  // The query: orderBy [{ level: "desc" }, { xp: "desc" }], take 50
  // ---------------------------------------------------------------------

  /** `a` may be listed before `b`: higher level, or the same level and at least as much XP. */
  predicate RanksAbove(a: UserRow, b: UserRow)
  {
    a.level > b.level || (a.level == b.level && a.xp >= b.xp)
  }

  predicate Ordered(s: seq<UserRow>)
  {
    forall i, j :: 0 <= i < j < |s| ==> RanksAbove(s[i], s[j])
  }

  /** A row that ranks above every row of an ordered list can head it. */
  lemma ConsOrdered(x: UserRow, t: seq<UserRow>)
    requires Ordered(t)
    requires forall y :: y in t ==> RanksAbove(x, y)
    ensures Ordered([x] + t)
  {
    var r := [x] + t;
    forall i, j | 0 <= i < j < |r| ensures RanksAbove(r[i], r[j]) {
      assert r[j] == t[j - 1];
      if i > 0 {
        assert r[i] == t[i - 1];
      }
    }
  }

  function Insert(u: UserRow, s: seq<UserRow>): (r: seq<UserRow>)
    requires Ordered(s)
    ensures Ordered(r)
    ensures multiset(r) == multiset(s) + multiset{u}
  {
    if s == [] || RanksAbove(u, s[0]) then
      assert forall y :: y in s ==> RanksAbove(u, y) by {
        forall y | y in s ensures RanksAbove(u, y) {
          var j :| 0 <= j < |s| && s[j] == y;
          assert RanksAbove(s[0], s[j]) || j == 0;
        }
      }
      ConsOrdered(u, s);
      [u] + s
    else
      var tail := Insert(u, s[1..]);
      assert s == [s[0]] + s[1..];
      assert forall y :: y in tail ==> RanksAbove(s[0], y) by {
        forall y | y in tail ensures RanksAbove(s[0], y) {
          assert y in multiset(tail);
          if y != u {
            assert y in multiset(s[1..]);
            var j :| 0 <= j < |s[1..]| && s[1..][j] == y;
            assert s[j + 1] == y;
          }
        }
      }
      ConsOrdered(s[0], tail);
      [s[0]] + tail
  }

  /** The rows in leaderboard order (an insertion sort; ties keep no particular order). */
  function SortByRank(s: seq<UserRow>): (r: seq<UserRow>)
    ensures Ordered(r)
    ensures multiset(r) == multiset(s)
  {
    if s == [] then []
    else
      assert s == [s[0]] + s[1..];
      Insert(s[0], SortByRank(s[1..]))
  }

  /** Cutting an ordered list leaves every kept row ranked above every dropped one. */
  lemma {:induction false} CutOrdered(s: seq<UserRow>, k: nat)
    requires Ordered(s) && k <= |s|
    ensures Ordered(s[..k])
    ensures multiset(s) - multiset(s[..k]) == multiset(s[k..])
    ensures forall x, y :: x in s[..k] && y in s[k..] ==> RanksAbove(x, y)
  {
    assert s == s[..k] + s[k..];
    forall x, y | x in s[..k] && y in s[k..] ensures RanksAbove(x, y) {
      var i :| 0 <= i < k && s[..k][i] == x;
      var j :| 0 <= j < |s[k..]| && s[k..][j] == y;
      assert s[i] == x && s[k + j] == y;
    }
  }

  /** The rows the query returns: at most 50, in order, and none left out ranks above one kept. */
  function TopUsers(users: seq<UserRow>): (r: seq<UserRow>)
    ensures |r| == Min(PageSize, |users|)
    ensures Ordered(r)
    ensures multiset(r) <= multiset(users)
    ensures forall x, y :: x in r && y in multiset(users) - multiset(r) ==> RanksAbove(x, y)
  {
    var sorted := SortByRank(users);
    var k := Min(PageSize, |users|);
    assert |sorted| == |multiset(sorted)| == |users|;
    CutOrdered(sorted, k);
    assert forall y :: y in multiset(sorted[k..]) <==> y in sorted[k..];
    sorted[..k]
  }

  // ---------------------------------------------------------------------
  // Shaping the response
  // ---------------------------------------------------------------------

  const AvatarFiles: map<string, string> := map[
    "Ellipse_1" := "Ellipse_1.png", "Ellipse_2" := "Ellipse_2.png", "Ellipse_3" := "Ellipse_3.png",
    "Ellipse_4" := "Ellipse_4.png", "Ellipse_5" := "Ellipse_5.png"]

  const DefaultAvatarFile := "Ellipse_1.png"

  /** `avatarMap[user.avatar] || "Ellipse_1.png"`. */
  function AvatarFile(avatar: string): (file: string)
    ensures avatar in Validations.AvatarNames ==> file == avatar + ".png"
    ensures avatar !in Validations.AvatarNames ==> file == DefaultAvatarFile
  {
    if avatar in AvatarFiles && AvatarFiles[avatar] != "" then AvatarFiles[avatar] else DefaultAvatarFile
  }

  /** `rows.map((user, index) => ...)`, for rows that start at position `offset`. */
  function Entries(rows: seq<UserRow>, offset: nat): (r: seq<Entry>)
    ensures |r| == |rows|
    ensures forall i :: 0 <= i < |rows| ==>
      r[i] == Entry(offset + i + 1, rows[i].id, rows[i].username, AvatarFile(rows[i].avatar), rows[i].level, rows[i].xp)
  {
    if rows == [] then []
    else
      var first := rows[0];
      [Entry(offset + 1, first.id, first.username, AvatarFile(first.avatar), first.level, first.xp)]
      + Entries(rows[1..], offset + 1)
  }

  /** The response body's `leaderboard` array. */
  function GetLeaderboard(users: seq<UserRow>): (lb: seq<Entry>)
    ensures |lb| == Min(PageSize, |users|)
    ensures forall i :: 0 <= i < |lb| ==> lb[i].rank == i + 1
    ensures forall i :: 0 <= i < |lb| ==> lb[i].avatar == AvatarFile(TopUsers(users)[i].avatar)
  {
    Entries(TopUsers(users), 0)
  }

  /**
   * The leaderboard has min(50, n) entries, each copied from a user row and
   * numbered by its position, in order of level then XP, descending.
   */
  lemma LeaderboardShape(users: seq<UserRow>)
    ensures var lb := GetLeaderboard(users);
      && |lb| == Min(PageSize, |users|)
      && (forall i :: 0 <= i < |lb| ==> lb[i].rank == i + 1)
      && (forall i :: 0 <= i < |lb| ==>
            UserRow(lb[i].id, lb[i].username, TopUsers(users)[i].avatar, lb[i].level, lb[i].xp) in users)
      && (forall i, j :: 0 <= i < j < |lb| ==>
            lb[i].level > lb[j].level || (lb[i].level == lb[j].level && lb[i].xp >= lb[j].xp))
  {
    var top := TopUsers(users);
    forall i | 0 <= i < |top| ensures top[i] in users {
      assert top[i] in multiset(top);
    }
  }
}
