/** `GET /api/rewards/:discordUserId?`: the reward history, optionally
    restricted to one user, `ORDER BY created_at DESC`. */
module History {
  import opened JsValues
  import opened Ledger

  /** The rows the query's WHERE clause admits: all of them, or those whose
      discord_user_id column equals the (truthy) route parameter. */
  function Selected(l: Ledger, user: Option<string>): set<Record> {
    set k | k in l.rows && (Truthy(user) ==> l.rows[k].discordUserId == user.value) :: l.rows[k]
  }

  predicate NewestFirst(s: seq<Record>) {
    forall i, j :: 0 <= i < j < |s| ==> s[i].createdAt >= s[j].createdAt
  }

  predicate NoDuplicates(s: seq<Record>) {
    forall i, j :: 0 <= i < j < |s| ==> s[i] != s[j]
  }

  /** Place one row into a newest-first listing, ahead of rows with the same
      timestamp (SQL leaves the order of ties unspecified). */
  function InsertNewestFirst(s: seq<Record>, rec: Record): (r: seq<Record>)
    requires NewestFirst(s)
    ensures NewestFirst(r)
    ensures multiset(r) == multiset(s) + multiset{rec}
    ensures forall x :: x in r <==> x == rec || x in s
    ensures |r| == |s| + 1
  {
    if s == [] || rec.createdAt >= s[0].createdAt then
      ConsNewestFirst(rec, s);
      [rec] + s
    else
      var tail := InsertNewestFirst(s[1..], rec);
      assert s == [s[0]] + s[1..];
      assert forall i :: 0 <= i < |tail| ==> tail[i] in tail;
      ConsNewestFirst(s[0], tail);
      [s[0]] + tail
  }

  lemma ConsNewestFirst(h: Record, t: seq<Record>)
    requires NewestFirst(t)
    requires forall i :: 0 <= i < |t| ==> t[i].createdAt <= h.createdAt
    ensures NewestFirst([h] + t)
  {
  }

  /** The history listing: exactly the selected rows, each once, newest
      first. It reads the ledger and returns no new ledger. */
  method ListRewards(l: Ledger, user: Option<string>) returns (out: seq<Record>)
    ensures forall rec :: rec in out <==> rec in Selected(l, user)
    ensures NoDuplicates(out)
    ensures NewestFirst(out)
    ensures |out| == |Selected(l, user)|
  {
    var todo := Selected(l, user);
    out := [];
    while todo != {}
      invariant forall rec :: rec in Selected(l, user) <==> rec in todo || rec in out
      invariant forall rec :: rec in out ==> rec !in todo
      invariant NoDuplicates(out)
      invariant NewestFirst(out)
      invariant |out| + |todo| == |Selected(l, user)|
      decreases |todo|
    {
      var rec :| rec in todo;
      var next := InsertNewestFirst(out, rec);
      forall i, j | 0 <= i < j < |next|
        ensures next[i] != next[j]
      {
        DistinctAfterInsert(out, rec, next, i, j);
      }
      out := next;
      todo := todo - {rec};
    }
  }

  /** Inserting a row that is not yet listed keeps the listing free of
      duplicates. */
  lemma DistinctAfterInsert(s: seq<Record>, rec: Record, r: seq<Record>, i: int, j: int)
    requires NoDuplicates(s) && rec !in s
    requires multiset(r) == multiset(s) + multiset{rec}
    requires 0 <= i < j < |r|
    ensures r[i] != r[j]
  {
    if r[i] == r[j] {
      assert multiset(r)[r[i]] >= 2 by {
        assert r == r[..i] + [r[i]] + r[i + 1..j] + [r[j]] + r[j + 1..];
      }
      DistinctCount(s, r[i]);
      assert false;
    }
  }

  /** In a listing without duplicates every row occurs at most once. */
  lemma {:induction false} DistinctCount(s: seq<Record>, x: Record)
    requires NoDuplicates(s)
    ensures multiset(s)[x] <= 1
    ensures x !in s ==> multiset(s)[x] == 0
  {
    if s != [] {
      assert s == [s[0]] + s[1..];
      DistinctCount(s[1..], x);
    }
  }
}
