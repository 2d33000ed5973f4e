/** The `rewards` table: one row per claim, with an AUTOINCREMENT id and a
    UNIQUE(discord_user_id, role_id) constraint. The table is a map keyed
    by that pair, so the storage engine's uniqueness guard is the map's
    own key discipline. */
module Ledger {
  import opened JsValues

  /** (discord_user_id, role_id), the columns of the UNIQUE constraint. */
  type Key = (string, string)

  /** Stand-in stored when no Bazar profile id was supplied. */
  const DirectToWallet: string := "DIRECT_TO_WALLET"

  /** A stored row. `createdAt` is the CURRENT_TIMESTAMP default, supplied
      as a number; `confirmedAt` is never written by the backend. */
  datatype Record = Record(
    id: nat,
    discordUserId: string,
    walletAddress: string,
    bazarProfileId: string,
    roleId: string,
    assetId: string,
    txId: string,
    amount: string,
    token: string,
    createdAt: nat,
    confirmedAt: Option<nat>)

  /** The `data` object handed to `saveRewardRecord`; any field may be
      `undefined`, which SQLite binds as NULL. */
  datatype NewReward = NewReward(
    discordUserId: Option<string>,
    walletAddress: Option<string>,
    bazarProfileId: Option<string>,
    roleId: Option<string>,
    assetId: Option<string>,
    txId: Option<string>,
    amount: Option<string>,
    token: Option<string>)

  datatype InsertError = NotNullViolation | UniqueViolation

  /** `lastId` is the AUTOINCREMENT high-water mark. */
  datatype Ledger = Ledger(rows: map<Key, Record>, lastId: nat)

  const Empty: Ledger := Ledger(map[], 0)

  /** The freshly created table satisfies the schema invariant. */
  lemma EmptyValid()
    ensures Valid(Empty) && AtMostOnePerPair(Empty)
  {
  }

  /** What the schema guarantees of every table state: each row sits under
      its own (user, role) key and ids are assigned, distinct and at most
      the high-water mark. */
  ghost predicate Valid(l: Ledger) {
    && (forall k :: k in l.rows ==>
          && l.rows[k].discordUserId == k.0
          && l.rows[k].roleId == k.1
          && 1 <= l.rows[k].id <= l.lastId)
    && (forall k1, k2 :: k1 in l.rows && k2 in l.rows && k1 != k2 ==>
          l.rows[k1].id != l.rows[k2].id)
  }

  /** The system's one invariant: no two rows share (user, role). */
  ghost predicate AtMostOnePerPair(l: Ledger) {
    forall a, b ::
      (a in l.rows.Values && b in l.rows.Values &&
       a.discordUserId == b.discordUserId && a.roleId == b.roleId) ==> a == b
  }

  /** Every NOT NULL column of the insert has a value. */
  predicate Complete(d: NewReward) {
    && d.discordUserId.Some? && d.walletAddress.Some? && d.roleId.Some?
    && d.assetId.Some? && d.txId.Some? && d.amount.Some? && d.token.Some?
  }

  /** `checkExistingReward(discordUserId, roleId)`: the row matching both
      columns, if any. A read: the ledger is not part of the result. */
  function CheckExistingReward(l: Ledger, discordUserId: string, roleId: string): (r: Option<Record>)
    ensures Valid(l) ==>
      (r.Some? <==> exists rec :: rec in l.rows.Values &&
                     rec.discordUserId == discordUserId && rec.roleId == roleId)
    ensures Valid(l) && r.Some? ==>
      r.value in l.rows.Values && r.value.discordUserId == discordUserId && r.value.roleId == roleId
  {
    var k := (discordUserId, roleId);
    if k in l.rows then Some(l.rows[k]) else None
  }

  /** `saveRewardRecord(data)`: INSERT that resolves with the new row id or
      rejects on a NOT NULL or UNIQUE violation. A missing or empty profile
      id is stored as DIRECT_TO_WALLET. */
  function SaveRewardRecord(l: Ledger, d: NewReward, now: nat): (r: Result<(Ledger, nat), InsertError>)
    ensures r.Err? && r.error == NotNullViolation <==> !Complete(d)
    ensures r.Err? && r.error == UniqueViolation <==>
      Complete(d) && (d.discordUserId.value, d.roleId.value) in l.rows
    ensures r.Ok? ==>
      var (l', id) := r.value;
      var k := (d.discordUserId.value, d.roleId.value);
      && k !in l.rows
      && l'.rows.Keys == l.rows.Keys + {k}
      && (forall k' :: k' in l.rows ==> l'.rows[k'] == l.rows[k'])
      && l'.rows[k] == Record(id, d.discordUserId.value, d.walletAddress.value,
                              OrElse(d.bazarProfileId, DirectToWallet), d.roleId.value,
                              d.assetId.value, d.txId.value, d.amount.value, d.token.value,
                              now, None)
      && |l'.rows| == |l.rows| + 1
      && id == l.lastId + 1 && l'.lastId == id
  {
    if !Complete(d) then Err(NotNullViolation)
    else
      var k := (d.discordUserId.value, d.roleId.value);
      if k in l.rows then Err(UniqueViolation)
      else
        var id := l.lastId + 1;
        var rec := Record(id, d.discordUserId.value, d.walletAddress.value,
                          OrElse(d.bazarProfileId, DirectToWallet), d.roleId.value,
                          d.assetId.value, d.txId.value, d.amount.value, d.token.value,
                          now, None);
        Ok((Ledger(l.rows[k := rec], id), id))
  }

  /** An accepted insert keeps the schema invariant: the new row gets an
      id above every existing one. */
  lemma SaveKeepsValid(l: Ledger, d: NewReward, now: nat)
    ensures Valid(l) && SaveRewardRecord(l, d, now).Ok? ==>
      var (l', id) := SaveRewardRecord(l, d, now).value;
      Valid(l') && forall k :: k in l.rows ==> l.rows[k].id < id
  {
    if Valid(l) && SaveRewardRecord(l, d, now).Ok? {
      var (l', id) := SaveRewardRecord(l, d, now).value;
      var k := (d.discordUserId.value, d.roleId.value);
      assert l'.rows == l.rows[k := l'.rows[k]];
      assert l'.lastId == id == l.lastId + 1;
      forall k1 | k1 in l'.rows
        ensures l'.rows[k1].discordUserId == k1.0 && l'.rows[k1].roleId == k1.1
        ensures 1 <= l'.rows[k1].id <= l'.lastId
      {
      }
      forall k1, k2 | k1 in l'.rows && k2 in l'.rows && k1 != k2
        ensures l'.rows[k1].id != l'.rows[k2].id
      {
        if k1 != k && k2 != k {
          assert l'.rows[k1] == l.rows[k1] && l'.rows[k2] == l.rows[k2];
        }
      }
    }
  }

  /** The schema invariant implies the uniqueness invariant. */
  lemma ValidIsUnique(l: Ledger)
    requires Valid(l)
    ensures AtMostOnePerPair(l)
  {
    forall a, b | a in l.rows.Values && b in l.rows.Values &&
      a.discordUserId == b.discordUserId && a.roleId == b.roleId
      ensures a == b
    {
      var ka :| ka in l.rows && l.rows[ka] == a;
      var kb :| kb in l.rows && l.rows[kb] == b;
      assert ka == kb;
    }
  }

  /** Apply a sequence of inserts, one per (data, timestamp), keeping the
      ledger unchanged when an insert is rejected. */
  function ApplyInserts(l: Ledger, ops: seq<(NewReward, nat)>): Ledger
    decreases |ops|
  {
    if ops == [] then l
    else
      var next := match SaveRewardRecord(l, ops[0].0, ops[0].1)
        case Ok((l', _)) => l'
        case Err(_) => l;
      ApplyInserts(next, ops[1..])
  }

  /** Every table reachable by inserts satisfies the schema invariant:
      rejected inserts leave the table alone, accepted ones keep it. */
  lemma {:induction false} InsertsKeepValid(l: Ledger, ops: seq<(NewReward, nat)>)
    requires Valid(l)
    ensures Valid(ApplyInserts(l, ops))
    decreases |ops|
  {
    if ops != [] {
      SaveKeepsValid(l, ops[0].0, ops[0].1);
      match SaveRewardRecord(l, ops[0].0, ops[0].1)
      case Ok((l', _)) => InsertsKeepValid(l', ops[1..]);
      case Err(_) => InsertsKeepValid(l, ops[1..]);
    }
  }

  /** Whatever inserts arrive, in whatever order, the table never holds two
      rows for the same (user, role). */
  lemma InsertsKeepUnique(l: Ledger, ops: seq<(NewReward, nat)>)
    requires Valid(l)
    ensures AtMostOnePerPair(ApplyInserts(l, ops))
  {
    InsertsKeepValid(l, ops);
    ValidIsUnique(ApplyInserts(l, ops));
  }

  /** A second insert for a pair already present is rejected, so the
      ledger keeps the first row. */
  lemma DuplicateRejected(l: Ledger, d: NewReward, now: nat, prior: Record)
    requires Valid(l) && Complete(d)
    requires prior in l.rows.Values
    requires prior.discordUserId == d.discordUserId.value && prior.roleId == d.roleId.value
    ensures SaveRewardRecord(l, d, now) == Err(UniqueViolation)
    ensures CheckExistingReward(l, d.discordUserId.value, d.roleId.value) == Some(prior)
  {
    var k :| k in l.rows && l.rows[k] == prior;
  }
}
