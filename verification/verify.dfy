/** `POST /api/verify-and-reward`: the claim orchestrator. Every outbound
    call is an input (`Env`), and the handler is a pure function from the
    ledger and the request to the new ledger, the outcome and the effects
    it performed, in order. */
module Verify {
  import opened JsValues
  import opened Catalog
  import opened Ledger
  import opened Roles

  /** The text the catch block looks for in an error's message to treat
      it as a duplicate claim. */
  const UniqueFailure: string := "UNIQUE constraint failed"

  /** The AO process the transfer message is addressed to. */
  const TransferProcess: string := "a2U7UBrMaI0uVzhhbOfUzuyuyIVTcsRVmI_B26nRwrw"

  /** The request body; `eligibleRoles` is the client's copy of the table. */
  datatype VerifyRequest = VerifyRequest(
    discordUserId: Option<string>,
    walletAddress: Option<string>,
    bazarProfileId: Option<string>,
    roleId: Option<string>,
    eligibleRoles: Option<Catalog>)

  /** The `Run-Action` message forwarding a `Transfer`: its Target and
      ForwardTo tags both carry `target`, and Quantity is the literal "1". */
  datatype Transfer = Transfer(processId: string, target: Option<string>, recipient: string, quantity: string)

  /** The guild-member lookup: the member's roles, or a failure with the
      HTTP status of its response, if any. */
  datatype MemberReply = MemberRoles(roles: seq<string>) | MemberLookupFailed(status: Option<int>)

  /** `permaweb.sendMessage`: the value it resolved with, or a rejection. */
  datatype TransferReply = Sent(txId: Option<string>) | SendFailed(message: string)

  /** The world the handler runs in: the process-wide signer and Permaweb
      handles, the asset-id environment variables, the replies of the
      remote calls, storage faults, an insert by a concurrent request that
      lands between the duplicate check and the save, and the clock. */
  datatype Env = Env(
    signer: bool,
    permaweb: bool,
    assets: AssetIds,
    member: MemberReply,
    transfer: TransferReply,
    readFault: bool,
    race: Option<NewReward>,
    writeFault: bool,
    now: nat)

  /** What raised the exception that the catch block reports as
      DATABASE_ERROR. */
  datatype Fault =
    | MemberLookup          // the guild-member request rejected (404 included)
    | UnknownRole           // `rewardConfig.assetId` on an undefined `rewardConfig`
    | ExistingCheck         // the duplicate-check query failed
    | PermawebMissing       // `permaweb.sendMessage` on a null handle
    | TransferCall          // the transfer call rejected
    | NullColumn            // the save hit a NOT NULL constraint
    | SaveFault             // the save failed for another storage reason

  datatype RewardDetails = RewardDetails(roleName: string, token: string, tokenDisplayName: string, amount: string)

  /** The `reward` object of a successful response. */
  datatype Receipt = Receipt(
    txId: string,
    amount: string,
    token: string,
    roleName: string,
    roleId: string,
    recipient: string,
    walletAddress: string,
    assetId: string,
    timestamp: nat,
    confirmed: bool)

  datatype Outcome =
    | MissingFields
    | MissingProfileId
    | WalletNotInitialized
    | NoEligibleRole
    | AlreadyClaimed(claimDate: nat, transactionId: string, details: RewardDetails)
    | Rewarded(reward: Receipt)
    | DatabaseError(fault: Fault)
    | Unanswered
  {
    /** HTTP status; None when the handler never responds. */
    function Status(): Option<int> {
      match this
      case MissingFields => Some(400)
      case MissingProfileId => Some(400)
      case WalletNotInitialized => Some(500)
      case DatabaseError(_) => Some(500)
      case Unanswered => None
      case _ => Some(200)
    }
  }

  /** Externally visible effects of one request, in the order performed. */
  datatype Effect = SendTransfer(transfer: Transfer) | InsertClaim(key: Key)

  datatype Response = Response(ledger: Ledger, outcome: Outcome, effects: seq<Effect>)

  function Transfers(effects: seq<Effect>): (ts: seq<Transfer>)
    ensures |ts| <= |effects|
    ensures forall t :: t in ts <==> SendTransfer(t) in effects
  {
    if effects == [] then []
    else
      (if effects[0].SendTransfer? then [effects[0].transfer] else []) + Transfers(effects[1..])
  }

  /** The first three gates pass: user id and wallet, profile id, signer. */
  predicate InputsAccepted(req: VerifyRequest, env: Env) {
    Truthy(req.discordUserId) && Truthy(req.walletAddress) && Truthy(req.bazarProfileId) && env.signer
  }

  /** The validated request fields a claim is made with. */
  datatype Claimant = Claimant(user: string, wallet: string, profile: string)

  function ClaimantOf(req: VerifyRequest): Claimant
    requires Truthy(req.discordUserId) && Truthy(req.walletAddress) && Truthy(req.bazarProfileId)
  {
    Claimant(req.discordUserId.value, req.walletAddress.value, req.bazarProfileId.value)
  }

  /** The role the handler settles on, once the member lookup succeeded. */
  function SelectedRole(req: VerifyRequest, env: Env): Option<string>
    requires env.member.MemberRoles?
  {
    VerifySelect(Keys(RoleTable(req.eligibleRoles, env.assets)), env.member.roles, req.roleId)
  }

  /** The server-side descriptor the transfer and the record are built from. */
  function ServerReward(env: Env, role: string): Option<Reward> {
    Lookup(ServerCatalog(env.assets), role)
  }

  /** The single transfer a claim sends. */
  function ClaimTransfer(c: Claimant, reward: Reward): Transfer {
    Transfer(TransferProcess, reward.assetId, c.profile, "1")
  }

  /** The ledger as the save finds it: the concurrent insert, if any, has
      landed (or was itself rejected). */
  function LedgerAtSave(l: Ledger, env: Env): (l': Ledger)
    ensures forall k :: k in l.rows ==> k in l'.rows && l'.rows[k] == l.rows[k]
    ensures Valid(l) ==> Valid(l')
    ensures env.race.None? ==> l' == l
  {
    if env.race.None? then l
    else
      match SaveRewardRecord(l, env.race.value, env.now)
      case Ok((l', _)) =>
        SaveKeepsValid(l, env.race.value, env.now);
        l'
      case Err(_) => l
  }

  /** Responses that end before the transfer: nothing sent, nothing stored. */
  predicate EndsBeforeTransfer(o: Outcome) {
    || o.MissingFields? || o.MissingProfileId? || o.WalletNotInitialized?
    || o.NoEligibleRole? || o.AlreadyClaimed?
    || (o.DatabaseError? &&
        (o.fault.MemberLookup? || o.fault.UnknownRole? || o.fault.ExistingCheck? || o.fault.PermawebMissing?))
  }

  /** Common guarantees of the handler's later stages: stored rows are
      never altered or removed, and the schema invariant is kept. */
  ghost predicate Keeps(l: Ledger, r: Response) {
    && (forall k :: k in l.rows ==> k in r.ledger.rows && r.ledger.rows[k] == l.rows[k])
    && (Valid(l) ==> Valid(r.ledger))
  }

  lemma KeepsChain(l: Ledger, l1: Ledger, r: Response)
    requires forall k :: k in l.rows ==> k in l1.rows && l1.rows[k] == l.rows[k]
    requires Valid(l) ==> Valid(l1)
    requires Keeps(l1, r)
    ensures Keeps(l, r)
  {
  }

  lemma TransfersOfClaim(t: Transfer, k: Key)
    ensures Transfers([SendTransfer(t)]) == [t]
    ensures Transfers([SendTransfer(t), InsertClaim(k)]) == [t]
  {
    assert [SendTransfer(t)][1..] == [];
    assert [SendTransfer(t), InsertClaim(k)][1..] == [InsertClaim(k)];
    assert [InsertClaim(k)][1..] == [];
  }

  /** The save of the handler's own row, once the transfer returned. */
  function SaveClaim(l: Ledger, c: Claimant, env: Env, role: string, rc: Reward,
                     t: Transfer, txId: Option<string>): (r: Response)
    ensures Keeps(l, r)
    ensures Transfers(r.effects) == [t] && r.effects[0] == SendTransfer(t)
    ensures !EndsBeforeTransfer(r.outcome)
    // a reward: the row holds the request's columns and the catalog's, and
    // the receipt repeats them
    ensures r.outcome.Rewarded? ==>
      var k := (c.user, role);
      && k !in l.rows && k in r.ledger.rows
      && r.effects == [SendTransfer(t), InsertClaim(k)]
      && rc.assetId.Some? && txId.Some?
      && r.ledger.rows.Keys == l.rows.Keys + {k}
      && r.ledger.rows[k] == Record(r.ledger.rows[k].id, c.user, c.wallet,
                                    OrElse(Some(c.profile), DirectToWallet), role, rc.assetId.value,
                                    txId.value, rc.amount, rc.token, env.now, None)
      && r.outcome.reward == Receipt(txId.value, rc.amount, rc.token, rc.name, role,
                                     c.profile, c.wallet, rc.assetId.value, env.now, false)
    ensures !r.outcome.Rewarded? ==> r.effects == [SendTransfer(t)] && r.ledger == l
  {
    TransfersOfClaim(t, (c.user, role));
    var row := NewReward(Some(c.user), Some(c.wallet), Some(c.profile),
                         Some(role), rc.assetId, txId, Some(rc.amount), Some(rc.token));
    var saved := SaveRewardRecord(l, row, env.now);
    if saved.Err? then
      Response(l, if saved.error == NotNullViolation then DatabaseError(NullColumn) else Unanswered,
               [SendTransfer(t)])
    else
      var l2 := saved.value.0;
      SaveKeepsValid(l, row, env.now);
      var receipt := Receipt(txId.value, rc.amount, rc.token, rc.name, role,
                             c.profile, c.wallet, rc.assetId.value, env.now, false);
      Response(l2, Rewarded(receipt), [SendTransfer(t), InsertClaim((c.user, role))])
  }

  /** After the transfer returned: the concurrent insert (if any) lands,
      then the handler saves its own row. */
  function Persist(l: Ledger, c: Claimant, env: Env, role: string, rc: Reward,
                   t: Transfer, txId: Option<string>): (r: Response)
    ensures Keeps(l, r)
    ensures Transfers(r.effects) == [t] && r.effects[0] == SendTransfer(t)
    ensures !EndsBeforeTransfer(r.outcome)
    ensures r.outcome.Rewarded? ==>
      var k := (c.user, role);
      && k !in l.rows && k in r.ledger.rows
      && r.ledger.rows.Keys == LedgerAtSave(l, env).rows.Keys + {k}
      && r.effects == [SendTransfer(t), InsertClaim(k)]
      && r.ledger.rows[k].txId == r.outcome.reward.txId
      && r.ledger.rows[k].amount == rc.amount && r.ledger.rows[k].token == rc.token
      && r.ledger.rows[k].walletAddress == c.wallet && r.outcome.reward.walletAddress == c.wallet
      && rc.assetId.Some? && r.ledger.rows[k].assetId == rc.assetId.value
      && r.outcome.reward == Receipt(r.ledger.rows[k].txId, rc.amount, rc.token, rc.name, role,
                                     c.profile, c.wallet, rc.assetId.value, env.now, false)
      && (forall k' :: k' in LedgerAtSave(l, env).rows ==> r.ledger.rows[k'] == LedgerAtSave(l, env).rows[k'])
      && r.outcome.reward.roleId == role
      && !r.outcome.reward.confirmed
    ensures env.writeFault ==>
      r == Response(LedgerAtSave(l, env), DatabaseError(SaveFault), [SendTransfer(t)])
  {
    var l1 := LedgerAtSave(l, env);
    if env.writeFault then
      TransfersOfClaim(t, (c.user, role));
      Response(l1, DatabaseError(SaveFault), [SendTransfer(t)])
    else
      var r := SaveClaim(l1, c, env, role, rc, t, txId);
      KeepsChain(l, l1, r);
      r
  }

  /** After the duplicate check found nothing: send the transfer. */
  function Send(l: Ledger, c: Claimant, env: Env, role: string, rc: Reward): (r: Response)
    ensures Keeps(l, r)
    ensures Transfers(r.effects) == [] || Transfers(r.effects) == [ClaimTransfer(c, rc)]
    ensures EndsBeforeTransfer(r.outcome) ==> r.effects == [] && r.ledger == l
    ensures !EndsBeforeTransfer(r.outcome) ==>
      |r.effects| >= 1 && r.effects[0] == SendTransfer(ClaimTransfer(c, rc))
    ensures r.outcome.Rewarded? ==>
      var k := (c.user, role);
      && k !in l.rows && k in r.ledger.rows
      && r.ledger.rows.Keys == LedgerAtSave(l, env).rows.Keys + {k}
      && r.effects == [SendTransfer(ClaimTransfer(c, rc)), InsertClaim(k)]
      && r.ledger.rows[k].amount == rc.amount && r.ledger.rows[k].token == rc.token
      && r.ledger.rows[k].txId == r.outcome.reward.txId
      && r.ledger.rows[k].walletAddress == c.wallet && r.outcome.reward.walletAddress == c.wallet
      && rc.assetId.Some? && r.ledger.rows[k].assetId == rc.assetId.value
      && r.outcome.reward == Receipt(r.ledger.rows[k].txId, rc.amount, rc.token, rc.name, role,
                                     c.profile, c.wallet, rc.assetId.value, env.now, false)
      && (forall k' :: k' in LedgerAtSave(l, env).rows ==> r.ledger.rows[k'] == LedgerAtSave(l, env).rows[k'])
      && r.outcome.reward.roleId == role
      && !r.outcome.reward.confirmed
    ensures !r.outcome.AlreadyClaimed? && !r.outcome.NoEligibleRole?
    ensures !env.permaweb ==> r == Response(l, DatabaseError(PermawebMissing), [])
    // the catch block tells errors apart by their text alone
    ensures env.permaweb && env.transfer.SendFailed? ==>
      r == Response(l, if Includes(env.transfer.message, UniqueFailure) then Unanswered
                       else DatabaseError(TransferCall),
                    [SendTransfer(ClaimTransfer(c, rc))])
  {
    if !env.permaweb then Response(l, DatabaseError(PermawebMissing), [])
    else
      var t := ClaimTransfer(c, rc);
      match env.transfer
      case SendFailed(msg) =>
        TransfersOfClaim(t, (c.user, role));
        Response(l, if Includes(msg, UniqueFailure) then Unanswered else DatabaseError(TransferCall),
                 [SendTransfer(t)])
      case Sent(txId) => Persist(l, c, env, role, rc, t, txId)
  }

  /** Once a role is chosen: catalog, duplicate check, then the transfer. */
  function Settle(l: Ledger, c: Claimant, env: Env, role: string): (r: Response)
    ensures Keeps(l, r)
    ensures EndsBeforeTransfer(r.outcome) ==> r.effects == [] && r.ledger == l
    ensures Transfers(r.effects) != [] ==>
      && ServerReward(env, role).Some?
      && Transfers(r.effects) == [ClaimTransfer(c, ServerReward(env, role).value)]
    ensures r.outcome.Rewarded? ==>
      var k := (c.user, role);
      && ServerReward(env, role).Some? && r.outcome.reward.roleId == role
      && k !in l.rows && k in r.ledger.rows
      && r.ledger.rows.Keys == LedgerAtSave(l, env).rows.Keys + {k}
      && r.effects == [SendTransfer(ClaimTransfer(c, ServerReward(env, role).value)), InsertClaim(k)]
      && r.ledger.rows[k].amount == ServerReward(env, role).value.amount
      && r.ledger.rows[k].token == ServerReward(env, role).value.token
      && r.ledger.rows[k].txId == r.outcome.reward.txId
      && r.ledger.rows[k].walletAddress == c.wallet && r.outcome.reward.walletAddress == c.wallet
      && ServerReward(env, role).value.assetId.Some?
      && r.ledger.rows[k].assetId == ServerReward(env, role).value.assetId.value
      && !r.outcome.reward.confirmed
      && var rc := ServerReward(env, role).value;
      && r.outcome.reward == Receipt(r.ledger.rows[k].txId, rc.amount, rc.token, rc.name, role,
                                     c.profile, c.wallet, rc.assetId.value, env.now, false)
      && (forall k' :: k' in LedgerAtSave(l, env).rows ==> r.ledger.rows[k'] == LedgerAtSave(l, env).rows[k'])
    ensures ServerReward(env, role).None? ==> r == Response(l, DatabaseError(UnknownRole), [])
    ensures ServerReward(env, role).Some? && env.readFault ==>
      r == Response(l, DatabaseError(ExistingCheck), [])
    ensures r.outcome.AlreadyClaimed? ==>
      && (c.user, role) in l.rows
      && l.rows[(c.user, role)].txId == r.outcome.transactionId
      && l.rows[(c.user, role)].createdAt == r.outcome.claimDate
    ensures !r.outcome.NoEligibleRole?
  {
    match ServerReward(env, role)
    case None => Response(l, DatabaseError(UnknownRole), [])
    case Some(rc) =>
      if env.readFault then Response(l, DatabaseError(ExistingCheck), [])
      else
        match CheckExistingReward(l, c.user, role)
        case Some(prior) =>
          Response(l, AlreadyClaimed(prior.createdAt, prior.txId,
                                     RewardDetails(rc.name, rc.token, rc.tokenDisplayName, rc.amount)), [])
        case None => Send(l, c, env, role, rc)
  }

  /** The handler after its three input gates: re-check the member's roles
      and choose one. */
  function Claim(l: Ledger, req: VerifyRequest, env: Env): (r: Response)
    requires InputsAccepted(req, env)
  {
    match env.member
    case MemberLookupFailed(_) => Response(l, DatabaseError(MemberLookup), [])
    case MemberRoles(roles) =>
      match SelectedRole(req, env)
      case None => Response(l, NoEligibleRole, [])
      case Some(role) => Settle(l, ClaimantOf(req), env, role)
  }

  /** The whole handler. */
  function VerifyAndReward(l: Ledger, req: VerifyRequest, env: Env): (r: Response)
    // the gates, in order
    ensures r.outcome.MissingFields? <==> !Truthy(req.discordUserId) || !Truthy(req.walletAddress)
    ensures r.outcome.MissingProfileId? <==>
      Truthy(req.discordUserId) && Truthy(req.walletAddress) && !Truthy(req.bazarProfileId)
    ensures r.outcome.WalletNotInitialized? <==>
      Truthy(req.discordUserId) && Truthy(req.walletAddress) && Truthy(req.bazarProfileId) && !env.signer
    ensures r.outcome.NoEligibleRole? <==>
      InputsAccepted(req, env) && env.member.MemberRoles? && SelectedRole(req, env).None?
    // an early exit sends nothing and stores nothing
    ensures EndsBeforeTransfer(r.outcome) ==> r.effects == [] && r.ledger == l
    ensures Keeps(l, r)
    // at most one transfer: to the profile, for the server catalog's asset
    ensures Transfers(r.effects) != [] ==>
      && InputsAccepted(req, env) && env.member.MemberRoles?
      && SelectedRole(req, env).Some?
      && ServerReward(env, SelectedRole(req, env).value).Some?
      && Transfers(r.effects) ==
           [Transfer(TransferProcess, ServerReward(env, SelectedRole(req, env).value).value.assetId,
                     req.bazarProfileId.value, "1")]
    // a reward is sent, then recorded, for a pair not yet in the ledger
    ensures r.outcome.Rewarded? ==>
      var k := (req.discordUserId.value, r.outcome.reward.roleId);
      && InputsAccepted(req, env) && env.member.MemberRoles?
      && SelectedRole(req, env) == Some(k.1) && ServerReward(env, k.1).Some?
      && k !in l.rows && k in r.ledger.rows
      && r.ledger.rows.Keys == LedgerAtSave(l, env).rows.Keys + {k}
      && r.effects == [SendTransfer(ClaimTransfer(ClaimantOf(req), ServerReward(env, k.1).value)),
                       InsertClaim(k)]
      && r.ledger.rows[k].amount == ServerReward(env, k.1).value.amount
      && r.ledger.rows[k].token == ServerReward(env, k.1).value.token
      && r.ledger.rows[k].txId == r.outcome.reward.txId
      && r.ledger.rows[k].walletAddress == req.walletAddress.value
      && r.ledger.rows[k].bazarProfileId == req.bazarProfileId.value
      && ServerReward(env, k.1).value.assetId.Some?
      && r.ledger.rows[k].assetId == ServerReward(env, k.1).value.assetId.value
      && r.outcome.reward.walletAddress == req.walletAddress.value
      && !r.outcome.reward.confirmed
    // a prior claim is reported from its stored row
    ensures r.outcome.AlreadyClaimed? ==>
      && InputsAccepted(req, env) && env.member.MemberRoles? && SelectedRole(req, env).Some?
      && var k := (req.discordUserId.value, SelectedRole(req, env).value);
      && k in l.rows
      && l.rows[k].txId == r.outcome.transactionId
      && l.rows[k].createdAt == r.outcome.claimDate
  {
    if !Truthy(req.discordUserId) || !Truthy(req.walletAddress) then Response(l, MissingFields, [])
    else if !Truthy(req.bazarProfileId) then Response(l, MissingProfileId, [])
    else if !env.signer then Response(l, WalletNotInitialized, [])
    else Claim(l, req, env)
  }

  /** Scenario of a first claim: with every service healthy and no prior
      row, the claim is sent and recorded with the server catalog's amount
      and token. */
  lemma FirstClaimRewarded(l: Ledger, req: VerifyRequest, env: Env, role: string, tx: string)
    requires InputsAccepted(req, env) && env.permaweb
    requires env.member.MemberRoles? && SelectedRole(req, env) == Some(role)
    requires ServerReward(env, role).Some? && ServerReward(env, role).value.assetId.Some?
    requires !env.readFault && !env.writeFault && env.race.None?
    requires env.transfer == Sent(Some(tx))
    requires (req.discordUserId.value, role) !in l.rows
    ensures var r := VerifyAndReward(l, req, env);
      && r.outcome.Rewarded? && r.outcome.reward.txId == tx && r.outcome.reward.roleId == role
      && r.ledger.rows[(req.discordUserId.value, role)].txId == tx
  {
  }

  /** A retry after a recorded claim of the same role is answered from the
      stored row: no transfer, no change to the ledger. */
  lemma RetryIsAlreadyClaimed(l: Ledger, req: VerifyRequest, env: Env, prior: Record)
    requires Valid(l)
    requires InputsAccepted(req, env) && env.member.MemberRoles? && !env.readFault
    requires SelectedRole(req, env) == Some(prior.roleId)
    requires ServerReward(env, prior.roleId).Some?
    requires prior in l.rows.Values && prior.discordUserId == req.discordUserId.value
    ensures var r := VerifyAndReward(l, req, env);
      && r.outcome == AlreadyClaimed(prior.createdAt, prior.txId,
           var rc := ServerReward(env, prior.roleId).value;
           RewardDetails(rc.name, rc.token, rc.tokenDisplayName, rc.amount))
      && r.effects == [] && r.ledger == l
  {
    var k :| k in l.rows && l.rows[k] == prior;
    assert k == (prior.discordUserId, prior.roleId);
  }

  /** The caller's `eligibleRoles` only steers eligibility through its keys:
      two requests that differ in the values of that object get the same
      response, so money-moving parameters come from the server table. */
  lemma CatalogAuthority(l: Ledger, req: VerifyRequest, env: Env, other: Catalog)
    requires req.eligibleRoles.Some? && Keys(req.eligibleRoles.value) == Keys(other)
    ensures VerifyAndReward(l, req, env) == VerifyAndReward(l, req.(eligibleRoles := Some(other)), env)
  {
  }

  /** How the save's own outcome is decided: a NULL asset id or transfer id
      breaks a NOT NULL column (500); a pair already present breaks UNIQUE,
      and the catch block then never answers; otherwise the claim is
      rewarded. */
  lemma SaveClaimOutcome(l: Ledger, c: Claimant, env: Env, role: string, rc: Reward,
                         t: Transfer, txId: Option<string>)
    ensures var o := SaveClaim(l, c, env, role, rc, t, txId).outcome;
      && (o == DatabaseError(NullColumn) <==> rc.assetId.None? || txId.None?)
      && (o == Unanswered <==> rc.assetId.Some? && txId.Some? && (c.user, role) in l.rows)
      && (o.Rewarded? <==> rc.assetId.Some? && txId.Some? && (c.user, role) !in l.rows)
  {
  }

  /** The handler reaches the transfer: the gates passed, a role was
      chosen, the server table knows it, the duplicate check ran and found
      nothing, and the Permaweb handle exists. */
  predicate ReachesTransfer(l: Ledger, req: VerifyRequest, env: Env) {
    && InputsAccepted(req, env) && env.member.MemberRoles? && SelectedRole(req, env).Some?
    && ServerReward(env, SelectedRole(req, env).value).Some? && !env.readFault
    && (req.discordUserId.value, SelectedRole(req, env).value) !in l.rows
    && env.permaweb
  }

  /** Failures before the transfer: each is a 500 DATABASE_ERROR naming its
      cause, with nothing sent and nothing stored. */
  lemma FailuresBeforeTransfer(l: Ledger, req: VerifyRequest, env: Env)
    requires InputsAccepted(req, env)
    ensures env.member.MemberLookupFailed? ==>
      VerifyAndReward(l, req, env) == Response(l, DatabaseError(MemberLookup), [])
    ensures env.member.MemberRoles? && SelectedRole(req, env).Some? ==>
      var role := SelectedRole(req, env).value;
      var r := VerifyAndReward(l, req, env);
      && (ServerReward(env, role).None? ==> r == Response(l, DatabaseError(UnknownRole), []))
      && (ServerReward(env, role).Some? && env.readFault ==>
            r == Response(l, DatabaseError(ExistingCheck), []))
      && (ServerReward(env, role).Some? && !env.readFault &&
          (req.discordUserId.value, role) !in l.rows && !env.permaweb ==>
            r == Response(l, DatabaseError(PermawebMissing), []))
  {
    if env.member.MemberRoles? && SelectedRole(req, env).Some? {
      var role := SelectedRole(req, env).value;
      assert VerifyAndReward(l, req, env) == Settle(l, ClaimantOf(req), env, role);
    }
  }

  /** Failures from the transfer on: a rejected transfer call is a 500 with
      the ledger untouched, unless its message mentions a UNIQUE failure,
      which the catch block cannot tell from a duplicate claim, so no answer
      is sent; a storage fault or NOT NULL violation is a 500 with the
      concurrent insert, if any, landed; a UNIQUE violation gets no answer.
      In every such case the transfer has already been sent. */
  lemma FailuresAfterTransfer(l: Ledger, req: VerifyRequest, env: Env)
    ensures ReachesTransfer(l, req, env) ==>
      var role := SelectedRole(req, env).value;
      var rc := ServerReward(env, role).value;
      var t := ClaimTransfer(ClaimantOf(req), rc);
      var l1 := LedgerAtSave(l, env);
      var r := VerifyAndReward(l, req, env);
      && (env.transfer.SendFailed? ==>
            r == Response(l, if Includes(env.transfer.message, UniqueFailure) then Unanswered
                             else DatabaseError(TransferCall), [SendTransfer(t)]))
      && (env.transfer.Sent? && env.writeFault ==>
            r == Response(l1, DatabaseError(SaveFault), [SendTransfer(t)]))
      && (env.transfer.Sent? && !env.writeFault ==>
            && (r.outcome == DatabaseError(NullColumn) <==> rc.assetId.None? || env.transfer.txId.None?)
            && (r.outcome == Unanswered <==>
                  rc.assetId.Some? && env.transfer.txId.Some? && (req.discordUserId.value, role) in l1.rows)
            && (r.outcome.Rewarded? <==>
                  rc.assetId.Some? && env.transfer.txId.Some? && (req.discordUserId.value, role) !in l1.rows)
            && (!r.outcome.Rewarded? ==> r.ledger == l1 && r.effects == [SendTransfer(t)]))
  {
    if ReachesTransfer(l, req, env) {
      var c := ClaimantOf(req);
      var role := SelectedRole(req, env).value;
      var rc := ServerReward(env, role).value;
      var t := ClaimTransfer(c, rc);
      assert VerifyAndReward(l, req, env) == Settle(l, c, env, role) == Send(l, c, env, role, rc);
      if env.transfer.Sent? && !env.writeFault {
        var txId := env.transfer.txId;
        assert Send(l, c, env, role, rc) == SaveClaim(LedgerAtSave(l, env), c, env, role, rc, t, txId);
        SaveClaimOutcome(LedgerAtSave(l, env), c, env, role, rc, t, txId);
      }
    }
  }

  /** The success response of the whole handler: the receipt carries the
      stored transfer id, the server catalog's amount, token, name and
      asset, the request's profile and wallet, and the clock; the only row
      the handler touched is its own. */
  lemma RewardReceipt(l: Ledger, req: VerifyRequest, env: Env)
    ensures var r := VerifyAndReward(l, req, env);
      r.outcome.Rewarded? ==>
        && InputsAccepted(req, env) && env.member.MemberRoles? && SelectedRole(req, env).Some?
        && var role := SelectedRole(req, env).value;
        && var k := (req.discordUserId.value, role);
        && ServerReward(env, role).Some? && ServerReward(env, role).value.assetId.Some?
        && k in r.ledger.rows
        && var rc := ServerReward(env, role).value;
        && r.outcome.reward == Receipt(r.ledger.rows[k].txId, rc.amount, rc.token, rc.name, role,
                                       req.bazarProfileId.value, req.walletAddress.value,
                                       rc.assetId.value, env.now, false)
        && (forall k' :: k' in LedgerAtSave(l, env).rows ==>
              r.ledger.rows[k'] == LedgerAtSave(l, env).rows[k'])
  {
    if VerifyAndReward(l, req, env).outcome.Rewarded? {
      var role := SelectedRole(req, env).value;
      assert VerifyAndReward(l, req, env) == Settle(l, ClaimantOf(req), env, role);
    }
  }

  /** A caller-supplied empty `eligibleRoles` object replaces the server
      table: no role is eligible, so nothing is sent or stored. */
  lemma EmptyTableNoTransfer(l: Ledger, req: VerifyRequest, env: Env)
    requires req.eligibleRoles == Some([])
    ensures var r := VerifyAndReward(l, req, env);
      Transfers(r.effects) == [] && !r.outcome.Rewarded? && r.ledger == l
    ensures InputsAccepted(req, env) && env.member.MemberRoles? ==>
      VerifyAndReward(l, req, env).outcome == NoEligibleRole
  {
    assert Keys([]) == [];
    if InputsAccepted(req, env) && env.member.MemberRoles? {
      assert SelectedRole(req, env).None?;
    }
  }

  /** Two requests for the same pair both pass the duplicate check; the
      other one's row lands first. This request's transfer has been sent,
      its own save is rejected, and the catch block then dereferences the
      try-scoped `rewardConfig`, so no response is sent. The ledger still
      holds one row for the pair: the other request's. */
  lemma RaceKeepsOneRow(l: Ledger, req: VerifyRequest, env: Env, role: string, tx: string)
    requires InputsAccepted(req, env) && env.permaweb
    requires env.member.MemberRoles? && SelectedRole(req, env) == Some(role)
    requires ServerReward(env, role).Some? && ServerReward(env, role).value.assetId.Some?
    requires !env.readFault && !env.writeFault
    requires env.transfer == Sent(Some(tx))
    requires (req.discordUserId.value, role) !in l.rows
    requires env.race.Some? && Complete(env.race.value)
    requires env.race.value.discordUserId == req.discordUserId && env.race.value.roleId == Some(role)
    ensures var r := VerifyAndReward(l, req, env);
      var k := (req.discordUserId.value, role);
      && r.outcome == Unanswered && r.outcome.Status().None?
      && |Transfers(r.effects)| == 1
      && k in r.ledger.rows && r.ledger.rows[k].txId == env.race.value.txId.value
      && |r.ledger.rows| == |l.rows| + 1
  {
    var k := (req.discordUserId.value, role);
    var c := ClaimantOf(req);
    var rc := ServerReward(env, role).value;
    var t := ClaimTransfer(c, rc);
    var l1 := LedgerAtSave(l, env);
    assert SaveRewardRecord(l, env.race.value, env.now).Ok?;
    assert k in l1.rows && l1.rows[k].txId == env.race.value.txId.value;
    assert VerifyAndReward(l, req, env) == Settle(l, c, env, role);
    assert Settle(l, c, env, role) == Send(l, c, env, role, rc);
    assert Send(l, c, env, role, rc) == Persist(l, c, env, role, rc, t, Some(tx));
    assert Persist(l, c, env, role, rc, t, Some(tx)) == SaveClaim(l1, c, env, role, rc, t, Some(tx));
  }

  /** One request of a sequential run: the request and its world. */
  datatype Step = Step(req: VerifyRequest, env: Env)

  /** The pair a response rewarded, if it rewarded one. */
  function RewardedPair(req: VerifyRequest, r: Response): Option<Key> {
    if r.outcome.Rewarded? && req.discordUserId.Some? then
      Some((req.discordUserId.value, r.outcome.reward.roleId))
    else None
  }

  /** Process the requests one after another, threading the ledger. */
  function FinalLedger(l: Ledger, steps: seq<Step>): Ledger
    decreases |steps|
  {
    if steps == [] then l
    else FinalLedger(VerifyAndReward(l, steps[0].req, steps[0].env).ledger, steps[1..])
  }

  /** How many requests of the run were answered with a reward for `k`. */
  function RewardCount(l: Ledger, steps: seq<Step>, k: Key): nat
    decreases |steps|
  {
    if steps == [] then 0
    else
      var r := VerifyAndReward(l, steps[0].req, steps[0].env);
      (if RewardedPair(steps[0].req, r) == Some(k) then 1 else 0) + RewardCount(r.ledger, steps[1..], k)
  }

  /** Exactly-once: over any run of requests, each (user, role) pair is
      answered with a reward at most once, and not at all if the ledger
      already held it; afterwards it is in the ledger. */
  lemma {:induction false} AtMostOneRewardPerPair(l: Ledger, steps: seq<Step>, k: Key)
    ensures RewardCount(l, steps, k) <= (if k in l.rows then 0 else 1)
    ensures RewardCount(l, steps, k) == 1 ==> k in FinalLedger(l, steps).rows
    decreases |steps|
  {
    if steps != [] {
      var r := VerifyAndReward(l, steps[0].req, steps[0].env);
      AtMostOneRewardPerPair(r.ledger, steps[1..], k);
      KeyPersists(r.ledger, steps[1..], k);
    }
  }

  /** A pair once in the ledger stays there for the rest of the run. */
  lemma {:induction false} KeyPersists(l: Ledger, steps: seq<Step>, k: Key)
    ensures k in l.rows ==> k in FinalLedger(l, steps).rows
    decreases |steps|
  {
    if steps != [] {
      KeyPersists(VerifyAndReward(l, steps[0].req, steps[0].env).ledger, steps[1..], k);
    }
  }
}
