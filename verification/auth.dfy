/** `POST /api/auth/discord`: resolve the caller's Discord identity and
    guild roles, then report whether any role earns a reward. The three
    Discord calls (token exchange, `users/@me`, guild member) are one input:
    either the first failure's HTTP status, or the user and the roles. */
module Auth {
  import opened JsValues
  import opened Catalog
  import opened Roles

  datatype DiscordUser = DiscordUser(id: string, username: string, discriminator: string, avatar: Option<string>)

  /** The combined outcome of the three awaited Discord calls. A failure
      carries the HTTP status of its response, if it had one. */
  datatype DiscordReply =
    | CallFailed(status: Option<int>)
    | Member(accessToken: string, user: DiscordUser, roles: seq<string>)

  datatype AuthResponse =
    | NoCode
    | Authenticated(
        user: DiscordUser,
        accessToken: string,
        hasRequiredRole: bool,
        eligibleRole: Option<string>,
        rewardTier: Option<Reward>)
    | NotServerMember
    | AuthFailed
  {
    function Status(): int {
      if NoCode? then 400 else if AuthFailed? then 500 else 200
    }

    /** The `serverMember` flag of the body, when present. */
    function ServerMember(): Option<bool> {
      if Authenticated? then Some(true) else if NotServerMember? then Some(false) else None
    }
  }

  function AuthDiscord(code: Option<string>, eligibleRoles: Option<Catalog>, assets: AssetIds,
                       discord: DiscordReply): (r: AuthResponse)
    ensures r.NoCode? <==> !Truthy(code)
    ensures r.NotServerMember? <==> Truthy(code) && discord == CallFailed(Some(404))
    ensures r.AuthFailed? <==> Truthy(code) && discord.CallFailed? && discord.status != Some(404)
    ensures r.NotServerMember? ==> r.Status() == 200 && r.ServerMember() == Some(false)
    ensures r.Authenticated? ==>
      var table := RoleTable(eligibleRoles, assets);
      && discord.Member?
      && r.user == discord.user && r.accessToken == discord.accessToken
      && (r.hasRequiredRole <==> exists x :: x in discord.roles && x in Keys(table))
      && (r.eligibleRole.Some? <==> r.hasRequiredRole)
      && (r.eligibleRole.Some? ==> FirstKeyHeld(Keys(table), discord.roles, r.eligibleRole.value))
      // `eligibleRole ? table[eligibleRole] : null`: a role id "" is falsy
      && (r.rewardTier.Some? <==> Truthy(r.eligibleRole))
      && (Truthy(r.eligibleRole) ==>
            exists i :: 0 <= i < |table| && table[i] == Entry(r.eligibleRole.value, r.rewardTier.value))
  {
    if !Truthy(code) then NoCode
    else
      match discord
      case CallFailed(status) =>
        if status == Some(404) then NotServerMember else AuthFailed
      case Member(token, user, roles) =>
        var table := RoleTable(eligibleRoles, assets);
        var e := AuthSelect(Keys(table), roles);
        var tier := if Truthy(e.eligibleRole) then Lookup(table, e.eligibleRole.value) else None;
        Authenticated(user, token, e.hasRequiredRole, e.eligibleRole, tier)
  }

  /** A missing code is answered before Discord is contacted. */
  lemma NoCodeBeforeDiscord(code: Option<string>, c: Option<Catalog>, assets: AssetIds,
                            d1: DiscordReply, d2: DiscordReply)
    requires !Truthy(code)
    ensures AuthDiscord(code, c, assets, d1) == AuthDiscord(code, c, assets, d2) == NoCode
  {
  }

  /** A caller-supplied empty `eligibleRoles` object replaces the server
      table, so no member qualifies, whatever roles they hold. */
  lemma EmptyTableNoRole(code: Option<string>, assets: AssetIds, discord: DiscordReply)
    ensures var r := AuthDiscord(code, Some([]), assets, discord);
      r.Authenticated? ==> !r.hasRequiredRole && r.eligibleRole.None? && r.rewardTier.None?
  {
    assert Keys([]) == [];
  }
}
