/** Role eligibility and selection. Both endpoints intersect the member's
    Discord roles with the keys of the role table in force (`eligibleRoles
    || ASSET_CONFIG`), but they break ties differently: the auth endpoint
    takes the first table key the member holds, the verify endpoint the
    requested role if held, else the first held role in the member's own
    role order. */
module Roles {
  import opened JsValues

  /** `memberRoles.filter(r => keys.includes(r))`, in member order. */
  function HeldRoles(memberRoles: seq<string>, keys: seq<string>): (r: seq<string>)
    ensures forall x :: x in r <==> x in memberRoles && x in keys
    ensures |r| <= |memberRoles|
    ensures r != [] ==> FirstHeldInMemberOrder(memberRoles, keys, r[0])
  {
    if memberRoles == [] then []
    else
      var rest := HeldRoles(memberRoles[1..], keys);
      if memberRoles[0] in keys then
        [memberRoles[0]] + rest
      else
        if rest != [] then
          ShiftMemberOrder(memberRoles, keys, rest[0]);
          rest
        else rest
  }

  lemma ShiftMemberOrder(memberRoles: seq<string>, keys: seq<string>, role: string)
    requires memberRoles != [] && memberRoles[0] !in keys
    requires FirstHeldInMemberOrder(memberRoles[1..], keys, role)
    ensures FirstHeldInMemberOrder(memberRoles, keys, role)
  {
    var i :| 0 <= i < |memberRoles[1..]| && memberRoles[1..][i] == role && role in keys &&
             forall j :: 0 <= j < i ==> memberRoles[1..][j] !in keys;
    assert memberRoles[i + 1] == role;
    forall j | 0 <= j < i + 1 ensures memberRoles[j] !in keys {
      if j > 0 { assert memberRoles[j] == memberRoles[1..][j - 1]; }
    }
  }

  /** `role` is a table key, held by the member, and no member role listed
      before it is a table key. */
  ghost predicate FirstHeldInMemberOrder(memberRoles: seq<string>, keys: seq<string>, role: string) {
    exists i :: 0 <= i < |memberRoles| && memberRoles[i] == role && role in keys &&
      forall j :: 0 <= j < i ==> memberRoles[j] !in keys
  }

  /** `role` is held, and no table key listed before it is held. */
  ghost predicate FirstKeyHeld(keys: seq<string>, held: seq<string>, role: string) {
    exists i :: 0 <= i < |keys| && keys[i] == role && role in held &&
      forall j :: 0 <= j < i ==> keys[j] !in held
  }

  /** `keys.find(k => held.includes(k))`. */
  function FirstKeyIn(keys: seq<string>, held: seq<string>): (r: Option<string>)
    ensures r.None? <==> forall k :: k in keys ==> k !in held
    ensures r.Some? ==> FirstKeyHeld(keys, held, r.value)
  {
    if keys == [] then None
    else if keys[0] in held then
      Some(keys[0])
    else
      var r := FirstKeyIn(keys[1..], held);
      assert forall k :: k in keys ==> k == keys[0] || k in keys[1..];
      if r.Some? then
        ShiftKeyOrder(keys, held, r.value);
        r
      else r
  }

  lemma ShiftKeyOrder(keys: seq<string>, held: seq<string>, role: string)
    requires keys != [] && keys[0] !in held
    requires FirstKeyHeld(keys[1..], held, role)
    ensures FirstKeyHeld(keys, held, role)
  {
    var i :| 0 <= i < |keys[1..]| && keys[1..][i] == role && role in held &&
             forall j :: 0 <= j < i ==> keys[1..][j] !in held;
    assert keys[i + 1] == role;
    forall j | 0 <= j < i + 1 ensures keys[j] !in held {
      if j > 0 { assert keys[j] == keys[1..][j - 1]; }
    }
  }

  /** The auth endpoint's decision: `hasRequiredRole` and `eligibleRole`. */
  datatype AuthEligibility = AuthEligibility(hasRequiredRole: bool, eligibleRole: Option<string>)

  function AuthSelect(keys: seq<string>, memberRoles: seq<string>): (r: AuthEligibility)
    ensures r.hasRequiredRole <==> exists x :: x in memberRoles && x in keys
    ensures r.eligibleRole.Some? <==> r.hasRequiredRole
    ensures r.eligibleRole.Some? ==> FirstKeyHeld(keys, memberRoles, r.eligibleRole.value)
  {
    var held := HeldRoles(memberRoles, keys);
    var has := |held| > 0;
    var eligible := if has then FirstKeyIn(keys, held) else None;
    assert has ==> held[0] in held;
    assert eligible.Some? ==> FirstKeyHeld(keys, held, eligible.value);
    AuthEligibility(has, eligible)
  }

  /** The verify endpoint's choice of role, or None when the member holds
      no role of the table. */
  function VerifySelect(keys: seq<string>, memberRoles: seq<string>, requested: Option<string>): (r: Option<string>)
    ensures r.None? <==> forall x :: x in memberRoles ==> x !in keys
    ensures r.Some? ==> r.value in keys && r.value in memberRoles
    ensures Truthy(requested) && requested.value in keys && requested.value in memberRoles ==>
      r == requested
    ensures r.Some? && !(Truthy(requested) && requested.value in keys && requested.value in memberRoles) ==>
      FirstHeldInMemberOrder(memberRoles, keys, r.value)
  {
    var held := HeldRoles(memberRoles, keys);
    if held == [] then None
    else if Truthy(requested) && requested.value in held then requested
    else
      assert held[0] in held;
      Some(held[0])
  }

  /** The client sends the auth endpoint's `eligibleRole` back as `roleId`;
      with the same table and roles, the verify endpoint then settles on
      the same role (unless that role id is "", which `roleId && ...`
      treats as absent). */
  lemma AuthChoiceHonoured(keys: seq<string>, memberRoles: seq<string>)
    ensures Truthy(AuthSelect(keys, memberRoles).eligibleRole) ==>
      VerifySelect(keys, memberRoles, AuthSelect(keys, memberRoles).eligibleRole) ==
        AuthSelect(keys, memberRoles).eligibleRole
  {
    var e := AuthSelect(keys, memberRoles).eligibleRole;
    if e.Some? {
      assert e.value in keys && e.value in memberRoles;
    }
  }

  /** Without a requested role the two tie-breaks can disagree: table
      order [A, B] and member order [B, A]. */
  lemma TieBreaksDiffer()
    ensures AuthSelect(["A", "B"], ["B", "A"]).eligibleRole == Some("A")
    ensures VerifySelect(["A", "B"], ["B", "A"], None) == Some("B")
  {
    assert HeldRoles(["B", "A"], ["A", "B"]) == ["B", "A"] by {
      assert ["B", "A"][1..] == ["A"];
      assert HeldRoles(["A"], ["A", "B"]) == ["A"] by {
        assert ["A"][1..] == [];
      }
    }
    assert FirstKeyIn(["A", "B"], ["B", "A"]) == Some("A");
  }
}
