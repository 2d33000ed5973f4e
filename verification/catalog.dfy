/** The reward catalog: the server's fixed `ASSET_CONFIG` table and the
    caller-supplied `eligibleRoles` object of the same shape. A JavaScript
    object is modelled as its entries in `Object.keys` order. */
module Catalog {
  import opened JsValues

  /** One catalog value: what a role earns. `assetId` comes from an
      environment variable and is `undefined` when that variable is unset. */
  datatype Reward = Reward(
    name: string,
    amount: string,
    token: string,
    tokenDisplayName: string,
    assetId: Option<string>)

  datatype Entry = Entry(roleId: string, reward: Reward)

  /** Entries in `Object.keys` order. */
  type Catalog = seq<Entry>

  /** The three asset-id environment variables. */
  datatype AssetIds = AssetIds(gold: Option<string>, silver: Option<string>, bronze: Option<string>)

  const TeraflopsRole: string := "1372348346512965674"
  const GigaflopsRole: string := "1293319793981526077"
  const MegaflopsRole: string := "1293319628566560849"

  /** `ASSET_CONFIG`, in declaration order. */
  function ServerCatalog(ids: AssetIds): (c: Catalog)
    ensures |c| == 3 && DistinctKeys(c)
    ensures forall i :: 0 <= i < |c| ==> c[i].reward.amount == "1"
  {
    [ Entry(TeraflopsRole, Reward("Teraflops", "1", "Gold", "The Golden Floppy Disk", ids.gold)),
      Entry(GigaflopsRole, Reward("Gigaflops", "1", "Silver", "The Silver Floppy Disk", ids.silver)),
      Entry(MegaflopsRole, Reward("Megaflops", "1", "Bronze", "The Bronze Floppy Disk", ids.bronze)) ]
  }

  /** `Object.keys(catalog)`. */
  function Keys(c: Catalog): seq<string> {
    seq(|c|, i requires 0 <= i < |c| => c[i].roleId)
  }

  /** A JavaScript object never has a key twice. */
  predicate DistinctKeys(c: Catalog) {
    forall i, j :: 0 <= i < j < |c| ==> c[i].roleId != c[j].roleId
  }

  /** `catalog[roleId]`: the value stored under the key, or `undefined`. */
  function Lookup(c: Catalog, roleId: string): (r: Option<Reward>)
    ensures r.None? <==> roleId !in Keys(c)
    ensures r.Some? ==>
      exists i :: 0 <= i < |c| && c[i] == Entry(roleId, r.value)
    ensures forall i :: 0 <= i < |c| && DistinctKeys(c) && c[i].roleId == roleId ==>
      r == Some(c[i].reward)
  {
    if c == [] then None
    else
      assert Keys(c) == [c[0].roleId] + Keys(c[1..]);
      if c[0].roleId == roleId then Some(c[0].reward)
      else
        var r := Lookup(c[1..], roleId);
        assert r.Some? ==> exists i :: 0 <= i < |c[1..]| && c[1..][i] == Entry(roleId, r.value);
        r
  }

  /** The server catalog answers exactly for the three configured roles. */
  lemma ServerCatalogRoles(ids: AssetIds, roleId: string)
    ensures Lookup(ServerCatalog(ids), roleId).Some? <==>
      roleId in {TeraflopsRole, GigaflopsRole, MegaflopsRole}
  {
    assert Keys(ServerCatalog(ids)) == [TeraflopsRole, GigaflopsRole, MegaflopsRole];
  }

  /** The table both endpoints check roles against, `eligibleRoles ||
      ASSET_CONFIG`: any supplied object, even an empty one, replaces the
      server table. */
  function RoleTable(eligibleRoles: Option<Catalog>, assets: AssetIds): Catalog {
    eligibleRoles.GetOr(ServerCatalog(assets))
  }
}
