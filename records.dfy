/**
 * The rows of the marketplace's tables (the entity classes the handlers load and change),
 * and the `FirstOrDefault` lookups the handlers run on them.
 *
 * Balances and amounts are `real` (the source stores `float`); dates are day numbers.
 * Identities that the database generates for new rows (purchases, subscriptions, profit
 * rows) are not part of these records.
 */
module Records {
  import opened Wrappers

  /** An account: `balance` is its money, `claimedMods` the encoded stock of mod slots. */
  datatype User = User(id: int, login: string, steamId: string, balance: real, claimedMods: string)

  /** A published catalog item; `modsby` is its developer-group key. */
  datatype Mod = Mod(
    id: int, name: string, nameDWS: string, description: Option<string>,
    smallDescription: Option<string>, categories: Option<string>, required: Option<string>,
    price: int, imageUrl: Option<string>, modsby: string)

  /** A catalog item awaiting moderation; `developer` plays the role of `modsby`. */
  datatype PendingMod = PendingMod(
    id: int, name: string, nameDWS: string, description: Option<string>,
    smallDescription: Option<string>, categories: Option<string>, required: Option<string>,
    price: int, imageUrl: Option<string>, developer: Option<string>, refused: Option<string>)

  /** Maps a developer-group key to the login of the account that is paid. */
  datatype Developer = Developer(modsby: string, nameOfMod: string)

  /** A buyer's server; `mods` is its comma-separated list of active mod ids. */
  datatype Server = Server(id: int, name: string, ip: string, ownerId: int, mods: string)

  /** The server id of a purchase that sits in the buyer's personal stock. */
  const Unassigned: int := -1

  /** One buyer's time-boxed right to one mod, on a server or unassigned. */
  datatype Purchase = Purchase(
    whoBuyed: int, modId: int, serverId: int, date: int, buyWhenExpires: bool, expiresDate: int)

  /** One buyer's recurring right to a bundle of mods. */
  datatype Subscription = Subscription(
    login: string, steamId: string, subscriptionMods: string, subActive: bool,
    buyWhenExpires: bool, boughtDate: int, expireData: int)

  /** A developer's subscription bundle and its price (the `premmods` table). */
  datatype Bundle = Bundle(modsby: string, mods: string, premPrice: int)

  /** One entry of the profit trail. */
  datatype ProfitRow = ProfitRow(
    whoBought: int, whatBought: string, amount: real, whoEarn: int, profit: real, date: int,
    cashedOut: bool)

  /** An uploaded file, keyed by the NameDWS of the mod it belongs to. */
  datatype FileRecord = FileRecord(modName: string, path: string, version: Option<string>)

  /** The Discord hooks of one mod. */
  datatype Webhook = Webhook(nameMod: string, discordWeb: string, discordWebOK: string, discordWebER: string)

  // ------------------------------------------------------------------ FirstOrDefault

  /** The index of the first element satisfying `p`, as `FirstOrDefault(p)` finds it. */
  function FirstIndex<T>(s: seq<T>, p: T -> bool): (r: Option<nat>)
    ensures r.Some? ==> r.value < |s| && p(s[r.value])
    ensures r.Some? ==> forall j :: 0 <= j < r.value ==> !p(s[j])
    ensures r.None? ==> forall j :: 0 <= j < |s| ==> !p(s[j])
  {
    if |s| == 0 then None
    else if p(s[0]) then Some(0)
    else match FirstIndex(s[1..], p)
      case None => None
      case Some(i) => Some(i + 1)
  }

  function UserByLogin(users: seq<User>, login: string): Option<nat> {
    FirstIndex(users, (u: User) => u.login == login)
  }

  function UserById(users: seq<User>, id: int): Option<nat> {
    FirstIndex(users, (u: User) => u.id == id)
  }

  function ModById(mods: seq<Mod>, id: int): Option<nat> {
    FirstIndex(mods, (m: Mod) => m.id == id)
  }

  function ModByNameDWS(mods: seq<Mod>, nameDWS: string): Option<nat> {
    FirstIndex(mods, (m: Mod) => m.nameDWS == nameDWS)
  }

  function PendingById(pending: seq<PendingMod>, id: int): Option<nat> {
    FirstIndex(pending, (m: PendingMod) => m.id == id)
  }

  function PendingByNameDWS(pending: seq<PendingMod>, nameDWS: string): Option<nat> {
    FirstIndex(pending, (m: PendingMod) => m.nameDWS == nameDWS)
  }

  /** The developer row whose payable login is `name`. */
  function DeveloperByName(developers: seq<Developer>, name: string): Option<nat> {
    FirstIndex(developers, (d: Developer) => d.nameOfMod == name)
  }

  /** The developer row of developer group `modsby`. */
  function DeveloperByGroup(developers: seq<Developer>, modsby: string): Option<nat> {
    FirstIndex(developers, (d: Developer) => d.modsby == modsby)
  }

  function ServerById(servers: seq<Server>, id: int): Option<nat> {
    FirstIndex(servers, (s: Server) => s.id == id)
  }

  function ServerByIp(servers: seq<Server>, ip: string): Option<nat> {
    FirstIndex(servers, (s: Server) => s.ip == ip)
  }

  /** The bundle whose mod string is exactly `mods`. */
  function BundleByMods(bundles: seq<Bundle>, mods: string): Option<nat> {
    FirstIndex(bundles, (b: Bundle) => b.mods == mods)
  }

  function BundleByGroup(bundles: seq<Bundle>, modsby: string): Option<nat> {
    FirstIndex(bundles, (b: Bundle) => b.modsby == modsby)
  }

  /** The ids of the catalog, in table order (`Mods.Select(m => m.Id)`). */
  function CatalogIds(mods: seq<Mod>): (ids: seq<int>)
    ensures |ids| == |mods|
    ensures forall i :: 0 <= i < |mods| ==> ids[i] == mods[i].id
  {
    seq(|mods|, i requires 0 <= i < |mods| => mods[i].id)
  }

  lemma CatalogIdsHaveMod(mods: seq<Mod>, id: int)
    ensures id in CatalogIds(mods) <==> ModById(mods, id).Some?
  {
    var ids := CatalogIds(mods);
    if id in ids {
      var k :| 0 <= k < |ids| && ids[k] == id;
      assert mods[k].id == id;
    }
  }
}

/** The database context: one field per table, changed in place by the handlers. */
module Store {
  import opened Records

  /** The contents of every table at one moment. */
  datatype Tables = Tables(
    users: seq<User>, mods: seq<Mod>, pendingMods: seq<PendingMod>, developers: seq<Developer>,
    servers: seq<Server>, purchases: seq<Purchase>, subscriptions: seq<Subscription>,
    bundles: seq<Bundle>, profit: seq<ProfitRow>, files: seq<FileRecord>, webhooks: seq<Webhook>)

  class Database {
    var users: seq<User>
    var mods: seq<Mod>
    var pendingMods: seq<PendingMod>
    var developers: seq<Developer>
    var servers: seq<Server>
    var purchases: seq<Purchase>
    var subscriptions: seq<Subscription>
    var bundles: seq<Bundle>
    var profit: seq<ProfitRow>
    var files: seq<FileRecord>
    var webhooks: seq<Webhook>

    constructor ()
      ensures Snap() == Tables([], [], [], [], [], [], [], [], [], [], [])
    {
      users, mods, pendingMods, developers := [], [], [], [];
      servers, purchases, subscriptions, bundles := [], [], [], [];
      profit, files, webhooks := [], [], [];
    }

    /** The current contents of the tables. */
    function Snap(): Tables
      reads this
    {
      Tables(users, mods, pendingMods, developers, servers, purchases, subscriptions, bundles,
             profit, files, webhooks)
    }
  }
}
