/**
 * `ChangeModsAllocations`: a server owner moves mod slots between the server's active list
 * (`Server.mods`) and the personal stock (`User.ClaimedMods`). The request text is
 * `toStorage](fromStorage`, each half a comma list of mod ids.
 */
module Allocation {
  import opened Wrappers
  import opened Text
  import opened Records
  import opened Store
  import opened IdLists
  import opened ClaimCodec

  datatype AllocError =
    | MissingIds            // "Data can't be null"
    | MissingServerIp       // "Server IP can't be null"
    | MissingUsername       // "Username can't be null"
    | UnknownUsername       // "Unknown username"
    | ServerNotFound        // "Server not found"
    | InvalidFormat         // "Invalid data format": no "](" in the request
    | NoModIds              // "Mods ids is null": both halves parse to nothing
    | ServerListUnreadable  // `int.Parse` throws on the server's list

  /** The stock after the two passes: from-storage ids not on the server lose a slot, then
      to-storage ids on the server gain one. */
  function ClaimsAfter(m: Claims, serverIds: seq<int>, toStorage: seq<int>, fromStorage: seq<int>): Claims {
    IncAll(DecAll(m, NotAmong(fromStorage, serverIds)), Among(toStorage, serverIds))
  }

  /** The server list after `RemoveAll(toStorage.Contains)` and `AddRange(fromStorage.Except(list))`. */
  function ListAfter(serverMods: seq<int>, toStorage: seq<int>, fromStorage: seq<int>): seq<int> {
    var kept := NotAmong(serverMods, toStorage);
    kept + Except(fromStorage, kept)
  }

  /** The whole handler on the tables. */
  function Allocate(t: Tables, ids: string, serverIp: string, username: string): (r: Result<Tables, AllocError>)
    ensures r.Success? ==> r.value == t.(users := r.value.users, servers := r.value.servers)
    ensures r.Success? ==> |r.value.users| == |t.users| && |r.value.servers| == |t.servers|
    ensures r.Success? ==> UserByLogin(t.users, username).Some? && ServerByIp(t.servers, serverIp).Some?
  {
    if IsBlank(ids) then Failure(MissingIds)
    else if IsBlank(serverIp) then Failure(MissingServerIp)
    else if IsBlank(username) then Failure(MissingUsername)
    else
      match UserByLogin(t.users, username)
      case None => Failure(UnknownUsername)
      case Some(u) =>
        match ServerByIp(t.servers, serverIp)
        case None => Failure(ServerNotFound)
        case Some(s) =>
          var halves := SplitOn(ids, "](");
          if |halves| < 2 then Failure(InvalidFormat)
          else
            var toRaw := ParseBatch(halves[0]);
            var fromRaw := ParseBatch(halves[1]);
            if |toRaw| == 0 && |fromRaw| == 0 then Failure(NoModIds)
            else
              match ParseIds(t.servers[s].mods)
              case None => Failure(ServerListUnreadable)
              case Some(serverIds) =>
                var catalog := CatalogIds(t.mods);
                Success(Reallocate(t, u, s, serverIds, Among(toRaw, catalog), Among(fromRaw, catalog)))
  }

  /** The accepted request: user `u`'s stock and server `s`'s list are rewritten. */
  function Reallocate(t: Tables, u: nat, s: nat, serverIds: seq<int>, toStorage: seq<int>,
                      fromStorage: seq<int>): (r: Tables)
    requires u < |t.users| && s < |t.servers|
    ensures r == t.(users := r.users, servers := r.servers)
    ensures |r.users| == |t.users| && |r.servers| == |t.servers|
  {
    var user := t.users[u];
    var claims := ClaimsAfter(Decode(user.claimedMods), serverIds, toStorage, fromStorage);
    var server := t.servers[s];
    var serverMods := if IsBlank(server.mods) then [] else serverIds;
    var list := ListAfter(serverMods, toStorage, fromStorage);
    t.(users := t.users[u := user.(claimedMods := Encode(claims))],
       servers := t.servers[s := server.(mods := JoinIds(list))])
  }

  /** The from-storage pass: each id not on the server gives back one slot. */
  method ReleaseSlots(claims0: Claims, fromStorage: seq<int>, serverIdsMods: seq<int>) returns (claims: Claims)
    ensures claims == DecAll(claims0, NotAmong(fromStorage, serverIdsMods))
  {
    claims := claims0;
    var i := 0;
    while i < |fromStorage|
      invariant 0 <= i <= |fromStorage|
      invariant claims == DecAll(claims0, NotAmong(fromStorage[..i], serverIdsMods))
    {
      var modId := fromStorage[i];
      ReleaseStep(claims0, fromStorage, i, serverIdsMods, claims);
      if modId !in serverIdsMods {
        claims := ReleaseSlot(claims, modId);
      }
      i := i + 1;
    }
    assert fromStorage[..i] == fromStorage;
  }

  /** `claims[id]--`, dropping the id once its count would reach 0. */
  method ReleaseSlot(claims0: Claims, modId: int) returns (claims: Claims)
    ensures claims == Dec(claims0, modId)
  {
    claims := claims0;
    if modId in claims {
      if claims[modId] > 1 {
        claims := claims[modId := claims[modId] - 1];
      } else {
        claims := claims - {modId};
      }
    }
  }

  /** `claims[id]++`, starting from 1 for an id not yet held. */
  method ClaimSlot(claims0: Claims, modId: int) returns (claims: Claims)
    ensures claims == Inc(claims0, modId)
  {
    claims := claims0[modId := if modId in claims0 then claims0[modId] + 1 else 1];
  }

  /** One more from-storage id: a slot less when it is not on the server, else nothing. */
  lemma ReleaseStep(claims0: Claims, xs: seq<int>, i: nat, serverIdsMods: seq<int>, claims: Claims)
    requires i < |xs| && claims == DecAll(claims0, NotAmong(xs[..i], serverIdsMods))
    ensures DecAll(claims0, NotAmong(xs[..i + 1], serverIdsMods)) ==
      if xs[i] in serverIdsMods then claims else Dec(claims, xs[i])
  {
    assert xs[..i + 1] == xs[..i] + [xs[i]];
    NotAmongSnoc(xs[..i], xs[i], serverIdsMods);
    if xs[i] !in serverIdsMods {
      DecAllSnoc(claims0, NotAmong(xs[..i], serverIdsMods), xs[i]);
    }
  }

  /** The to-storage pass: each id on the server adds one slot. */
  method ClaimSlots(claims0: Claims, toStorage: seq<int>, serverIdsMods: seq<int>) returns (claims: Claims)
    ensures claims == IncAll(claims0, Among(toStorage, serverIdsMods))
  {
    claims := claims0;
    var i := 0;
    while i < |toStorage|
      invariant 0 <= i <= |toStorage|
      invariant claims == IncAll(claims0, Among(toStorage[..i], serverIdsMods))
    {
      var modId := toStorage[i];
      ClaimStep(claims0, toStorage, i, serverIdsMods, claims);
      if modId in serverIdsMods {
        claims := ClaimSlot(claims, modId);
      }
      i := i + 1;
    }
    assert toStorage[..i] == toStorage;
  }

  /** One more to-storage id: a slot more when it is on the server, else nothing. */
  lemma ClaimStep(claims0: Claims, xs: seq<int>, i: nat, serverIdsMods: seq<int>, claims: Claims)
    requires i < |xs| && claims == IncAll(claims0, Among(xs[..i], serverIdsMods))
    ensures IncAll(claims0, Among(xs[..i + 1], serverIdsMods)) ==
      if xs[i] in serverIdsMods then Inc(claims, xs[i]) else claims
  {
    assert xs[..i + 1] == xs[..i] + [xs[i]];
    AmongSnoc(xs[..i], xs[i], serverIdsMods);
    if xs[i] in serverIdsMods {
      IncAllSnoc(claims0, Among(xs[..i], serverIdsMods), xs[i]);
    }
  }

  /** The accepted request on the database: the two passes over the stock, then the list edit. */
  method Rewrite(db: Database, u: nat, s: nat, serverIdsMods: seq<int>, toStorage: seq<int>,
                 fromStorage: seq<int>)
    requires u < |db.users| && s < |db.servers|
    modifies db`users, db`servers
    ensures db.Snap() == Reallocate(old(db.Snap()), u, s, serverIdsMods, toStorage, fromStorage)
  {
    var user := db.users[u];
    var claims := ParseClaimedMods(user.claimedMods);
    claims := ReleaseSlots(claims, fromStorage, serverIdsMods);
    claims := ClaimSlots(claims, toStorage, serverIdsMods);
    db.users := db.users[u := user.(claimedMods := Encode(claims))];

    var server := db.servers[s];
    var serverMods: seq<int> := [];
    if !IsBlank(server.mods) {
      serverMods := serverIdsMods;
    }
    serverMods := NotAmong(serverMods, toStorage);
    serverMods := serverMods + Except(fromStorage, serverMods);
    db.servers := db.servers[s := server.(mods := JoinIds(serverMods))];
  }

  /** The handler on the database, with the source's loops over the two batches. */
  method ChangeModsAllocations(db: Database, ids: string, serverIp: string, username: string)
    returns (r: Outcome<AllocError>)
    modifies db`users, db`servers
    ensures match Allocate(old(db.Snap()), ids, serverIp, username)
      case Failure(e) => r == Fail(e) && db.Snap() == old(db.Snap())
      case Success(t) => r == Pass && db.Snap() == t
  {
    if IsBlank(ids) { return Fail(MissingIds); }
    if IsBlank(serverIp) { return Fail(MissingServerIp); }
    if IsBlank(username) { return Fail(MissingUsername); }
    var u := UserByLogin(db.users, username);
    if u.None? { return Fail(UnknownUsername); }
    var s := ServerByIp(db.servers, serverIp);
    if s.None? { return Fail(ServerNotFound); }
    var halves := SplitOn(ids, "](");
    if |halves| < 2 { return Fail(InvalidFormat); }
    var toStorage := ParseBatch(halves[0]);
    var fromStorage := ParseBatch(halves[1]);
    if |toStorage| == 0 && |fromStorage| == 0 { return Fail(NoModIds); }
    var parsed := ParseIds(db.servers[s.value].mods);
    if parsed.None? { return Fail(ServerListUnreadable); }
    var allValidMods := CatalogIds(db.mods);
    Rewrite(db, u.value, s.value, parsed.value, Among(toStorage, allValidMods), Among(fromStorage, allValidMods));
    return Pass;
  }

  // ------------------------------------------------------------------ properties

  /**
   * On a stock with positive counts: an id loses one slot (down to none) per occurrence in
   * the from-storage batch while it is not on the server, then gains one per occurrence in
   * the to-storage batch while it is on the server.
   */
  lemma ClaimsAfterCount(m: Claims, serverIds: seq<int>, toStorage: seq<int>, fromStorage: seq<int>, k: int)
    requires Positive(m)
    ensures var released := if k in serverIds then 0 else multiset(fromStorage)[k];
      var claimed := if k in serverIds then multiset(toStorage)[k] else 0;
      Count(ClaimsAfter(m, serverIds, toStorage, fromStorage), k) ==
        (if Count(m, k) > released then Count(m, k) - released else 0) + claimed
  {
    var from := NotAmong(fromStorage, serverIds);
    DecAllCount(m, from, k);
    NotAmongCount(fromStorage, serverIds, k);
    IncAllCount(DecAll(m, from), Among(toStorage, serverIds), k);
    AmongCount(toStorage, serverIds, k);
  }

  /** No count reaches 0 or below. */
  lemma ClaimsAfterPositive(m: Claims, serverIds: seq<int>, toStorage: seq<int>, fromStorage: seq<int>)
    requires Positive(m)
    ensures Positive(ClaimsAfter(m, serverIds, toStorage, fromStorage))
  {
    DecAllKeepsPositive(m, NotAmong(fromStorage, serverIds));
    IncAllKeepsPositive(DecAll(m, NotAmong(fromStorage, serverIds)), Among(toStorage, serverIds));
  }

  /**
   * The new list starts with the old list minus every to-storage id, in the old order, and
   * continues with each from-storage id not in that part, once, in the order of its first
   * occurrence in the request; an id is on the new list exactly when it stayed or was sent
   * from storage.
   */
  lemma ListAfterShape(serverMods: seq<int>, toStorage: seq<int>, fromStorage: seq<int>)
    ensures var kept := NotAmong(serverMods, toStorage);
      var list := ListAfter(serverMods, toStorage, fromStorage);
      kept <= list &&
      (forall x :: x in list[|kept|..] <==> x in fromStorage && x !in kept) &&
      NoDuplicates(list[|kept|..]) &&
      FirstOccurrenceOrder(list[|kept|..], fromStorage) &&
      (forall x :: x in list <==> (x in serverMods && x !in toStorage) || x in fromStorage)
  {
    var kept := NotAmong(serverMods, toStorage);
    var list := ListAfter(serverMods, toStorage, fromStorage);
    assert list[|kept|..] == Except(fromStorage, kept);
    ExceptOrder(fromStorage, kept);
    forall x ensures x in list <==> (x in serverMods && x !in toStorage) || x in fromStorage {
      NotAmongMembers(serverMods, toStorage, x);
      assert x in list <==> x in kept || x in Except(fromStorage, kept);
    }
  }

  /** `s.Split(sep)` has a second piece exactly when `sep` occurs in `s`. */
  lemma SplitHasSecond(s: string, sep: string)
    requires |sep| > 0
    ensures |SplitOn(s, sep)| >= 2 <==> exists j :: MatchAt(s, sep, j)
  {
    FindSpec(s, sep);
    if Find(s, sep).Some? {
      assert MatchAt(s, sep, Find(s, sep).value);
    }
  }

  /** A request without "](" fails, and so does one whose two halves hold no number at all. */
  lemma MalformedRequestFails(t: Tables, ids: string, serverIp: string, username: string)
    requires (forall j :: !MatchAt(ids, "](", j)) ||
             (|SplitOn(ids, "](")| >= 2 && |ParseBatch(SplitOn(ids, "](")[0])| == 0 &&
              |ParseBatch(SplitOn(ids, "](")[1])| == 0)
    ensures Allocate(t, ids, serverIp, username).Failure?
  {
    SplitHasSecond(ids, "](");
  }

  /** Every id read from a server list fits in 32 bits, and the list is never empty. */
  lemma ParseIdsShape(s: string)
    requires ParseIds(s).Some?
    ensures |ParseIds(s).value| >= 1 && AllInt32(ParseIds(s).value)
  {
  }

  /** A list that `int.Parse` accepts is never blank. */
  lemma ParsedNotBlank(s: string)
    requires ParseIds(s).Some?
    ensures !IsBlank(s)
  {
    if IsBlank(s) {
      var parts := SplitOn(s, ",");
      SplitOnSpec(s, ",");
      JoinStartsWithFirst(parts, ",");
      assert IsBlank(parts[0]) by {
        forall i | 0 <= i < |parts[0]| ensures IsWhite(parts[0][i]) {
          assert parts[0][i] == s[i];
        }
      }
      ParseBlankFails(Trim(parts[0])) by {
        TrimOfBlank(parts[0]);
      }
      assert false;
    }
  }

  lemma TrimOfBlank(s: string)
    requires IsBlank(s)
    ensures Trim(s) == ""
  {
    TrimStartSpec(s);
  }

  /**
   * A request is accepted exactly when the three inputs are not blank, the login and the ip
   * are found, the ids hold "](" (`SplitHasSecond`), the two halves hold at least one number
   * between them, and the server's list parses.
   */
  lemma AllocateAccepts(t: Tables, ids: string, serverIp: string, username: string)
    ensures Allocate(t, ids, serverIp, username).Success? <==>
      !IsBlank(ids) && !IsBlank(serverIp) && !IsBlank(username) &&
      UserByLogin(t.users, username).Some? && ServerByIp(t.servers, serverIp).Some? &&
      |SplitOn(ids, "](")| >= 2 &&
      (|ParseBatch(SplitOn(ids, "](")[0])| > 0 || |ParseBatch(SplitOn(ids, "](")[1])| > 0) &&
      ParseIds(t.servers[ServerByIp(t.servers, serverIp).value].mods).Some?
  {
  }

  /** A request that passes the guards is `Reallocate` applied to the login's user, the ip's
      server, the server's parsed list and the two batches filtered by the catalog. */
  lemma AllocateAccepted(t: Tables, ids: string, serverIp: string, username: string)
    requires !IsBlank(ids) && !IsBlank(serverIp) && !IsBlank(username)
    requires UserByLogin(t.users, username).Some? && ServerByIp(t.servers, serverIp).Some?
    requires |SplitOn(ids, "](")| >= 2
    requires ParseIds(t.servers[ServerByIp(t.servers, serverIp).value].mods).Some?
    requires |ParseBatch(SplitOn(ids, "](")[0])| > 0 || |ParseBatch(SplitOn(ids, "](")[1])| > 0
    ensures var u := UserByLogin(t.users, username).value;
      var s := ServerByIp(t.servers, serverIp).value;
      var halves := SplitOn(ids, "](");
      Allocate(t, ids, serverIp, username) ==
        Success(Reallocate(t, u, s, ParseIds(t.servers[s].mods).value,
                           Among(ParseBatch(halves[0]), CatalogIds(t.mods)),
                           Among(ParseBatch(halves[1]), CatalogIds(t.mods))))
  {
  }

  /** With both batches empty, only the stock string and the list string are rewritten, and
      both read back as before. */
  lemma ReallocateNothing(t: Tables, u: nat, s: nat, serverIds: seq<int>)
    requires u < |t.users| && s < |t.servers|
    requires ParseIds(t.servers[s].mods) == Some(serverIds)
    ensures var t2 := Reallocate(t, u, s, serverIds, [], []);
      t2.users == t.users[u := t.users[u].(claimedMods := t2.users[u].claimedMods)] &&
      t2.servers == t.servers[s := t.servers[s].(mods := t2.servers[s].mods)] &&
      Decode(t2.users[u].claimedMods) == Decode(t.users[u].claimedMods) &&
      ParseIds(t2.servers[s].mods) == Some(serverIds)
  {
    StockUnchanged(t.users[u].claimedMods, serverIds);
    ListUnchanged(t.servers[s].mods, serverIds);
  }

  /** An empty request rewrites the stock string to one that decodes as before. */
  lemma StockUnchanged(claimedMods: string, serverIds: seq<int>)
    ensures Decode(Encode(ClaimsAfter(Decode(claimedMods), serverIds, [], []))) == Decode(claimedMods)
  {
    var m := Decode(claimedMods);
    assert ClaimsAfter(m, serverIds, [], []) == m;
    DecodeInt32(claimedMods);
    DecodeEncode(m);
  }

  /** An empty request rewrites the server list to one that parses as before. */
  lemma ListUnchanged(mods: string, serverIds: seq<int>)
    requires ParseIds(mods) == Some(serverIds)
    ensures ParseIds(JoinIds(ListAfter(if IsBlank(mods) then [] else serverIds, [], []))) == Some(serverIds)
  {
    ParsedNotBlank(mods);
    assert ListAfter(serverIds, [], []) == serverIds by {
      NotAmongNothing(serverIds);
    }
    ParseIdsShape(mods);
    ParseJoinIds(serverIds);
  }

  /**
   * A request that passes the guards but whose ids are all unknown to the catalog is
   * accepted and changes nothing that a later read sees: the server list and the stock read
   * back as before.
   */
  lemma UnknownIdsChangeNothing(t: Tables, ids: string, serverIp: string, username: string)
    requires !IsBlank(ids) && !IsBlank(serverIp) && !IsBlank(username)
    requires UserByLogin(t.users, username).Some? && ServerByIp(t.servers, serverIp).Some?
    requires |SplitOn(ids, "](")| >= 2
    requires ParseIds(t.servers[ServerByIp(t.servers, serverIp).value].mods).Some?
    requires |ParseBatch(SplitOn(ids, "](")[0])| > 0 || |ParseBatch(SplitOn(ids, "](")[1])| > 0
    requires Among(ParseBatch(SplitOn(ids, "](")[0]), CatalogIds(t.mods)) == []
    requires Among(ParseBatch(SplitOn(ids, "](")[1]), CatalogIds(t.mods)) == []
    ensures Allocate(t, ids, serverIp, username).Success?
    ensures var t2 := Allocate(t, ids, serverIp, username).value;
      var u := UserByLogin(t.users, username).value;
      var s := ServerByIp(t.servers, serverIp).value;
      t2.users == t.users[u := t.users[u].(claimedMods := t2.users[u].claimedMods)] &&
      t2.servers == t.servers[s := t.servers[s].(mods := t2.servers[s].mods)] &&
      Decode(t2.users[u].claimedMods) == Decode(t.users[u].claimedMods) &&
      ParseIds(t2.servers[s].mods) == ParseIds(t.servers[s].mods)
  {
    AllocateAccepted(t, ids, serverIp, username);
    var u := UserByLogin(t.users, username).value;
    var s := ServerByIp(t.servers, serverIp).value;
    var serverIds := ParseIds(t.servers[s].mods).value;
    var halves := SplitOn(ids, "](");
    var t2 := Allocate(t, ids, serverIp, username).value;
    assert t2 == Reallocate(t, u, s, serverIds, [], []);
    ReallocateNothing(t, u, s, serverIds);
  }

  lemma {:induction false} NotAmongNothing(xs: seq<int>)
    ensures NotAmong(xs, []) == xs
  {
    if |xs| > 0 {
      NotAmongNothing(xs[..|xs| - 1]);
      assert xs == xs[..|xs| - 1] + [xs[|xs| - 1]];
    }
  }
}
