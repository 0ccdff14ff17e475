/**
 * The catalog editor's handlers: creating a pending mod, updating a published one, removing
 * either, the earnings projection of the developer dashboard, and the webhook update.
 *
 * The editor handlers poll the file records up to ten times, half a second apart, for the
 * records of an upload that may still be running; here the table does not change between
 * polls, so every poll sees the same records.
 */
module Moderation {
  import opened Wrappers
  import opened Text
  import opened Records
  import opened Store
  import opened IdLists
  import opened Ledger
  import opened Uploads

  const ModsBy: string := "Mods by "
  const UnknownMod: string := "Unknown Mod"
  const MaxAttempts: nat := 10

  datatype ModerError =
    | NoData              // the request body is missing
    | NoUser              // the `UserName` header is missing (or blank, for the webhook)
    | NameTaken           // another published mod has the NameDWS
    | ModNotFound         // no row with the id
    | NotYours            // the ownership check fails
    | NoDeveloperField    // a pending mod without `Developer` (a null dereference)
    | UserNotFound        // no account with the login
    | DeveloperNotFound   // no developer row with the login
    | HookNotFound        // no webhook joined to a published mod of that name
    | NoPermission        // the hook's mod is in another developer group

  // ------------------------------------------------------------------ ownership

  /** `field.Split("Mods by ")[0]`: the text before the first "Mods by ". */
  function Owner(field: string): string {
    Before(field, ModsBy)
  }

  /** Every "Mods by X" value has the empty text before its first "Mods by ". */
  lemma OwnerOfGroup(x: string)
    ensures Owner(ModsBy + x) == ""
  {
    BeforeOfPrefixed(ModsBy, x);
  }

  /** The `Developer` of a created pending mod: the sent value when its text before
      "Mods by " is the login, else "Mods by " + login. */
  function Normalised(developer: Option<string>, username: string): string {
    if developer.Some? && Owner(developer.value) == username then developer.value
    else ModsBy + username
  }

  /**
   * A created pending mod passes the removal ownership check of its creator exactly when
   * the creator sent an owned `Developer` value or has the empty login: the value the
   * create handler writes itself, "Mods by " + login, never passes for a non-empty login.
   */
  lemma NormalisedOwnership(developer: Option<string>, username: string)
    ensures Owner(Normalised(developer, username)) == username <==>
      (developer.Some? && Owner(developer.value) == username) || username == ""
  {
    OwnerOfGroup(username);
  }

  // ------------------------------------------------------------------ file records

  /** `filesdifine.Where(f => f.modName == name).Select(f => f.path)`, in table order. */
  function FilePaths(files: seq<FileRecord>, name: string): (r: seq<string>)
    ensures |r| <= |files|
  {
    if |files| == 0 then []
    else
      var init := FilePaths(files[..|files| - 1], name);
      if files[|files| - 1].modName == name then init + [files[|files| - 1].path] else init
  }

  /** The positions of the records of `name`. */
  function RecordsNamed(files: seq<FileRecord>, name: string): set<nat> {
    set k: nat | k < |files| && files[k].modName == name
  }

  /** There is one path per record of the name. */
  lemma {:induction false} FilePathsCount(files: seq<FileRecord>, name: string)
    ensures |FilePaths(files, name)| == |RecordsNamed(files, name)|
  {
    if |files| > 0 {
      var n := |files| - 1;
      FilePathsCount(files[..n], name);
      var before := RecordsNamed(files[..n], name);
      if files[n].modName == name {
        assert RecordsNamed(files, name) == before + {n};
        assert n !in before;
      } else {
        assert RecordsNamed(files, name) == before;
      }
    } else {
      assert RecordsNamed(files, name) == {};
    }
  }

  /** A path is listed exactly when some record of that name has it. */
  lemma {:induction false} FilePathsMembers(files: seq<FileRecord>, name: string, p: string)
    ensures p in FilePaths(files, name) <==>
      exists k :: 0 <= k < |files| && files[k].modName == name && files[k].path == p
  {
    if |files| > 0 {
      var init := files[..|files| - 1];
      FilePathsMembers(init, name, p);
      if exists k :: 0 <= k < |files| && files[k].modName == name && files[k].path == p {
        var k :| 0 <= k < |files| && files[k].modName == name && files[k].path == p;
        if k < |init| {
          assert init[k] == files[k];
        }
      }
      if exists k :: 0 <= k < |init| && init[k].modName == name && init[k].path == p {
        var k :| 0 <= k < |init| && init[k].modName == name && init[k].path == p;
        assert files[k] == init[k];
      }
    }
  }

  /** The first record of `name` with path `p`, as the update handler looks it up. */
  function FirstRecord(files: seq<FileRecord>, name: string, p: string): Option<nat> {
    FirstIndex(files, (f: FileRecord) => f.modName == name && f.path == p)
  }

  /**
   * The records the update handler removes: for each listed path of `name` that is not in
   * `client`, only the first record with that path. The lookups read the saved table, which
   * still holds a record already marked for removal, so a repeated path finds the same
   * record again.
   */
  function Unlinked(files: seq<FileRecord>, name: string, client: seq<string>, ps: seq<string>): set<nat> {
    set k | 0 <= k < |files| && files[k].modName == name && files[k].path !in client &&
            files[k].path in ps && FirstRecord(files, name, files[k].path) == Some(k)
  }

  /** The table without the rows at `removed`, the others in order. */
  function Without(files: seq<FileRecord>, removed: set<nat>): (r: seq<FileRecord>)
    ensures |r| <= |files|
  {
    if |files| == 0 then []
    else
      var init := Without(files[..|files| - 1], removed);
      if |files| - 1 in removed then init else init + [files[|files| - 1]]
  }

  lemma {:induction false} WithoutMembers(files: seq<FileRecord>, removed: set<nat>, f: FileRecord)
    ensures f in Without(files, removed) <==> exists k :: 0 <= k < |files| && k !in removed && files[k] == f
  {
    if |files| > 0 {
      var init := files[..|files| - 1];
      WithoutMembers(init, removed, f);
      if exists k :: 0 <= k < |files| && k !in removed && files[k] == f {
        var k :| 0 <= k < |files| && k !in removed && files[k] == f;
        if k < |init| {
          assert init[k] == files[k];
        }
      }
      if exists k :: 0 <= k < |init| && k !in removed && init[k] == f {
        var k :| 0 <= k < |init| && k !in removed && init[k] == f;
        assert files[k] == init[k];
      }
    }
  }

  /** No two records of the same mod share a path. */
  predicate DistinctRecords(files: seq<FileRecord>) {
    forall i, j :: 0 <= i < j < |files| ==>
      !(files[i].modName == files[j].modName && files[i].path == files[j].path)
  }

  /**
   * With distinct records, a record survives the update exactly when it belongs to another
   * mod or its path is on the client's list.
   */
  lemma UnlinkSurvivors(files: seq<FileRecord>, name: string, client: seq<string>, f: FileRecord)
    requires DistinctRecords(files)
    ensures f in Without(files, Unlinked(files, name, client, FilePaths(files, name))) <==>
      f in files && (f.modName != name || f.path in client)
  {
    var removed := Unlinked(files, name, client, FilePaths(files, name));
    WithoutMembers(files, removed, f);
    if f in files && (f.modName != name || f.path in client) {
      var k :| 0 <= k < |files| && files[k] == f;
      assert k !in removed;
    }
    if f in files && f.modName == name && f.path !in client {
      forall k | 0 <= k < |files| && files[k] == f ensures k in removed {
        FilePathsMembers(files, name, f.path);
        var first := FirstRecord(files, name, f.path);
        var j := first.value;
        assert files[j].modName == name && files[j].path == f.path;
        assert j == k;
      }
    }
  }

  /** Two records of the same mod with the same path, off the client list: only the first
      is removed. */
  lemma DuplicateRecordsHalved(r: FileRecord, client: seq<string>)
    requires r.path !in client
    ensures Without([r, r], Unlinked([r, r], r.modName, client, FilePaths([r, r], r.modName))) == [r]
  {
    var files := [r, r];
    assert FilePaths(files, r.modName) == [r.path, r.path] by {
      assert files[..1] == [r];
      assert FilePaths([r], r.modName) == [r.path] by {
        assert [r][..0] == [];
      }
    }
    var removed := Unlinked(files, r.modName, client, FilePaths(files, r.modName));
    assert FirstRecord(files, r.modName, r.path) == Some(0);
    assert removed == {0};
    assert files[..1] == [r];
    assert Without([r], {0}) == [] by {
      assert [r][..0] == [];
    }
  }

  /** `list.AddRange(ps.Where(p => !list.Contains(p)))`: each path not yet on the growing
      list is appended, in order, so a repeated path goes on once. */
  function AppendNew(list: seq<string>, ps: seq<string>): seq<string> {
    if |ps| == 0 then list
    else
      var acc := AppendNew(list, ps[..|ps| - 1]);
      if ps[|ps| - 1] in acc then acc else acc + [ps[|ps| - 1]]
  }

  /** Appending the new paths one by one is `list` followed by `ps.Except(list)`. */
  lemma {:induction false} AppendNewExcept(list: seq<string>, ps: seq<string>)
    ensures AppendNew(list, ps) == list + Except(ps, list)
  {
    if |ps| > 0 {
      var init := ps[..|ps| - 1];
      AppendNewExcept(list, init);
      var p := ps[|ps| - 1];
      assert p in list + Except(init, list) <==> p in list || p in Except(init, list);
    }
  }

  /** The client's list stays in front; the result holds exactly the client's entries and
      the paths; what is appended are the paths not on the client's list, each once, in the
      order in which they first occur among the paths. */
  lemma AppendNewSpec(list: seq<string>, ps: seq<string>)
    ensures var r := AppendNew(list, ps);
      |list| <= |r| && r[..|list|] == list &&
      (forall x :: x in r <==> x in list || x in ps) &&
      (forall x :: x in r[|list|..] <==> x in ps && x !in list) &&
      NoDuplicates(r[|list|..]) &&
      FirstOccurrenceOrder(r[|list|..], ps) &&
      (NoDuplicates(list) ==> NoDuplicates(r))
  {
    AppendNewExcept(list, ps);
    var r := AppendNew(list, ps);
    var tail := Except(ps, list);
    assert r[..|list|] == list && r[|list|..] == tail;
    ExceptOrder(ps, list);
    if NoDuplicates(list) {
      forall i, j | 0 <= i < j < |r|
        ensures r[i] != r[j]
      {
        if j >= |list| && i < |list| {
          assert r[j] == tail[j - |list|] && r[i] == list[i];
        } else if i >= |list| {
          assert r[i] == tail[i - |list|] && r[j] == tail[j - |list|];
        }
      }
    }
  }

  // ------------------------------------------------------------------ CreateAMod

  /** The client's image list as the create handler splits it (empty pieces kept). */
  function ClientPieces(url: Option<string>): seq<string> {
    if url.None? then [] else SplitOn(url.value, ImageSeparator)
  }

  /**
   * `CreateAMod`: a body and a login are needed, and a published mod must not already have
   * the NameDWS. The new pending row (id `newId`, from the database) has the normalised
   * `Developer`, the sent fields, no refusal, and the client's pieces followed by the paths
   * of the file records of that NameDWS as its image list.
   */
  function CreatePending(t: Tables, body: Option<PendingMod>, username: Option<string>, newId: int)
    : (r: Result<Tables, ModerError>)
    ensures r.Success? ==> r.value == t.(pendingMods := r.value.pendingMods) &&
                           |r.value.pendingMods| == |t.pendingMods| + 1 &&
                           r.value.pendingMods[..|t.pendingMods|] == t.pendingMods
  {
    if body.None? then Failure(NoData)
    else if username.None? then Failure(NoUser)
    else
      var p := body.value;
      if ModByNameDWS(t.mods, p.nameDWS).Some? then Failure(NameTaken)
      else
        var images := ClientPieces(p.imageUrl) + FilePaths(t.files, p.nameDWS);
        var row := PendingMod(newId, p.name, p.nameDWS, p.description, p.smallDescription,
                              p.categories, p.required, p.price, Some(Join(images, ImageSeparator)),
                              Some(Normalised(p.developer, username.value)), None);
        Success(t.(pendingMods := t.pendingMods + [row]))
  }

  /** A create is refused, with nothing inserted, exactly when the body or login is missing
      or a published mod has the NameDWS. */
  lemma CreatePendingGuards(t: Tables, body: Option<PendingMod>, username: Option<string>, newId: int)
    ensures CreatePending(t, body, username, newId).Success? <==>
      body.Some? && username.Some? &&
      forall k :: 0 <= k < |t.mods| ==> t.mods[k].nameDWS != body.value.nameDWS
  {
    if body.Some? {
      var m := ModByNameDWS(t.mods, body.value.nameDWS);
      if m.Some? {
        assert t.mods[m.value].nameDWS == body.value.nameDWS;
      }
    }
  }

  /**
   * The inserted row: the sent fields, the normalised developer, no refusal, and an image
   * list that reads back as the client's pieces followed by the record paths (for entries
   * without '!').
   */
  lemma CreatePendingRow(t: Tables, p: PendingMod, username: string, newId: int)
    requires CreatePending(t, Some(p), Some(username), newId).Success?
    requires AllStorable(ClientPieces(p.imageUrl) + FilePaths(t.files, p.nameDWS))
    ensures var row := CreatePending(t, Some(p), Some(username), newId).value.pendingMods[|t.pendingMods|];
      row.id == newId && row.name == p.name && row.nameDWS == p.nameDWS && row.price == p.price &&
      row.description == p.description && row.smallDescription == p.smallDescription &&
      row.categories == p.categories && row.required == p.required && row.refused.None? &&
      row.developer == Some(Normalised(p.developer, username)) &&
      Images(row.imageUrl) == ClientPieces(p.imageUrl) + FilePaths(t.files, p.nameDWS)
  {
    ImagesOfJoin(ClientPieces(p.imageUrl) + FilePaths(t.files, p.nameDWS));
  }

  // ------------------------------------------------------------------ UpdateMod

  /** Another published mod (a different id) with that NameDWS. */
  function Clash(mods: seq<Mod>, nameDWS: string, id: int): Option<nat> {
    FirstIndex(mods, (m: Mod) => m.nameDWS == nameDWS && id != m.id)
  }

  /** The edited row: exactly the seven editable fields come from the body. */
  function Edited(m: Mod, p: Mod, imageUrl: string): Mod {
    m.(name := p.name, description := p.description, smallDescription := p.smallDescription,
       required := p.required, categories := p.categories, price := p.price,
       imageUrl := Some(imageUrl))
  }

  /**
   * `UpdateMod`: a body and a login are needed; a different published mod must not have
   * the NameDWS, and the row with the id must exist. The records of that NameDWS whose path
   * is off the client's (non-empty) list are unlinked, and those paths are appended once
   * each after the client's list.
   */
  function UpdatePublished(t: Tables, id: int, body: Option<Mod>, username: Option<string>)
    : (r: Result<Tables, ModerError>)
    ensures r.Success? ==> r.value == t.(mods := r.value.mods, files := r.value.files) &&
                           |r.value.mods| == |t.mods|
  {
    if body.None? then Failure(NoData)
    else if username.None? then Failure(NoUser)
    else
      var p := body.value;
      if Clash(t.mods, p.nameDWS, id).Some? then Failure(NameTaken)
      else
        match ModById(t.mods, id)
        case None => Failure(ModNotFound)
        case Some(k) =>
          var client := Images(p.imageUrl);
          var dbFiles := FilePaths(t.files, p.nameDWS);
          var images := AppendNew(client, dbFiles);
          Success(t.(files := Without(t.files, Unlinked(t.files, p.nameDWS, client, dbFiles)),
                     mods := t.mods[k := Edited(t.mods[k], p, Join(images, ImageSeparator))]))
  }

  /** Refused exactly when the body or login is missing, another id has the NameDWS, or the
      id is unknown; the mod with the same id may keep its own NameDWS. */
  lemma UpdateGuards(t: Tables, id: int, body: Option<Mod>, username: Option<string>)
    ensures UpdatePublished(t, id, body, username).Success? <==>
      body.Some? && username.Some? &&
      (forall k :: 0 <= k < |t.mods| ==> t.mods[k].nameDWS == body.value.nameDWS ==> t.mods[k].id == id) &&
      exists k :: 0 <= k < |t.mods| && t.mods[k].id == id
  {
    if body.Some? {
      var c := Clash(t.mods, body.value.nameDWS, id);
      if c.Some? {
        assert t.mods[c.value].nameDWS == body.value.nameDWS && t.mods[c.value].id != id;
      }
      var k := ModById(t.mods, id);
      if k.Some? {
        assert t.mods[k.value].id == id;
      }
    }
  }

  /**
   * An update changes only the row with the id, and in it exactly the name, the
   * descriptions, `required`, the categories, the price and the image list: the id, the
   * NameDWS and the developer group stay. The new list reads back as the client's list
   * followed by the missing record paths (for entries without '!').
   */
  lemma UpdateFields(t: Tables, id: int, p: Mod, username: string)
    requires UpdatePublished(t, id, Some(p), Some(username)).Success?
    requires AllStorable(AppendNew(Images(p.imageUrl), FilePaths(t.files, p.nameDWS)))
    ensures var k := ModById(t.mods, id).value;
      var r := UpdatePublished(t, id, Some(p), Some(username)).value;
      var row := r.mods[k];
      r.mods == t.mods[k := row] &&
      row.id == id && row.nameDWS == t.mods[k].nameDWS && row.modsby == t.mods[k].modsby &&
      row.name == p.name && row.description == p.description &&
      row.smallDescription == p.smallDescription && row.required == p.required &&
      row.categories == p.categories && row.price == p.price &&
      Images(row.imageUrl) == AppendNew(Images(p.imageUrl), FilePaths(t.files, p.nameDWS))
  {
    ImagesOfJoin(AppendNew(Images(p.imageUrl), FilePaths(t.files, p.nameDWS)));
  }

  // ------------------------------------------------------------------ RemoveMod / RemovePend

  /** `RemoveMod`: the row with the id goes when the text before "Mods by " in its group is
      the login. */
  function RemovePublished(t: Tables, id: int, username: Option<string>): (r: Result<Tables, ModerError>)
    ensures r.Success? ==> r.value == t.(mods := r.value.mods) && |r.value.mods| == |t.mods| - 1
  {
    if username.None? then Failure(NoUser)
    else
      match ModById(t.mods, id)
      case None => Failure(ModNotFound)
      case Some(k) =>
        if Owner(t.mods[k].modsby) != username.value then Failure(NotYours)
        else Success(t.(mods := t.mods[..k] + t.mods[k + 1..]))
  }

  /** `RemovePend`: the same check on `Developer`; a row without one makes the handler throw. */
  function RemovePendingMod(t: Tables, id: int, username: Option<string>): (r: Result<Tables, ModerError>)
    ensures r.Success? ==> r.value == t.(pendingMods := r.value.pendingMods) &&
                           |r.value.pendingMods| == |t.pendingMods| - 1
  {
    if username.None? then Failure(NoUser)
    else
      match PendingById(t.pendingMods, id)
      case None => Failure(ModNotFound)
      case Some(k) =>
        match t.pendingMods[k].developer
        case None => Failure(NoDeveloperField)
        case Some(dev) =>
          if Owner(dev) != username.value then Failure(NotYours)
          else Success(t.(pendingMods := t.pendingMods[..k] + t.pendingMods[k + 1..]))
  }

  /** A removal takes out exactly the first row with the id, and only when the owner check
      passes; a group written "Mods by X" is removable only with the empty login. */
  lemma RemovePublishedSpec(t: Tables, id: int, username: string)
    ensures var r := RemovePublished(t, id, Some(username));
      var k := ModById(t.mods, id);
      (r.Success? <==> k.Some? && Owner(t.mods[k.value].modsby) == username) &&
      (r.Success? ==> r.value.mods == t.mods[..k.value] + t.mods[k.value + 1..] && t.mods[k.value].id == id) &&
      (k.Some? && StartsWith(t.mods[k.value].modsby, ModsBy) && username != "" ==> r == Failure(NotYours))
  {
    var k := ModById(t.mods, id);
    if k.Some? && StartsWith(t.mods[k.value].modsby, ModsBy) {
      var m := t.mods[k.value].modsby;
      assert m == ModsBy + m[|ModsBy|..];
      OwnerOfGroup(m[|ModsBy|..]);
    }
  }

  /** The same for pending mods: a pending mod whose `Developer` the create handler wrote
      ("Mods by " + login) cannot be removed by that login unless it is empty. */
  lemma RemovePendingSpec(t: Tables, id: int, username: string)
    ensures var r := RemovePendingMod(t, id, Some(username));
      var k := PendingById(t.pendingMods, id);
      (r.Success? <==> k.Some? && t.pendingMods[k.value].developer.Some? &&
                       Owner(t.pendingMods[k.value].developer.value) == username) &&
      (r.Success? ==> r.value.pendingMods == t.pendingMods[..k.value] + t.pendingMods[k.value + 1..]) &&
      (k.Some? && t.pendingMods[k.value].developer == Some(ModsBy + username) && username != "" ==>
         r == Failure(NotYours))
  {
    OwnerOfGroup(username);
  }

  // ------------------------------------------------------------------ earnings

  /** One line of the earnings view. */
  datatype Earning = Earning(date: int, profit: real, cashedOut: bool, modName: string)

  /** The name of the published mod whose id, as text, is the row's item, else "Unknown Mod". */
  function ItemName(mods: seq<Mod>, item: string): string {
    match FirstIndex(mods, (m: Mod) => IntToString(m.id) == item)
    case None => UnknownMod
    case Some(k) => mods[k].name
  }

  /** The projection of the rows earned by `userId`, in table order: shown profit is
      `Amount - Profit`. */
  function EarningsOf(mods: seq<Mod>, rows: seq<ProfitRow>, userId: int): seq<Earning> {
    if |rows| == 0 then []
    else
      var init := EarningsOf(mods, rows[..|rows| - 1], userId);
      var m := rows[|rows| - 1];
      if m.whoEarn == userId
      then init + [Earning(m.date, m.amount - m.profit, m.cashedOut, ItemName(mods, m.whatBought))]
      else init
  }

  /** `GetDetailsBought`: the caller's earnings in table order. */
  function DetailsBought(t: Tables, username: Option<string>): Result<seq<Earning>, ModerError> {
    if username.None? then Failure(UserNotFound)
    else
      match UserByLogin(t.users, username.value)
      case None => Failure(UserNotFound)
      case Some(u) => Success(EarningsOf(t.mods, t.profit, t.users[u].id))
  }

  /** Newest first; a line goes after every line that is at least as new (ties keep order). */
  function InsertByDate(es: seq<Earning>, e: Earning): (r: seq<Earning>)
    ensures multiset(r) == multiset(es) + multiset{e}
  {
    if |es| == 0 then [e]
    else if es[0].date >= e.date then
      assert es == [es[0]] + es[1..];
      [es[0]] + InsertByDate(es[1..], e)
    else [e] + es
  }

  /** `OrderByDescending(m => m.date)`, stable. */
  function NewestFirst(es: seq<Earning>): (r: seq<Earning>)
    ensures multiset(r) == multiset(es)
  {
    if |es| == 0 then []
    else
      assert es == es[..|es| - 1] + [es[|es| - 1]];
      InsertByDate(NewestFirst(es[..|es| - 1]), es[|es| - 1])
  }

  predicate Descending(es: seq<Earning>) {
    forall i, j :: 0 <= i < j < |es| ==> es[i].date >= es[j].date
  }

  lemma {:induction false} InsertByDateSorted(es: seq<Earning>, e: Earning)
    requires Descending(es)
    ensures Descending(InsertByDate(es, e))
  {
    if |es| > 0 && es[0].date >= e.date {
      InsertByDateSorted(es[1..], e);
      var r := InsertByDate(es[1..], e);
      assert multiset(r) == multiset(es[1..]) + multiset{e};
      forall x | x in r ensures es[0].date >= x.date {
        assert x in multiset(r);
        if x != e {
          assert x in multiset(es[1..]);
          assert x in es[1..];
        }
      }
    }
  }

  /** The dashboard's list is newest first and holds exactly the projected lines. */
  lemma {:induction false} NewestFirstSpec(es: seq<Earning>)
    ensures Descending(NewestFirst(es)) && multiset(NewestFirst(es)) == multiset(es)
  {
    if |es| > 0 {
      NewestFirstSpec(es[..|es| - 1]);
      InsertByDateSorted(NewestFirst(es[..|es| - 1]), es[|es| - 1]);
    }
  }

  /** The dashboard of `getDataModders`. */
  datatype Dashboard = Dashboard(pendings: seq<PendingMod>, mods: seq<Mod>, boughts: seq<Earning>)

  function PendingOfGroup(pending: seq<PendingMod>, group: string): seq<PendingMod> {
    if |pending| == 0 then []
    else
      var init := PendingOfGroup(pending[..|pending| - 1], group);
      if pending[|pending| - 1].developer == Some(group) then init + [pending[|pending| - 1]] else init
  }

  function ModsOfGroup(mods: seq<Mod>, group: string): seq<Mod> {
    if |mods| == 0 then []
    else
      var init := ModsOfGroup(mods[..|mods| - 1], group);
      if mods[|mods| - 1].modsby == group then init + [mods[|mods| - 1]] else init
  }

  /** `getDataModders`: needs both an account and a developer row with the login. */
  function DataModders(t: Tables, username: Option<string>): Result<Dashboard, ModerError> {
    if username.None? then Failure(NoUser)
    else
      match UserByLogin(t.users, username.value)
      case None => Failure(UserNotFound)
      case Some(u) =>
        match DeveloperByName(t.developers, username.value)
        case None => Failure(DeveloperNotFound)
        case Some(d) =>
          var group := t.developers[d].modsby;
          Success(Dashboard(PendingOfGroup(t.pendingMods, group), ModsOfGroup(t.mods, group),
                            NewestFirst(EarningsOf(t.mods, t.profit, t.users[u].id))))
  }

  /** The dashboard shows the same lines as the earnings view, newest first. */
  lemma DashboardMatchesDetails(t: Tables, username: string)
    requires DataModders(t, Some(username)).Success?
    ensures DetailsBought(t, Some(username)).Success?
    ensures var b := DataModders(t, Some(username)).value.boughts;
      Descending(b) && multiset(b) == multiset(DetailsBought(t, Some(username)).value)
  {
    var u := UserByLogin(t.users, username).value;
    NewestFirstSpec(EarningsOf(t.mods, t.profit, t.users[u].id));
  }

  /**
   * A purchase transfer to the developer shows up as one more line of the developer's
   * earnings, showing the whole amount (the row's profit is 0) under the mod whose id is
   * the item reference.
   */
  lemma TransferShowsInEarnings(b: Tables, buyerId: int, modderName: string, amount: real,
                                item: string, today: int)
    requires amount >= 0.0
    requires DeveloperByName(b.developers, modderName).Some? && UserByLogin(b.users, modderName).Some?
    ensures var u := UserByLogin(b.users, modderName).value;
      var nb := Transfer(b, buyerId, modderName, amount, item, today).value;
      EarningsOf(nb.mods, nb.profit, b.users[u].id) ==
        EarningsOf(b.mods, b.profit, b.users[u].id) + [Earning(today, amount, false, ItemName(b.mods, item))]
  {
    TransferCredits(b, buyerId, modderName, amount, item, today);
    var nb := Transfer(b, buyerId, modderName, amount, item, today).value;
    assert nb.profit[..|nb.profit| - 1] == b.profit;
  }

  /** A deposit line shows the net minus the commission, 70% of the deposit. */
  lemma DepositShowsSeventyPercent(b: Tables, userId: int, amount: real, setMode: bool, today: int)
    requires amount >= 0.0 && UserById(b.users, userId).Some?
    ensures var nb := Deposit(b, userId, amount, setMode, today).value;
      EarningsOf(nb.mods, nb.profit, userId) ==
        EarningsOf(b.mods, b.profit, userId) + [Earning(today, amount * 0.7, false, ItemName(b.mods, DepositTag(setMode)))]
  {
    var nb := Deposit(b, userId, amount, setMode, today).value;
    assert nb.profit[..|nb.profit| - 1] == b.profit;
  }

  // ------------------------------------------------------------------ SetWebHook

  /** The first webhook of that mod name joined to a published mod of that NameDWS. */
  function JoinedHook(t: Tables, nameMod: string): Option<nat> {
    FirstIndex(t.webhooks, (h: Webhook) => h.nameMod == nameMod && ModByNameDWS(t.mods, h.nameMod).Some?)
  }

  /**
   * `SetWebHook`: a non-blank login with a developer row, a hook of the sent mod name joined
   * to a published mod, and that mod in the caller's developer group; then the three URLs
   * of the hook are replaced.
   */
  function SetHook(t: Tables, body: Option<Webhook>, username: Option<string>): (r: Result<Tables, ModerError>)
    ensures r.Success? ==> r.value == t.(webhooks := r.value.webhooks) && |r.value.webhooks| == |t.webhooks|
  {
    if username.None? || IsBlank(username.value) then Failure(NoUser)
    else
      match DeveloperByName(t.developers, username.value)
      case None => Failure(DeveloperNotFound)
      case Some(d) =>
        if body.None? then Failure(NoData)
        else
          match JoinedHook(t, body.value.nameMod)
          case None => Failure(HookNotFound)
          case Some(h) =>
            var m := ModByNameDWS(t.mods, t.webhooks[h].nameMod).value;
            if t.mods[m].modsby != t.developers[d].modsby then Failure(NoPermission)
            else
              var w := body.value;
              Success(t.(webhooks := t.webhooks[h := t.webhooks[h].(discordWeb := w.discordWeb,
                                                 discordWebOK := w.discordWebOK, discordWebER := w.discordWebER)]))
  }

  /**
   * The update is refused unless the hook's mod belongs to the caller's developer group;
   * when it passes, only the three Discord URLs of that one hook change.
   */
  lemma SetHookPermission(t: Tables, w: Webhook, username: string)
    requires !IsBlank(username) && DeveloperByName(t.developers, username).Some?
    requires JoinedHook(t, w.nameMod).Some?
    ensures var d := DeveloperByName(t.developers, username).value;
      var h := JoinedHook(t, w.nameMod).value;
      var m := ModByNameDWS(t.mods, t.webhooks[h].nameMod).value;
      var r := SetHook(t, Some(w), Some(username));
      t.webhooks[h].nameMod == w.nameMod && t.mods[m].nameDWS == w.nameMod &&
      (r.Success? <==> t.mods[m].modsby == t.developers[d].modsby) &&
      (r.Success? ==>
         r.value.webhooks == t.webhooks[h := Webhook(w.nameMod, w.discordWeb, w.discordWebOK, w.discordWebER)])
  {
  }

  // ------------------------------------------------------------------ on the database

  method CreateAMod(db: Database, body: Option<PendingMod>, username: Option<string>, newId: int)
    returns (r: Outcome<ModerError>)
    modifies db`pendingMods
    ensures match CreatePending(old(db.Snap()), body, username, newId)
      case Failure(e) => r == Fail(e) && db.Snap() == old(db.Snap())
      case Success(t) => r == Pass && db.Snap() == t
  {
    if body.None? { return Fail(NoData); }
    if username.None? { return Fail(NoUser); }
    var pendMod := body.value;
    var developer := Normalised(pendMod.developer, username.value);
    if ModByNameDWS(db.mods, pendMod.nameDWS).Some? { return Fail(NameTaken); }
    var client := ClientPieces(pendMod.imageUrl);
    var filesAssignments := client;
    var attempt := 0;
    while attempt < MaxAttempts
      invariant 0 <= attempt <= MaxAttempts
      invariant filesAssignments == client && (attempt > 0 ==> |FilePaths(db.files, pendMod.nameDWS)| == 0)
    {
      var dbFiles := FilePaths(db.files, pendMod.nameDWS);
      if |dbFiles| > 0 {
        filesAssignments := filesAssignments + dbFiles;
        break;
      }
      attempt := attempt + 1;
    }
    if filesAssignments == client {
      assert client + FilePaths(db.files, pendMod.nameDWS) == client;
    }
    var newMod := PendingMod(newId, pendMod.name, pendMod.nameDWS, pendMod.description,
                             pendMod.smallDescription, pendMod.categories, pendMod.required,
                             pendMod.price, Some(Join(filesAssignments, ImageSeparator)),
                             Some(developer), None);
    db.pendingMods := db.pendingMods + [newMod];
    return Pass;
  }

  /** The unlinking loop of the update handler: for each listed path off the client's list,
      the record the saved table finds first is marked for removal. */
  method MarkUnlinked(saved: seq<FileRecord>, name: string, client: seq<string>, dbFiles: seq<string>)
    returns (removed: set<nat>)
    requires forall p :: p in dbFiles ==> exists k :: 0 <= k < |saved| && saved[k].modName == name && saved[k].path == p
    ensures removed == Unlinked(saved, name, client, dbFiles)
  {
    removed := {};
    var i := 0;
    while i < |dbFiles|
      invariant 0 <= i <= |dbFiles|
      invariant removed == Unlinked(saved, name, client, dbFiles[..i])
    {
      var dbFile := dbFiles[i];
      if dbFile !in client {
        var fileEntity := FirstRecord(saved, name, dbFile);
        if fileEntity.Some? {
          removed := removed + {fileEntity.value};
        }
      }
      assert dbFile in dbFiles;
      UnlinkedStep(saved, name, client, dbFiles, i);
      i := i + 1;
    }
    assert dbFiles[..i] == dbFiles;
  }

  lemma UnlinkedStep(saved: seq<FileRecord>, name: string, client: seq<string>, dbFiles: seq<string>, i: nat)
    requires i < |dbFiles|
    requires exists k :: 0 <= k < |saved| && saved[k].modName == name && saved[k].path == dbFiles[i]
    ensures var p := dbFiles[i];
      var first := FirstRecord(saved, name, p);
      Unlinked(saved, name, client, dbFiles[..i + 1]) ==
        Unlinked(saved, name, client, dbFiles[..i]) + (if p !in client && first.Some? then {first.value} else {})
  {
    var p := dbFiles[i];
    var first := FirstRecord(saved, name, p);
    assert dbFiles[..i + 1] == dbFiles[..i] + [p];
    var a := Unlinked(saved, name, client, dbFiles[..i + 1]);
    var b := Unlinked(saved, name, client, dbFiles[..i]) + (if p !in client && first.Some? then {first.value} else {});
    forall k | k in a ensures k in b {
      if saved[k].path == p {
        assert first == Some(k);
      }
    }
    forall k | k in b ensures k in a {
      if p !in client && first.Some? && k == first.value {
        assert saved[k].modName == name && saved[k].path == p;
      }
    }
  }

  /** The image-list merge of the update handler. */
  method MergeImages(client: seq<string>, dbFiles: seq<string>) returns (filesAssignments: seq<string>)
    ensures filesAssignments == AppendNew(client, dbFiles)
  {
    filesAssignments := client;
    var i := 0;
    while i < |dbFiles|
      invariant 0 <= i <= |dbFiles|
      invariant filesAssignments == AppendNew(client, dbFiles[..i])
    {
      if dbFiles[i] !in filesAssignments {
        filesAssignments := filesAssignments + [dbFiles[i]];
      }
      assert dbFiles[..i + 1][..i] == dbFiles[..i];
      i := i + 1;
    }
    assert dbFiles[..i] == dbFiles;
  }

  method UpdateMod(db: Database, id: int, body: Option<Mod>, username: Option<string>)
    returns (r: Outcome<ModerError>)
    modifies db`mods, db`files
    ensures match UpdatePublished(old(db.Snap()), id, body, username)
      case Failure(e) => r == Fail(e) && db.Snap() == old(db.Snap())
      case Success(t) => r == Pass && db.Snap() == t
  {
    if body.None? { return Fail(NoData); }
    if username.None? { return Fail(NoUser); }
    var pendMod := body.value;
    if Clash(db.mods, pendMod.nameDWS, id).Some? { return Fail(NameTaken); }
    var editing := ModById(db.mods, id);
    if editing.None? { return Fail(ModNotFound); }
    var k := editing.value;
    var saved := db.files;
    var client := Images(pendMod.imageUrl);
    var dbFiles := FilePaths(saved, pendMod.nameDWS);
    forall p | p in dbFiles
      ensures exists j :: 0 <= j < |saved| && saved[j].modName == pendMod.nameDWS && saved[j].path == p
    {
      FilePathsMembers(saved, pendMod.nameDWS, p);
    }
    var removed := MarkUnlinked(saved, pendMod.nameDWS, client, dbFiles);
    var filesAssignments := MergeImages(client, dbFiles);
    db.files := Without(saved, removed);
    db.mods := db.mods[k := Edited(db.mods[k], pendMod, Join(filesAssignments, ImageSeparator))];
    return Pass;
  }

  method RemoveMod(db: Database, id: int, username: Option<string>) returns (r: Outcome<ModerError>)
    modifies db`mods
    ensures match RemovePublished(old(db.Snap()), id, username)
      case Failure(e) => r == Fail(e) && db.Snap() == old(db.Snap())
      case Success(t) => r == Pass && db.Snap() == t
  {
    if username.None? { return Fail(NoUser); }
    var k := ModById(db.mods, id);
    if k.None? { return Fail(ModNotFound); }
    if Owner(db.mods[k.value].modsby) != username.value { return Fail(NotYours); }
    db.mods := db.mods[..k.value] + db.mods[k.value + 1..];
    return Pass;
  }

  method RemovePend(db: Database, id: int, username: Option<string>) returns (r: Outcome<ModerError>)
    modifies db`pendingMods
    ensures match RemovePendingMod(old(db.Snap()), id, username)
      case Failure(e) => r == Fail(e) && db.Snap() == old(db.Snap())
      case Success(t) => r == Pass && db.Snap() == t
  {
    if username.None? { return Fail(NoUser); }
    var k := PendingById(db.pendingMods, id);
    if k.None? { return Fail(ModNotFound); }
    var removal := db.pendingMods[k.value];
    if removal.developer.None? { return Fail(NoDeveloperField); }
    if Owner(removal.developer.value) != username.value { return Fail(NotYours); }
    db.pendingMods := db.pendingMods[..k.value] + db.pendingMods[k.value + 1..];
    return Pass;
  }

  method SetWebHook(db: Database, body: Option<Webhook>, username: Option<string>) returns (r: Outcome<ModerError>)
    modifies db`webhooks
    ensures match SetHook(old(db.Snap()), body, username)
      case Failure(e) => r == Fail(e) && db.Snap() == old(db.Snap())
      case Success(t) => r == Pass && db.Snap() == t
  {
    if username.None? || IsBlank(username.value) { return Fail(NoUser); }
    var d := DeveloperByName(db.developers, username.value);
    if d.None? { return Fail(DeveloperNotFound); }
    if body.None? { return Fail(NoData); }
    var h := JoinedHook(db.Snap(), body.value.nameMod);
    if h.None? { return Fail(HookNotFound); }
    var m := ModByNameDWS(db.mods, db.webhooks[h.value].nameMod).value;
    if db.mods[m].modsby != db.developers[d.value].modsby { return Fail(NoPermission); }
    var w := body.value;
    db.webhooks := db.webhooks[h.value := db.webhooks[h.value].(discordWeb := w.discordWeb,
                                discordWebOK := w.discordWebOK, discordWebER := w.discordWebER)];
    return Pass;
  }
}
