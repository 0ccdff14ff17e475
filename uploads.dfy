/**
 * The image-list bookkeeping of the upload controller: the request guards, the
 * `"!--!"`-joined `image_url` list of a mod (or of a pending mod), and the file records.
 *
 * Paths are built the Windows way: segments joined with '\', the stored form relative to the
 * public folder with every '\' turned into '/'. What the disk holds (how many files a folder
 * has, whether a file exists, whether a path stays inside the public folder) is a parameter.
 */
module Uploads {
  import opened Wrappers
  import opened Text
  import opened Records
  import opened Store
  import opened IdLists

  const MaxFiles: nat := 8
  const AllowedExtensions: seq<string> := [".jpg", ".jpeg", ".png", ".webp", ".gif"]
  const AllowedMimeTypes: seq<string> := ["image/jpeg", "image/png", "image/webp", "image/gif"]
  const ImageSeparator: string := "!--!"

  /** One file of the upload form. */
  datatype FormFile = FormFile(fileName: string, contentType: string)

  datatype FileError =
    | NoFiles | TooManyFiles | NoModName | BadUser | FolderFull | NotAnImage
    | OutsidePublicFolder
    | FileMissing   // the file to delete is not on disk (its list entry goes all the same)

  // ------------------------------------------------------------------ file names

  predicate IsSeparator(c: char) {
    c == '\\' || c == '/'
  }

  /** `Path.GetExtension` on the first `i` characters: scanning back to the last '.', which
      must not be the final character, and never past a directory separator. */
  function ExtensionIn(s: string, i: nat): string
    requires i <= |s|
  {
    if i == 0 then ""
    else if s[i - 1] == '.' then (if i != |s| then s[i - 1..] else "")
    else if IsSeparator(s[i - 1]) then ""
    else ExtensionIn(s, i - 1)
  }

  function Extension(fileName: string): string {
    ExtensionIn(fileName, |fileName|)
  }

  /** An extension is empty or a final part of the name that starts with its only '.', holds
      no separator and has at least one character after the dot. */
  lemma {:induction false} ExtensionShape(s: string, i: nat)
    requires i <= |s|
    requires forall k :: i <= k < |s| ==> s[k] != '.' && !IsSeparator(s[k])
    ensures var e := ExtensionIn(s, i);
      e == "" ||
      (2 <= |e| <= |s| && e == s[|s| - |e|..] && e[0] == '.' &&
       forall k :: 1 <= k < |e| ==> e[k] != '.' && !IsSeparator(e[k]))
    decreases i
  {
    if i > 0 && s[i - 1] != '.' && !IsSeparator(s[i - 1]) {
      ExtensionShape(s, i - 1);
    }
  }

  /** A file passes when its lower-cased extension and lower-cased MIME type are both listed. */
  predicate IsImage(f: FormFile) {
    ToLower(Extension(f.fileName)) in AllowedExtensions && ToLower(f.contentType) in AllowedMimeTypes
  }

  /** Every file of the form passes. */
  predicate AllImages(fs: seq<FormFile>) {
    |fs| == 0 || (AllImages(fs[..|fs| - 1]) && IsImage(fs[|fs| - 1]))
  }

  lemma {:induction false} AllImagesEach(fs: seq<FormFile>)
    ensures AllImages(fs) <==> forall k :: 0 <= k < |fs| ==> IsImage(fs[k])
  {
    if |fs| > 0 {
      var init := fs[..|fs| - 1];
      AllImagesEach(init);
      assert forall k :: 0 <= k < |init| ==> init[k] == fs[k];
    }
  }

  /** The base-relative path of an upload before the separators are rewritten:
      `uploads\<user>\<mod>\<file>`. */
  function RawRelative(username: string, modName: string, fileName: string): string {
    "uploads\\" + username + "\\" + modName + "\\" + fileName
  }

  /** The stored form of a path: every '\' becomes '/'. */
  function Slashed(s: string): (r: string)
    ensures |r| == |s|
    ensures forall k :: 0 <= k < |r| ==> r[k] != '\\'
  {
    seq(|s|, k requires 0 <= k < |s| => if s[k] == '\\' then '/' else s[k])
  }

  /** The full path an upload is written to, under the public folder. */
  function FullPath(basePath: string, username: string, modName: string, fileName: string): string {
    basePath + "\\" + RawRelative(username, modName, fileName)
  }

  function RelativePath(username: string, modName: string, fileName: string): string {
    Slashed(RawRelative(username, modName, fileName))
  }

  // ------------------------------------------------------------------ image lists

  function NonEmpty(xs: seq<string>): (r: seq<string>)
    ensures forall k :: 0 <= k < |r| ==> r[k] != ""
  {
    if |xs| == 0 then []
    else if xs[|xs| - 1] == "" then NonEmpty(xs[..|xs| - 1])
    else NonEmpty(xs[..|xs| - 1]) + [xs[|xs| - 1]]
  }

  /** `image_url?.Split("!--!", RemoveEmptyEntries)`, the empty list for a missing value. */
  function Images(url: Option<string>): (r: seq<string>)
    ensures forall k :: 0 <= k < |r| ==> r[k] != ""
  {
    match url
    case None => []
    case Some(s) => NonEmpty(SplitOn(s, ImageSeparator))
  }

  /** An entry the list can hold and give back: not empty, no '!' in it. */
  predicate Storable(x: string) {
    x != "" && Free(x, ImageSeparator)
  }

  predicate AllStorable(xs: seq<string>) {
    forall k :: 0 <= k < |xs| ==> Storable(xs[k])
  }

  lemma {:induction false} NonEmptyKeeps(xs: seq<string>)
    requires forall k :: 0 <= k < |xs| ==> xs[k] != ""
    ensures NonEmpty(xs) == xs
  {
    if |xs| > 0 {
      NonEmptyKeeps(xs[..|xs| - 1]);
      assert xs[..|xs| - 1] + [xs[|xs| - 1]] == xs;
    }
  }

  /** Joining storable entries and splitting again gives back the entries, the empty list
      included. */
  lemma ImagesOfJoin(xs: seq<string>)
    requires AllStorable(xs)
    ensures Images(Some(Join(xs, ImageSeparator))) == xs
  {
    if |xs| == 0 {
      NoMatchInFree("", ImageSeparator);
      assert SplitOn("", ImageSeparator) == [""];
      assert NonEmpty([""]) == NonEmpty([]);
    } else {
      SplitOnJoin(xs, ImageSeparator);
      NonEmptyKeeps(xs);
    }
  }

  /** Where an image list is kept: the published mod with that NameDWS if there is one, else
      the pending mod with it. */
  datatype Target = InMods(k: nat) | InPending(k: nat) | Nowhere

  function ImageTarget(t: Tables, modName: string): (r: Target)
    ensures r.InMods? ==> r.k < |t.mods| && t.mods[r.k].nameDWS == modName
    ensures r.InPending? ==> r.k < |t.pendingMods| && t.pendingMods[r.k].nameDWS == modName &&
                             ModByNameDWS(t.mods, modName).None?
    ensures r.Nowhere? <==> ModByNameDWS(t.mods, modName).None? && PendingByNameDWS(t.pendingMods, modName).None?
  {
    match ModByNameDWS(t.mods, modName)
    case Some(k) => InMods(k)
    case None =>
      match PendingByNameDWS(t.pendingMods, modName)
      case Some(k) => InPending(k)
      case None => Nowhere
  }

  /** The target's list as it is now. */
  function TargetImages(t: Tables, target: Target): seq<string>
    requires target.InMods? ==> target.k < |t.mods|
    requires target.InPending? ==> target.k < |t.pendingMods|
  {
    match target
    case InMods(k) => Images(t.mods[k].imageUrl)
    case InPending(k) => Images(t.pendingMods[k].imageUrl)
    case Nowhere => []
  }

  /** Stores `xs`, joined, as the target's image list; nothing else changes. */
  function SetImages(t: Tables, target: Target, xs: seq<string>): (r: Tables)
    requires target.InMods? ==> target.k < |t.mods|
    requires target.InPending? ==> target.k < |t.pendingMods|
    ensures r == t.(mods := r.mods, pendingMods := r.pendingMods)
    ensures |r.mods| == |t.mods| && |r.pendingMods| == |t.pendingMods|
  {
    var url := Some(Join(xs, ImageSeparator));
    match target
    case InMods(k) => t.(mods := t.mods[k := t.mods[k].(imageUrl := url)])
    case InPending(k) => t.(pendingMods := t.pendingMods[k := t.pendingMods[k].(imageUrl := url)])
    case Nowhere => t
  }

  /** `ModifyModInfo`: the stored path is appended to the target's list. */
  function AddImage(t: Tables, modName: string, path: string): (r: Tables)
    ensures r == t.(mods := r.mods, pendingMods := r.pendingMods)
    ensures |r.mods| == |t.mods| && |r.pendingMods| == |t.pendingMods|
  {
    var target := ImageTarget(t, modName);
    SetImages(t, target, TargetImages(t, target) + [path])
  }

  /** `DeleteModInfo`: the first entry equal to `name` leaves the target's list. */
  function DropImage(t: Tables, modName: string, name: string): (r: Tables)
    ensures r == t.(mods := r.mods, pendingMods := r.pendingMods)
    ensures |r.mods| == |t.mods| && |r.pendingMods| == |t.pendingMods|
  {
    var target := ImageTarget(t, modName);
    SetImages(t, target, RemoveFirst(TargetImages(t, target), name))
  }

  /** Only the target row changes: the published mod if one has the name, else the pending
      mod, and with neither nothing changes. */
  lemma SetImagesTouchesTarget(t: Tables, modName: string, xs: seq<string>)
    ensures var target := ImageTarget(t, modName);
      var r := SetImages(t, target, xs);
      (target.InMods? ==>
         r.pendingMods == t.pendingMods &&
         r.mods == t.mods[target.k := t.mods[target.k].(imageUrl := r.mods[target.k].imageUrl)]) &&
      (target.InPending? ==>
         r.mods == t.mods &&
         r.pendingMods == t.pendingMods[target.k := t.pendingMods[target.k].(imageUrl := r.pendingMods[target.k].imageUrl)]) &&
      (target.Nowhere? ==> r == t)
  {
  }

  /** The list read back after adding is the old non-empty entries, in order, then the new
      path (for entries without '!'). */
  lemma AddImageAppends(t: Tables, modName: string, path: string)
    requires var target := ImageTarget(t, modName);
      Storable(path) && AllStorable(TargetImages(t, target))
    ensures var target := ImageTarget(t, modName);
      TargetImages(AddImage(t, modName, path), target) ==
        if target.Nowhere? then [] else TargetImages(t, target) + [path]
  {
    var target := ImageTarget(t, modName);
    var xs := TargetImages(t, target) + [path];
    ImagesOfJoin(xs);
  }

  /** The list read back after deleting is the old list without its first entry equal to
      `name`, the others in order (for entries without '!'). */
  lemma DropImageRemovesFirst(t: Tables, modName: string, name: string)
    requires var target := ImageTarget(t, modName);
      AllStorable(TargetImages(t, target))
    ensures var target := ImageTarget(t, modName);
      var xs := TargetImages(t, target);
      var ys := TargetImages(DropImage(t, modName, name), target);
      (name !in xs ==> ys == xs) &&
      (name in xs ==> ys == xs[..IndexOf(xs, name)] + xs[IndexOf(xs, name) + 1..])
  {
    var target := ImageTarget(t, modName);
    var xs := TargetImages(t, target);
    RemoveFirstAt(xs, name);
    var ys := RemoveFirst(xs, name);
    if target.Nowhere? {
      assert xs == [];
    } else {
      forall k | 0 <= k < |ys| ensures Storable(ys[k]) {
        if name in xs {
          var j := IndexOf(xs, name);
          if k < j { assert ys[k] == xs[k]; } else { assert ys[k] == xs[k + 1]; }
        }
      }
      ImagesOfJoin(ys);
    }
  }

  /** A name not on the list changes nothing but the empty pieces the split drops. */
  lemma DropAbsentImage(t: Tables, modName: string, name: string)
    requires name !in TargetImages(t, ImageTarget(t, modName))
    ensures DropImage(t, modName, name) == SetImages(t, ImageTarget(t, modName), TargetImages(t, ImageTarget(t, modName)))
  {
    RemoveFirstAt(TargetImages(t, ImageTarget(t, modName)), name);
  }

  // ------------------------------------------------------------------ file records

  /** `CreateNewInfoAboutFile`: a record with the base-relative path, unless a saved record
      already has the full path. */
  function RecordFile(saved: seq<FileRecord>, files: seq<FileRecord>, name: string,
                      fullPath: string, relative: string): seq<FileRecord>
  {
    if exists k :: 0 <= k < |saved| && saved[k].path == fullPath then files
    else files + [FileRecord(name, relative, None)]
  }

  /** The full path of an upload is never its stored (relative) path, so the check for an
      existing record never matches a record an upload stored: each upload of a file, a
      repeated one too, adds a record. */
  lemma UploadRecordsNeverMatch(basePath: string, username: string, modName: string, fileName: string,
                                saved: seq<FileRecord>, files: seq<FileRecord>)
    requires forall k :: 0 <= k < |saved| ==> forall j :: 0 <= j < |saved[k].path| ==> saved[k].path[j] != '\\'
    ensures var full := FullPath(basePath, username, modName, fileName);
      var rel := RelativePath(username, modName, fileName);
      RecordFile(saved, files, modName, full, rel) == files + [FileRecord(modName, rel, None)]
  {
    var full := FullPath(basePath, username, modName, fileName);
    assert |basePath| < |full| && full[|basePath|] == '\\';
  }

  // ------------------------------------------------------------------ UploadFiles

  /** One accepted file: its record, then its path on the target's image list. */
  function StoreOne(t: Tables, saved: seq<FileRecord>, basePath: string, username: string,
                    modName: string, f: FormFile): (r: Tables)
    ensures r == t.(mods := r.mods, pendingMods := r.pendingMods, files := r.files)
    ensures r.files == RecordFile(saved, t.files, modName, FullPath(basePath, username, modName, f.fileName),
                                  RelativePath(username, modName, f.fileName))
  {
    var full := FullPath(basePath, username, modName, f.fileName);
    var rel := RelativePath(username, modName, f.fileName);
    var withRecord := t.(files := RecordFile(saved, t.files, modName, full, rel));
    AddImage(withRecord, modName, rel)
  }

  function StoreAll(t: Tables, saved: seq<FileRecord>, basePath: string, username: string,
                    modName: string, fs: seq<FormFile>): (r: Tables)
    ensures r == t.(mods := r.mods, pendingMods := r.pendingMods, files := r.files)
  {
    if |fs| == 0 then t
    else StoreOne(StoreAll(t, saved, basePath, username, modName, fs[..|fs| - 1]), saved, basePath,
                  username, modName, fs[|fs| - 1])
  }

  /**
   * `UploadFiles`: at least one and at most 8 files, a mod name and a user name, a folder
   * that does not already hold more than 8 files, and images only. A rejected file ends the
   * request before anything is saved.
   */
  function AcceptUpload(t: Tables, basePath: string, fs: seq<FormFile>, modName: string,
                        username: Option<string>, inFolder: nat): (r: Result<Tables, FileError>)
    ensures r.Success? ==> r.value == t.(mods := r.value.mods, pendingMods := r.value.pendingMods,
                                         files := r.value.files)
  {
    if |fs| == 0 then Failure(NoFiles)
    else if |fs| > MaxFiles then Failure(TooManyFiles)
    else if IsBlank(modName) then Failure(NoModName)
    else if username.None? || IsBlank(username.value) then Failure(BadUser)
    else if inFolder > MaxFiles then Failure(FolderFull)
    else if !AllImages(fs) then Failure(NotAnImage)
    else Success(StoreAll(t, t.files, basePath, username.value, modName, fs))
  }

  /** An upload succeeds exactly when every guard passes. */
  lemma AcceptUploadGuards(t: Tables, basePath: string, fs: seq<FormFile>, modName: string,
                           username: Option<string>, inFolder: nat)
    ensures AcceptUpload(t, basePath, fs, modName, username, inFolder).Success? <==>
      1 <= |fs| <= MaxFiles && !IsBlank(modName) && username.Some? && !IsBlank(username.value) &&
      inFolder <= MaxFiles && forall k :: 0 <= k < |fs| ==> IsImage(fs[k])
  {
    AllImagesEach(fs);
  }

  /** A file without an extension is never an image. */
  lemma NoExtensionRejected(f: FormFile)
    requires Extension(f.fileName) == ""
    ensures !IsImage(f)
  {
    assert ToLower("") == "";
  }

  /** The records an upload of `fs` adds, one per file, in order. */
  function NewRecords(username: string, modName: string, fs: seq<FormFile>): (r: seq<FileRecord>)
    ensures |r| == |fs|
    ensures forall k :: 0 <= k < |fs| ==> r[k] == FileRecord(modName, RelativePath(username, modName, fs[k].fileName), None)
  {
    seq(|fs|, k requires 0 <= k < |fs| => FileRecord(modName, RelativePath(username, modName, fs[k].fileName), None))
  }

  /** Each accepted file adds exactly one record, after the existing ones (when the saved
      records are those of earlier uploads). */
  lemma {:induction false} StoreAllRecords(t: Tables, saved: seq<FileRecord>, basePath: string,
                                           username: string, modName: string, fs: seq<FormFile>)
    requires forall k :: 0 <= k < |saved| ==> forall j :: 0 <= j < |saved[k].path| ==> saved[k].path[j] != '\\'
    ensures StoreAll(t, saved, basePath, username, modName, fs).files == t.files + NewRecords(username, modName, fs)
  {
    if |fs| > 0 {
      var init := fs[..|fs| - 1];
      var f := fs[|fs| - 1];
      StoreAllRecords(t, saved, basePath, username, modName, init);
      var t1 := StoreAll(t, saved, basePath, username, modName, init);
      UploadRecordsNeverMatch(basePath, username, modName, f.fileName, saved, t1.files);
      NewRecordsLast(username, modName, fs);
      assert StoreAll(t, saved, basePath, username, modName, fs).files ==
        t1.files + [FileRecord(modName, RelativePath(username, modName, f.fileName), None)];
    }
  }

  /** The records of a batch are those of all but its last file, then the last file's. */
  lemma NewRecordsLast(username: string, modName: string, fs: seq<FormFile>)
    requires |fs| > 0
    ensures NewRecords(username, modName, fs) ==
      NewRecords(username, modName, fs[..|fs| - 1]) +
      [FileRecord(modName, RelativePath(username, modName, fs[|fs| - 1].fileName), None)]
  {
  }

  // ------------------------------------------------------------------ RemoveFiles

  /** A name starting with "<user>\" or "<user>/ " loses its first |user| + 1 characters
      (the space after "<user>/" stays). */
  function CleanName(fileName: string, username: string): (r: string)
    ensures StartsWith(fileName, username + "/ ") || StartsWith(fileName, username + "\\") ==>
      r == fileName[|username| + 1..]
    ensures !(StartsWith(fileName, username + "/ ") || StartsWith(fileName, username + "\\")) ==>
      r == fileName
    ensures fileName == r || fileName == fileName[..|fileName| - |r|] + r
  {
    if StartsWith(fileName, username + "/ ") || StartsWith(fileName, username + "\\")
    then fileName[|username| + 1..]
    else fileName
  }

  /** A delete that got past the guards: the new tables, the cleaned name taken off the
      disk (none when no such file existed) and the answer, which is a refusal naming the
      missing file even though the list entry has gone. */
  datatype Removal = Removal(t: Tables, deleted: Option<string>, answer: Outcome<FileError>)

  /**
   * `RemoveFiles`: after the name guards and the public-folder check, the list entry named
   * by the name as sent (not the cleaned one) is removed whether or not the file exists;
   * the answer is `Pass` when the file was on disk and `FileMissing` when it was not.
   */
  function RemoveUpload(t: Tables, modName: string, username: Option<string>, fileName: string,
                        inside: bool, onDisk: bool): (r: Result<Removal, FileError>)
    ensures r.Success? ==> r.value.t == DropImage(t, modName, fileName)
    ensures r.Success? ==> (r.value.answer == Pass <==> onDisk) &&
                           (r.value.answer.Fail? ==> r.value.answer.error == FileMissing)
    ensures r.Success? ==> (r.value.deleted.Some? <==> onDisk)
  {
    if IsBlank(modName) then Failure(NoModName)
    else if username.None? || IsBlank(username.value) then Failure(BadUser)
    else if !inside then Failure(OutsidePublicFolder)
    else if onDisk then
      Success(Removal(DropImage(t, modName, fileName), Some(CleanName(fileName, username.value)), Pass))
    else
      Success(Removal(DropImage(t, modName, fileName), None, Fail(FileMissing)))
  }

  /** Whether or not the file existed, the tables agree afterwards; only the disk delete and
      the answer differ. */
  lemma RemoveIgnoresDisk(t: Tables, modName: string, username: Option<string>, fileName: string, inside: bool)
    ensures var a := RemoveUpload(t, modName, username, fileName, inside, true);
      var b := RemoveUpload(t, modName, username, fileName, inside, false);
      a.Success? == b.Success? &&
      (a.Success? ==>
         a.value.t == b.value.t &&
         a.value.deleted == Some(CleanName(fileName, username.value)) && a.value.answer == Pass &&
         b.value.deleted.None? && b.value.answer == Fail(FileMissing))
  {
  }

  // ------------------------------------------------------------------ on the database

  method ModifyModInfo(db: Database, modName: string, path: string)
    modifies db`mods, db`pendingMods
    ensures db.Snap() == AddImage(old(db.Snap()), modName, path)
  {
    var m := ModByNameDWS(db.mods, modName);
    var p := PendingByNameDWS(db.pendingMods, modName);
    if m.Some? {
      var allImages := Images(db.mods[m.value].imageUrl);
      allImages := allImages + [path];
      db.mods := db.mods[m.value := db.mods[m.value].(imageUrl := Some(Join(allImages, ImageSeparator)))];
    } else if p.Some? {
      var allImages := Images(db.pendingMods[p.value].imageUrl);
      allImages := allImages + [path];
      db.pendingMods := db.pendingMods[p.value := db.pendingMods[p.value].(imageUrl := Some(Join(allImages, ImageSeparator)))];
    }
  }

  method DeleteModInfo(db: Database, modName: string, name: string)
    modifies db`mods, db`pendingMods
    ensures db.Snap() == DropImage(old(db.Snap()), modName, name)
  {
    var m := ModByNameDWS(db.mods, modName);
    var p := PendingByNameDWS(db.pendingMods, modName);
    if m.Some? {
      var allImages := Images(db.mods[m.value].imageUrl);
      allImages := RemoveFirst(allImages, name);
      db.mods := db.mods[m.value := db.mods[m.value].(imageUrl := Some(Join(allImages, ImageSeparator)))];
    } else if p.Some? {
      var allImages := Images(db.pendingMods[p.value].imageUrl);
      allImages := RemoveFirst(allImages, name);
      db.pendingMods := db.pendingMods[p.value := db.pendingMods[p.value].(imageUrl := Some(Join(allImages, ImageSeparator)))];
    }
  }

  method CreateNewInfoAboutFile(db: Database, saved: seq<FileRecord>, name: string,
                                fullPath: string, relative: string)
    modifies db`files
    ensures db.files == RecordFile(saved, old(db.files), name, fullPath, relative)
  {
    var k := 0;
    while k < |saved|
      invariant 0 <= k <= |saved|
      invariant forall j :: 0 <= j < k ==> saved[j].path != fullPath
    {
      if saved[k].path == fullPath { return; }
      k := k + 1;
    }
    db.files := db.files + [FileRecord(name, relative, None)];
  }

  /** The end of the upload loop's body for an accepted file: its record, then its list entry. */
  method StoreFile(db: Database, saved: seq<FileRecord>, basePath: string, username: string,
                   modName: string, f: FormFile)
    modifies db`mods, db`pendingMods, db`files
    ensures db.Snap() == StoreOne(old(db.Snap()), saved, basePath, username, modName, f)
  {
    var full := FullPath(basePath, username, modName, f.fileName);
    var rel := RelativePath(username, modName, f.fileName);
    CreateNewInfoAboutFile(db, saved, modName, full, rel);
    ModifyModInfo(db, modName, rel);
  }

  /** The upload loop: stores every file in turn, and puts the three tables back as they were
      at the first file that is not an image. */
  method StoreFiles(db: Database, basePath: string, username: string, modName: string,
                    fs: seq<FormFile>) returns (ok: bool)
    modifies db`mods, db`pendingMods, db`files
    ensures ok == AllImages(fs)
    ensures ok ==> db.Snap() == StoreAll(old(db.Snap()), old(db.files), basePath, username, modName, fs)
    ensures !ok ==> db.Snap() == old(db.Snap())
  {
    ghost var t0 := db.Snap();
    var saved := db.files;
    var mods0, pending0 := db.mods, db.pendingMods;
    var i := 0;
    while i < |fs|
      invariant 0 <= i <= |fs| && saved == t0.files
      invariant mods0 == t0.mods && pending0 == t0.pendingMods
      invariant AllImages(fs[..i])
      invariant db.Snap() == StoreAll(t0, saved, basePath, username, modName, fs[..i])
    {
      var f := fs[i];
      if !IsImage(f) {
        AllImagesEach(fs);
        db.mods, db.pendingMods, db.files := mods0, pending0, saved;
        return false;
      }
      StoreFile(db, saved, basePath, username, modName, f);
      assert fs[..i + 1][..i] == fs[..i];
      assert AllImages(fs[..i + 1]);
      i := i + 1;
    }
    assert fs[..i] == fs;
    return true;
  }

  /** `UploadFiles` on the database; a rejected file discards the changes of the request. */
  method UploadFiles(db: Database, basePath: string, fs: seq<FormFile>, modName: string,
                     username: Option<string>, inFolder: nat) returns (r: Outcome<FileError>)
    modifies db`mods, db`pendingMods, db`files
    ensures match AcceptUpload(old(db.Snap()), basePath, fs, modName, username, inFolder)
      case Failure(e) => r == Fail(e) && db.Snap() == old(db.Snap())
      case Success(t) => r == Pass && db.Snap() == t
  {
    if |fs| == 0 { return Fail(NoFiles); }
    if |fs| > MaxFiles { return Fail(TooManyFiles); }
    if IsBlank(modName) { return Fail(NoModName); }
    if username.None? || IsBlank(username.value) { return Fail(BadUser); }
    if inFolder > MaxFiles { return Fail(FolderFull); }
    var ok := StoreFiles(db, basePath, username.value, modName, fs);
    if !ok { return Fail(NotAnImage); }
    return Pass;
  }

  /** `RemoveFiles` on the database; returns the answer and the cleaned name taken off the
      disk, if any. A missing file is refused after its list entry has been removed. */
  method RemoveFiles(db: Database, modName: string, username: Option<string>, fileName: string,
                     inside: bool, onDisk: bool) returns (r: Outcome<FileError>, deleted: Option<string>)
    modifies db`mods, db`pendingMods
    ensures match RemoveUpload(old(db.Snap()), modName, username, fileName, inside, onDisk)
      case Failure(e) => r == Fail(e) && db.Snap() == old(db.Snap()) && deleted.None?
      case Success(v) => r == v.answer && db.Snap() == v.t && deleted == v.deleted
  {
    deleted := None;
    if IsBlank(modName) { return Fail(NoModName), None; }
    if username.None? || IsBlank(username.value) { return Fail(BadUser), None; }
    var cleanFileName := CleanName(fileName, username.value);
    if !inside { return Fail(OutsidePublicFolder), None; }
    if !onDisk {
      DeleteModInfo(db, modName, fileName);
      return Fail(FileMissing), None;
    }
    deleted := Some(cleanFileName);
    DeleteModInfo(db, modName, fileName);
    return Pass, deleted;
  }
}
