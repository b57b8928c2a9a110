/**
 * The image gallery's request handler: the content-type check, the derivation
 * of a stored image's identifier, the upload workflow (validate, derive the
 * identifier, store the blob, resolve the owner, save the record) and the two
 * gallery pages.
 *
 * The pure parts (`IsImage`, `DeriveFileId`, `ParseToImage`) are functions.
 * The workflow and the pages are first given as functions of their inputs
 * (`Upload`, `IndexPage`, `DisplayPage`), about which the properties are
 * proved; the class `ImageController` then performs them step by step
 * against the collaborators' state and is proved to agree with them.
 */
module Controller {
  import opened JavaLang
  import opened Backends

  const IMAGE_TYPE := "image"
  const ANONYMOUS_USER := "anonymousUser"
  const REDIRECT_HOME := "redirect:/"
  const ERROR_VIEW := "error"
  const INDEX_VIEW := "index"

  /**
   * The uploaded multipart file. Each accessor may fail: the declared content
   * type and the original file name may be null (`None`), and reading the
   * bytes may throw (`None`).
   */
  datatype MultipartFile = MultipartFile(
    contentType: Option<string>,
    originalFilename: Option<string>,
    bytes: Option<Bytes>)

  /** Which of the collaborators' writes throw during one upload. */
  datatype Faults = Faults(storeFails: bool, saveFails: bool)

  /**
   * What a handler produces: the name of the view to render, or an exception
   * that leaves the handler uncaught.
   */
  datatype Response = View(name: string) | Uncaught(error: Exception)

  /** The view name and the attributes a gallery handler puts into its model. */
  datatype Page = Page(view: string, isAuth: bool, images: Option<seq<string>>, username: Option<string>)

  /** The content type names an image: it is exactly "image" or starts with "image/". */
  ghost predicate ImageType(s: string)
  {
    s == IMAGE_TYPE || (|s| >= 6 && s[..6] == IMAGE_TYPE + "/")
  }

  /**
   * `contentType.split("/")[0]`: the text before the first '/'. A null
   * content type throws, and so does one made of '/' only, for which `split`
   * returns no parts.
   */
  function MainType(contentType: Option<string>): (r: Result<string>)
    ensures contentType.None? ==> r == Thrown(NullPointer)
    ensures contentType.Some? ==>
      var s := contentType.value;
      && (r.Thrown? <==> s != [] && forall i :: 0 <= i < |s| ==> s[i] == '/')
      && (r.Thrown? ==> r.error == ArrayIndexOutOfBounds)
      && (r.Ok? ==> '/' !in r.value && (r.value == s || (|r.value| < |s| && s[..|r.value| + 1] == r.value + "/")))
  {
    match contentType
    case None => Thrown(NullPointer)
    case Some(s) =>
      var parts := Split(s, '/');
      if parts == [] then Thrown(ArrayIndexOutOfBounds) else Ok(parts[0])
  }

  /**
   * `isImage(file)`: the content type's main type is "image", so the content
   * type is exactly "image" or starts with "image/". Case matters. The
   * exceptions of `MainType` propagate.
   */
  function IsImage(contentType: Option<string>): (r: Result<bool>)
    ensures r.Thrown? <==> MainType(contentType).Thrown?
    ensures r.Thrown? ==> r.error == MainType(contentType).error
    ensures r == Ok(true) <==> MainType(contentType).Ok? && ImageType(contentType.value)
  {
    match MainType(contentType)
    case Thrown(e) => Thrown(e)
    case Ok(main) =>
      HeadIsImage(main, contentType.value);
      Ok(main == IMAGE_TYPE)
  }

  /**
   * A declared content type passes the check exactly when it is "image" or
   * starts with "image/"; the check throws exactly when the type is a
   * non-empty run of '/', and otherwise rejects it.
   */
  lemma IsImageExactly(s: string)
    ensures IsImage(Some(s)) == Ok(true) <==> ImageType(s)
    ensures IsImage(Some(s)).Thrown? <==> s != [] && forall i :: 0 <= i < |s| ==> s[i] == '/'
  {
    if ImageType(s) {
      assert s[0] == IMAGE_TYPE[0] by {
        assert s == IMAGE_TYPE || s[..6][0] == s[0];
      }
      assert MainType(Some(s)).Ok?;
    }
  }

  /** Image types a browser sends are accepted. */
  lemma IsImageAccepts()
    ensures IsImage(Some("image/png")) == Ok(true)
    ensures IsImage(Some("image")) == Ok(true)
  {
    var png := "image/png";
    assert png[..6] == IMAGE_TYPE + "/";
    ImageTypeAccepted(png);
    ImageTypeAccepted(IMAGE_TYPE);
  }

  /** A type of main type "image" is accepted. */
  lemma ImageTypeAccepted(s: string)
    requires ImageType(s)
    ensures IsImage(Some(s)) == Ok(true)
  {
    IsImageExactly(s);
  }

  /** Other types, and a main type that only starts with "image", are rejected. */
  lemma IsImageRejects()
    ensures IsImage(Some("Image/png")) == Ok(false)
    ensures IsImage(Some("imagex/png")) == Ok(false)
    ensures IsImage(Some("application/json")) == Ok(false)
  {
    var prefix := IMAGE_TYPE + "/";
    assert prefix[0] == 'i' && prefix[5] == '/';
    var upper, longer, other := "Image/png", "imagex/png", "application/json";
    assert upper[0] == 'I' && longer[5] == 'x' && other[0] == 'a';
    NotImageType(upper, 0);
    NotImageType(longer, 5);
    NotImageType(other, 0);
  }

  /** A type that is not a run of '/' and differs from "image/" at `k` is rejected. */
  lemma NotImageType(s: string, k: nat)
    requires k < 6 && k < |s| && s[k] != '/' && s[k] != (IMAGE_TYPE + "/")[k]
    ensures IsImage(Some(s)) == Ok(false)
  {
    IsImageExactly(s);
    assert s != IMAGE_TYPE && (|s| >= 6 ==> s[..6][k] == s[k]);
  }

  /** A missing, empty or separator-only content type. */
  lemma IsImageEdgeCases()
    ensures IsImage(None) == Thrown(NullPointer)
    ensures IsImage(Some("")) == Ok(false)
    ensures IsImage(Some("/")) == Thrown(ArrayIndexOutOfBounds)
  {
    IsImageExactly("");
    IsImageExactly("/");
  }

  /**
   * When `s` is a '/'-free `head`, alone or followed by a '/', `head` is
   * "image" exactly when `s` names an image type.
   */
  lemma HeadIsImage(head: string, s: string)
    requires '/' !in head
    requires s == head || (|s| > |head| && s[..|head| + 1] == head + "/")
    ensures head == IMAGE_TYPE <==> ImageType(s)
  {
    if s == head {
      assert |s| >= 6 ==> s[..6][5] == s[5];
    } else {
      assert s[|head|] == '/';
      assert |s| >= 6 && |head| < 6 ==> s[..6][|head|] == s[|head|];
      assert |head| > 5 ==> head[5] == s[5];
      assert |head| == 5 ==> head == s[..5] && s[..6] == head + "/";
    }
  }

  /**
   * The identifier a stored image gets: the random token followed by the
   * original file name from its last '.', the dot included. A null file name
   * throws, and so does one without a '.' (`substring(-1)`).
   */
  function DeriveFileId(token: string, originalFilename: Option<string>): (r: Result<string>)
    ensures r.Ok? <==> originalFilename.Some? && '.' in originalFilename.value
    ensures originalFilename.None? ==> r == Thrown(NullPointer)
    ensures originalFilename.Some? && '.' !in originalFilename.value ==> r == Thrown(StringIndexOutOfBounds)
    ensures r.Ok? ==>
      var name := originalFilename.value;
      exists k :: 0 <= k < |name| && name[k] == '.' && Extension(name) == name[k..] && r.value == token + name[k..]
  {
    match originalFilename
    case None => Thrown(NullPointer)
    case Some(name) =>
      match Substring(name, LastIndexOf(name, '.'))
      case Thrown(e) => Thrown(e)
      case Ok(extension) => Ok(token + extension)
  }

  /** The part of `name` from its last '.', or nothing when it has none. */
  function Extension(name: string): (e: string)
    ensures '.' in name ==>
      (1 <= |e| <= |name| && e[0] == '.' && '.' !in e[1..] && name == name[..|name| - |e|] + e)
    ensures '.' !in name ==> e == []
  {
    var k := LastIndexOf(name, '.');
    if k < 0 then [] else name[k..]
  }

  /**
   * The identifier keeps the original extension exactly, case included: when
   * the token holds no '.', as a UUID's text does not, the identifier's part
   * from its last '.' is the original name's.
   */
  lemma FileIdKeepsExtension(token: string, name: string)
    requires '.' !in token && '.' in name
    ensures DeriveFileId(token, Some(name)).Ok?
    ensures Extension(DeriveFileId(token, Some(name)).value) == Extension(name)
  {
    var id := DeriveFileId(token, Some(name)).value;
    var e := Extension(name);
    assert id == token + e;
    assert id[|token|] == '.';
    assert LastIndexOf(id, '.') == |token|;
  }

  /**
   * `parseToImage(fileId, user)`: the record for the blob stored under
   * `fileId`, owned by the user named like the principal. A null principal
   * throws; so does a principal no user is registered for.
   */
  function ParseToImage(root: string, fileId: string, principal: Option<string>, users: seq<User>): (r: Result<Image>)
    ensures r.Ok? <==> principal.Some? && FindUser(users, principal.value).Some?
    ensures r.Ok? ==>
      (r.value.path == StoragePath(root, fileId) && r.value.owner.username == principal.value
       && r.value.owner in users)
    ensures principal.None? ==> r == Thrown(NullPointer)
    ensures principal.Some? && r.Thrown? ==> r.error == UserNotFound
  {
    var path := StoragePath(root, fileId);
    match principal
    case None => Thrown(NullPointer)
    case Some(name) =>
      match FindUser(users, name)
      case None => Thrown(UserNotFound)
      case Some(owner) => Ok(Image(path, owner))
  }

  /** The outcome of one upload: the response and the writes made, in order. */
  datatype Plan = Plan(response: Response, effects: seq<Effect>)

  /**
   * `imageUpload(file, user)` as a function of its inputs, the storage root,
   * the registered users and which writes fail: the response and the writes
   * made, in order.
   */
  function Upload(file: MultipartFile, principal: Option<string>, token: string, root: string,
                  users: seq<User>, faults: Faults): (p: Plan)
    ensures p.response.Uncaught? <==> IsImage(file.contentType).Thrown?
    ensures p.effects != [] ==>
      IsImage(file.contentType) == Ok(true) && DeriveFileId(token, file.originalFilename).Ok? && file.bytes.Some?
  {
    match IsImage(file.contentType)
    case Thrown(e) => Plan(Uncaught(e), [])
    case Ok(false) => Plan(View(ERROR_VIEW), [])
    case Ok(true) =>
      match DeriveFileId(token, file.originalFilename)
      case Thrown(_) => Plan(View(ERROR_VIEW), [])
      case Ok(fileId) =>
        if file.bytes.None? then Plan(View(ERROR_VIEW), [])
        else Persist(fileId, file.bytes.value, principal, root, users, faults)
  }

  /**
   * The writes of a valid upload: store the bytes under `fileId`, resolve
   * the owner, save the record. A failure at any step renders the error view
   * and leaves the earlier writes in place.
   */
  function Persist(fileId: string, bytes: Bytes, principal: Option<string>, root: string,
                   users: seq<User>, faults: Faults): (p: Plan)
    ensures p.response.View?
    ensures p.effects == [] <==> faults.storeFails
    ensures p.effects != [] ==> p.effects[0] == StoreBlob(fileId, bytes)
    ensures p.response == View(REDIRECT_HOME) <==>
      !faults.storeFails && !faults.saveFails && principal.Some? && FindUser(users, principal.value).Some?
    ensures p.response == View(REDIRECT_HOME) ==>
      p.effects == [StoreBlob(fileId, bytes), SaveImage(ParseToImage(root, fileId, principal, users).value)]
    ensures p.response != View(REDIRECT_HOME) ==> p.response == View(ERROR_VIEW) && |p.effects| <= 1
  {
    if faults.storeFails then Plan(View(ERROR_VIEW), [])
    else
      var stored := [StoreBlob(fileId, bytes)];
      match ParseToImage(root, fileId, principal, users)
      case Thrown(_) => Plan(View(ERROR_VIEW), stored)
      case Ok(image) =>
        if faults.saveFails then Plan(View(ERROR_VIEW), stored)
        else Plan(View(REDIRECT_HOME), stored + [SaveImage(image)])
  }

  /**
   * What every upload does. Only the content-type check runs outside the
   * handler's `try`, so only its exceptions escape; every later failure
   * renders the error view. Nothing is written unless the file is an image
   * with an extension whose bytes can be read, and then the first write
   * stores those bytes under the derived identifier. The handler redirects
   * exactly when it also saves a record, second and last, under that
   * identifier's storage path and owned by the principal's user.
   */
  lemma UploadOutcomes(file: MultipartFile, principal: Option<string>, token: string, root: string,
                       users: seq<User>, faults: Faults)
    ensures var p := Upload(file, principal, token, root, users, faults);
      && (p.response.Uncaught? <==> IsImage(file.contentType).Thrown?)
      && (p.response.View? ==> p.response.name in {REDIRECT_HOME, ERROR_VIEW})
      && (IsImage(file.contentType) != Ok(true) ==> p.effects == [])
      && (DeriveFileId(token, file.originalFilename).Thrown? ==> p.effects == [])
      && (file.bytes.None? || faults.storeFails ==> p.effects == [])
      && (p.effects != [] ==>
            && DeriveFileId(token, file.originalFilename).Ok?
            && p.effects[0] == StoreBlob(DeriveFileId(token, file.originalFilename).value, file.bytes.value))
      && |p.effects| <= 2
      && (p.response == View(REDIRECT_HOME) <==> |p.effects| == 2)
      && (p.response == View(REDIRECT_HOME) <==>
            && IsImage(file.contentType) == Ok(true)
            && file.originalFilename.Some? && '.' in file.originalFilename.value
            && file.bytes.Some? && !faults.storeFails
            && principal.Some? && FindUser(users, principal.value).Some?
            && !faults.saveFails)
      && (p.response == View(REDIRECT_HOME) ==>
            && principal.Some?
            && p.effects[1].SaveImage?
            && p.effects[1].image.path == StoragePath(root, p.effects[0].id)
            && p.effects[1].image.owner.username == principal.value)
  {
  }

  /** A file whose content type is not an image is rejected and nothing is written. */
  lemma UploadRejectsNonImage(file: MultipartFile, principal: Option<string>, token: string, root: string,
                              users: seq<User>, faults: Faults)
    requires IsImage(file.contentType) == Ok(false)
    ensures Upload(file, principal, token, root, users, faults) == Plan(View(ERROR_VIEW), [])
  {
  }

  /** An image whose original name has no '.' is rejected and nothing is written. */
  lemma UploadRejectsMissingExtension(file: MultipartFile, principal: Option<string>, token: string, root: string,
                                      users: seq<User>, faults: Faults)
    requires IsImage(file.contentType) == Ok(true)
    requires file.originalFilename.Some? && '.' !in file.originalFilename.value
    ensures Upload(file, principal, token, root, users, faults) == Plan(View(ERROR_VIEW), [])
  {
  }

  /**
   * When the owner cannot be resolved after the blob was stored, the error
   * view is rendered, no record is saved and the blob stays behind.
   */
  lemma UploadLeavesOrphanWithoutOwner(file: MultipartFile, principal: Option<string>, token: string, root: string,
                                       users: seq<User>, faults: Faults, b: Backend)
    requires IsImage(file.contentType) == Ok(true)
    requires file.originalFilename.Some? && '.' in file.originalFilename.value
    requires file.bytes.Some? && !faults.storeFails
    requires principal.None? || FindUser(users, principal.value).None?
    ensures var id := DeriveFileId(token, file.originalFilename).value;
      var p := Upload(file, principal, token, root, users, faults);
      && p == Plan(View(ERROR_VIEW), [StoreBlob(id, file.bytes.value)])
      && Apply(b, p.effects) == Backend(b.blobs[id := file.bytes.value], b.images)
  {
  }

  /**
   * When saving the record fails after the blob was stored, the error view
   * is rendered, no record is saved and the blob stays behind.
   */
  lemma UploadLeavesOrphanWhenSaveFails(file: MultipartFile, principal: Option<string>, token: string, root: string,
                                        users: seq<User>, faults: Faults, b: Backend)
    requires IsImage(file.contentType) == Ok(true)
    requires file.originalFilename.Some? && '.' in file.originalFilename.value
    requires file.bytes.Some? && !faults.storeFails
    requires principal.Some? && FindUser(users, principal.value).Some?
    requires faults.saveFails
    ensures var id := DeriveFileId(token, file.originalFilename).value;
      var p := Upload(file, principal, token, root, users, faults);
      && p == Plan(View(ERROR_VIEW), [StoreBlob(id, file.bytes.value)])
      && Apply(b, p.effects) == Backend(b.blobs[id := file.bytes.value], b.images)
  {
  }

  /**
   * The original file name comes from the client and may hold a '/' after
   * its last '.': the identifier then holds it too, and the listing links to
   * the last component of the stored path rather than to the identifier.
   */
  lemma SlashInExtensionSplitsStoredPath(root: string)
    ensures DeriveFileId("t", Some("a.b/c")) == Ok("t.b/c")
    ensures FileName(StoragePath(root, "t.b/c")) == Ok("c")
  {
    var name, id := "a.b/c", "t.b/c";
    assert name[1] == '.' && '.' !in name[2..];
    assert LastIndexOf(name, '.') == 1;
    assert Substring(name, 1) == Ok(name[1..]);
    assert "t" + name[1..] == id;
    var p := StoragePath(root, id);
    assert p[|p| - 1] == 'c' && p[|p| - 2] == '/';
    assert !IsRoot(p);
    assert LastIndexOf(p, '/') == |p| - 2;
    assert p[|p| - 1..] == "c";
  }

  /**
   * A successful upload stores the bytes under the derived identifier, then
   * appends exactly one record, owned by the principal's user. When the
   * identifier has no '/', the record's path has it as its file name, so the
   * listing's link resolves to the uploaded bytes.
   */
  lemma UploadSuccess(file: MultipartFile, principal: Option<string>, token: string, root: string,
                      users: seq<User>, faults: Faults, b: Backend)
    requires Upload(file, principal, token, root, users, faults).response == View(REDIRECT_HOME)
    ensures var id := DeriveFileId(token, file.originalFilename).value;
      var b' := Apply(b, Upload(file, principal, token, root, users, faults).effects);
      && b'.blobs == b.blobs[id := file.bytes.value]
      && |b'.images| == |b.images| + 1 && b'.images[..|b.images|] == b.images
      && b'.images[|b.images|] == Image(StoragePath(root, id), FindUser(users, principal.value).value)
      && ('/' !in id ==> FileName(b'.images[|b.images|].path) == Ok(id) && b'.blobs[id] == file.bytes.value)
  {
    var id := DeriveFileId(token, file.originalFilename).value;
    var p := Upload(file, principal, token, root, users, faults);
    var image := ParseToImage(root, id, principal, users).value;
    assert p == Persist(id, file.bytes.value, principal, root, users, faults);
    assert p.effects == [StoreBlob(id, file.bytes.value), SaveImage(image)];
    ApplyTwo(b, StoreBlob(id, file.bytes.value), SaveImage(image));
  }

  /** The writes of a valid upload save the record only after its blob is stored. */
  lemma PersistSavesAfterStoring(fileId: string, bytes: Bytes, principal: Option<string>, root: string,
                                 users: seq<User>, faults: Faults, b: Backend)
    ensures SavedAfterStored(root, b, Persist(fileId, bytes, principal, root, users, faults).effects)
  {
    var effects := Persist(fileId, bytes, principal, root, users, faults).effects;
    if !faults.storeFails {
      var next := Step(b, StoreBlob(fileId, bytes));
      var image := ParseToImage(root, fileId, principal, users);
      assert effects[1..] == if image.Ok? && !faults.saveFails then [SaveImage(image.value)] else [];
      assert image.Ok? ==> StoredAt(root, next.blobs, image.value.path);
    }
  }

  /** Every upload saves its record only after the record's blob is stored. */
  lemma UploadSavesAfterStoring(file: MultipartFile, principal: Option<string>, token: string, root: string,
                                users: seq<User>, faults: Faults, b: Backend)
    ensures SavedAfterStored(root, b, Upload(file, principal, token, root, users, faults).effects)
  {
    var fileId := DeriveFileId(token, file.originalFilename);
    if IsImage(file.contentType) == Ok(true) && fileId.Ok? && file.bytes.Some? {
      PersistSavesAfterStoring(fileId.value, file.bytes.value, principal, root, users, faults, b);
    }
  }

  /** An upload keeps every record pointing at a stored blob. */
  lemma UploadKeepsLinked(file: MultipartFile, principal: Option<string>, token: string, root: string,
                          users: seq<User>, faults: Faults, b: Backend)
    requires Linked(root, b)
    ensures Linked(root, Apply(b, Upload(file, principal, token, root, users, faults).effects))
  {
    UploadSavesAfterStoring(file, principal, token, root, users, faults, b);
    ApplyKeepsLinked(root, b, Upload(file, principal, token, root, users, faults).effects);
  }

  /** The authentication name is someone's other than the anonymous user's. */
  predicate IsAuthenticated(authName: string)
  {
    authName != ANONYMOUS_USER
  }

  /**
   * The comparison with the anonymous user's name is exact and
   * case-sensitive: only "anonymousUser" itself is unauthenticated.
   */
  lemma AuthenticationByExactName()
    ensures !IsAuthenticated(ANONYMOUS_USER)
    ensures IsAuthenticated("AnonymousUser") && IsAuthenticated("anonymoususer")
    ensures IsAuthenticated("") && IsAuthenticated("alice")
  {
    assert "AnonymousUser"[0] != ANONYMOUS_USER[0];
    assert "anonymoususer"[9] != ANONYMOUS_USER[9];
  }

  /**
   * The names a gallery links to: the file-name component of each listed
   * path, in listing order. The stream's `toString()` throws when a listed
   * path is a root, which has no file name.
   */
  function ServedNames(paths: seq<string>): (r: Result<seq<string>>)
    ensures r.Ok? <==> forall i :: 0 <= i < |paths| ==> !IsRoot(paths[i])
    ensures r.Thrown? ==> r.error == NullPointer
    ensures r.Ok? ==> |r.value| == |paths| && forall i :: 0 <= i < |paths| ==> Ok(r.value[i]) == FileName(paths[i])
  {
    if forall i :: 0 <= i < |paths| ==> !IsRoot(paths[i]) then
      Ok(seq(|paths|, i requires 0 <= i < |paths| && !IsRoot(paths[i]) => FileName(paths[i]).value))
    else
      Thrown(NullPointer)
  }

  /**
   * Listing the storage paths of non-empty, '/'-free identifiers links to
   * exactly those identifiers, in the same order.
   */
  lemma ServedNamesOfStoredPaths(root: string, ids: seq<string>)
    requires forall i :: 0 <= i < |ids| ==> ids[i] != [] && '/' !in ids[i]
    ensures ServedNames(seq(|ids|, i requires 0 <= i < |ids| => StoragePath(root, ids[i]))) == Ok(ids)
  {
    var paths := seq(|ids|, i requires 0 <= i < |ids| => StoragePath(root, ids[i]));
    forall i | 0 <= i < |ids|
      ensures FileName(paths[i]) == Ok(ids[i])
    {
      assert paths[i] == StoragePath(root, ids[i]);
    }
    var names := ServedNames(paths);
    assert names.Ok?;
    forall i | 0 <= i < |ids|
      ensures names.value[i] == ids[i]
    {
      assert Ok(names.value[i]) == FileName(paths[i]);
    }
    assert names.value == ids;
  }

  /**
   * `index(model, user)`: the anonymous visitor gets the landing page without
   * images; an authenticated visitor gets every stored image and their
   * username, or the error view when the principal is null, is not a
   * registered user, the store cannot be listed (`listing` is `None`), or a
   * listed path has no file name.
   */
  function IndexPage(authName: string, principal: Option<string>, users: seq<User>,
                     listing: Option<seq<string>>): (pg: Page)
    ensures pg.isAuth == IsAuthenticated(authName)
    ensures !pg.isAuth ==> pg == Page(INDEX_VIEW, false, None, None)
    ensures pg.isAuth ==>
      (pg.view == INDEX_VIEW <==>
        principal.Some? && FindUser(users, principal.value).Some? && listing.Some?
        && ServedNames(listing.value).Ok?)
    ensures pg.view in {INDEX_VIEW, ERROR_VIEW}
    ensures pg.images.Some? <==> pg.isAuth && pg.view == INDEX_VIEW
    ensures pg.images.Some? ==> Ok(pg.images.value) == ServedNames(listing.value) && pg.username == principal
  {
    var isAuth := IsAuthenticated(authName);
    if !isAuth then Page(INDEX_VIEW, false, None, None)
    else if principal.None? || FindUser(users, principal.value).None? || listing.None?
      || ServedNames(listing.value).Thrown? then
      Page(ERROR_VIEW, true, None, None)
    else
      Page(INDEX_VIEW, true, Some(ServedNames(listing.value).value), principal)
  }

  /**
   * `displayImages(model, user)`: the viewer's own images (`listing` is what
   * the store lists for that user, `None` when it throws) and their username,
   * or the error view when the principal is null or not a registered user,
   * or a listed path has no file name. Unlike the index, the branch does not
   * depend on the authentication flag.
   */
  function DisplayPage(authName: string, principal: Option<string>, users: seq<User>,
                       listing: Option<seq<string>>): (pg: Page)
    ensures pg.isAuth == IsAuthenticated(authName)
    ensures pg.view == INDEX_VIEW <==>
      principal.Some? && FindUser(users, principal.value).Some? && listing.Some?
      && ServedNames(listing.value).Ok?
    ensures pg.view in {INDEX_VIEW, ERROR_VIEW}
    ensures pg.images.Some? <==> pg.view == INDEX_VIEW
    ensures pg.images.Some? ==> Ok(pg.images.value) == ServedNames(listing.value) && pg.username == principal
  {
    var isAuth := IsAuthenticated(authName);
    if principal.None? || FindUser(users, principal.value).None? || listing.None?
      || ServedNames(listing.value).Thrown? then
      Page(ERROR_VIEW, isAuth, None, None)
    else
      Page(INDEX_VIEW, isAuth, Some(ServedNames(listing.value).value), principal)
  }

  /**
   * A listing that holds a root path has no file name for it: both pages
   * render the error view, the index only for an authenticated visitor.
   */
  lemma RootPathListingRendersError(authName: string, principal: Option<string>, users: seq<User>,
                                    paths: seq<string>, k: nat)
    requires k < |paths| && IsRoot(paths[k])
    ensures ServedNames(paths) == Thrown(NullPointer)
    ensures DisplayPage(authName, principal, users, Some(paths)).view == ERROR_VIEW
    ensures IsAuthenticated(authName) ==> IndexPage(authName, principal, users, Some(paths)).view == ERROR_VIEW
  {
    assert FileName(paths[k]).Thrown?;
  }

  /** The controller: its collaborators and the authentication flag it keeps. */
  class ImageController {
    const storage: StorageService
    const imageRepository: ImageRepository
    const userRepository: UserRepository
    var isAuth: bool
    /** The writes made to the collaborators so far, in order. */
    ghost var trace: seq<Effect>
    /** The collaborators' state when the controller was created. */
    ghost const start: Backend

    constructor (storage: StorageService, imageRepository: ImageRepository, userRepository: UserRepository)
      ensures this.storage == storage && this.imageRepository == imageRepository
      ensures this.userRepository == userRepository
      ensures !isAuth && trace == [] && start == Backend(storage.blobs, imageRepository.images)
      ensures Valid()
    {
      this.storage := storage;
      this.imageRepository := imageRepository;
      this.userRepository := userRepository;
      isAuth := false;
      trace := [];
      start := Backend(storage.blobs, imageRepository.images);
    }

    /**
     * The collaborators hold what the traced writes made of the starting
     * state, and every traced record was saved after its blob was stored.
     */
    ghost predicate Valid()
      reads this, storage, imageRepository
    {
      && State() == Apply(start, trace)
      && SavedAfterStored(storage.root, start, trace)
    }

    /** The state of the blob store and the image repository. */
    ghost function State(): Backend
      reads storage, imageRepository
    {
      Backend(storage.blobs, imageRepository.images)
    }

    /** `setAuthStatus()`: records whether the current authentication is not anonymous. */
    method SetAuthStatus(authName: string)
      modifies this`isAuth
      ensures isAuth == IsAuthenticated(authName)
    {
      isAuth := IsAuthenticated(authName);
    }

    /** `index(model, user)`, with the store's listing given as `listing`. */
    method Index(authName: string, principal: Option<string>, listing: Option<seq<string>>) returns (page: Page)
      modifies this`isAuth
      ensures isAuth == IsAuthenticated(authName)
      ensures page == IndexPage(authName, principal, userRepository.users, listing)
    {
      SetAuthStatus(authName);
      if isAuth {
        if principal.None? {
          return Page(ERROR_VIEW, isAuth, None, None);
        }
        var user := FindUser(userRepository.users, principal.value);
        if user.None? || listing.None? {
          return Page(ERROR_VIEW, isAuth, None, None);
        }
        var names := ServedNames(listing.value);
        if names.Thrown? {
          return Page(ERROR_VIEW, isAuth, None, None);
        }
        return Page(INDEX_VIEW, isAuth, Some(names.value), principal);
      }
      return Page(INDEX_VIEW, isAuth, None, None);
    }

    /** `displayImages(model, user)`, with the store's listing for the user given as `listing`. */
    method DisplayImages(authName: string, principal: Option<string>, listing: Option<seq<string>>) returns (page: Page)
      modifies this`isAuth
      ensures isAuth == IsAuthenticated(authName)
      ensures page == DisplayPage(authName, principal, userRepository.users, listing)
    {
      SetAuthStatus(authName);
      if principal.None? {
        return Page(ERROR_VIEW, isAuth, None, None);
      }
      var user := FindUser(userRepository.users, principal.value);
      if user.None? || listing.None? {
        return Page(ERROR_VIEW, isAuth, None, None);
      }
      var names := ServedNames(listing.value);
      if names.Thrown? {
        return Page(ERROR_VIEW, isAuth, None, None);
      }
      return Page(INDEX_VIEW, isAuth, Some(names.value), principal);
    }

    /**
     * `imageUpload(file, user)` with the identifier's random token given as
     * `token`: performs the writes of `Upload` in order and returns its
     * response; the user repository is left alone, and records stay linked
     * to stored blobs.
     */
    method ImageUpload(file: MultipartFile, principal: Option<string>, token: string, faults: Faults)
      returns (res: Response)
      modifies storage, imageRepository, this`trace
      ensures var plan := Upload(file, principal, token, storage.root, userRepository.users, faults);
        && res == plan.response
        && State() == Apply(old(State()), plan.effects)
        && trace == old(trace) + plan.effects
      ensures old(Linked(storage.root, State())) ==> Linked(storage.root, State())
      ensures old(Valid()) ==> Valid()
    {
      ghost var plan := Upload(file, principal, token, storage.root, userRepository.users, faults);
      KeepsInvariants(file, principal, token, faults, State(), trace);

      var isImage := IsImage(file.contentType);
      if isImage.Thrown? {
        assert plan == Plan(Uncaught(isImage.error), []);
        return Uncaught(isImage.error);
      }
      if !isImage.value {
        assert plan == Plan(View(ERROR_VIEW), []);
        return View(ERROR_VIEW);
      }
      var fileId := DeriveFileId(token, file.originalFilename);
      if fileId.Thrown? || file.bytes.None? {
        assert plan == Plan(View(ERROR_VIEW), []);
        return View(ERROR_VIEW);
      }
      assert plan == Persist(fileId.value, file.bytes.value, principal, storage.root, userRepository.users, faults);
      res := StoreAndSave(fileId.value, file.bytes.value, principal, faults);
    }

    /**
     * The body of `imageUpload`'s `try` once the identifier and the bytes are
     * known: `storageService.store`, `parseToImage`, `imageRepository.save`,
     * in this order, stopping at the first exception.
     */
    method StoreAndSave(fileId: string, bytes: Bytes, principal: Option<string>, faults: Faults)
      returns (res: Response)
      modifies storage, imageRepository, this`trace
      ensures var plan := Persist(fileId, bytes, principal, storage.root, userRepository.users, faults);
        && res == plan.response
        && State() == Apply(old(State()), plan.effects)
        && trace == old(trace) + plan.effects
    {
      ghost var before := State();
      ghost var plan := Persist(fileId, bytes, principal, storage.root, userRepository.users, faults);
      var stored := storage.Store(fileId, bytes, faults.storeFails);
      if stored.Thrown? {
        assert plan == Plan(View(ERROR_VIEW), []);
        return View(ERROR_VIEW);
      }
      var blob := StoreBlob(fileId, bytes);
      trace := trace + [blob];
      assert State() == Step(before, blob) == Apply(before, [blob]);
      var image := ParseToImage(storage.root, fileId, principal, userRepository.users);
      if image.Thrown? {
        assert plan == Plan(View(ERROR_VIEW), [blob]);
        return View(ERROR_VIEW);
      }
      var saved := imageRepository.Save(image.value, faults.saveFails);
      if saved.Thrown? {
        assert plan == Plan(View(ERROR_VIEW), [blob]);
        return View(ERROR_VIEW);
      }
      trace := trace + [SaveImage(image.value)];
      var record := SaveImage(image.value);
      assert plan == Plan(View(REDIRECT_HOME), [blob, record]);
      assert State() == Step(Step(before, blob), record);
      ApplyTwo(before, blob, record);
      return View(REDIRECT_HOME);
    }

    /**
     * What the class invariant buys: when every record of the starting state
     * pointed at a stored blob, every record still does, whatever the traced
     * uploads did.
     */
    lemma ValidKeepsLinked()
      requires Valid() && Linked(storage.root, start)
      ensures Linked(storage.root, State())
    {
      ApplyKeepsLinked(storage.root, start, trace);
    }

    /**
     * An upload from state `b`, reached by the writes `prior`, keeps every
     * record linked to a stored blob, and extends a valid trace to a valid
     * trace.
     */
    lemma KeepsInvariants(file: MultipartFile, principal: Option<string>, token: string, faults: Faults,
                          b: Backend, prior: seq<Effect>)
      ensures var effects := Upload(file, principal, token, storage.root, userRepository.users, faults).effects;
        && (Linked(storage.root, b) ==> Linked(storage.root, Apply(b, effects)))
        && (b == Apply(start, prior) && SavedAfterStored(storage.root, start, prior) ==>
              && Apply(b, effects) == Apply(start, prior + effects)
              && SavedAfterStored(storage.root, start, prior + effects))
    {
      var effects := Upload(file, principal, token, storage.root, userRepository.users, faults).effects;
      if Linked(storage.root, b) {
        UploadKeepsLinked(file, principal, token, storage.root, userRepository.users, faults, b);
      }
      if b == Apply(start, prior) && SavedAfterStored(storage.root, start, prior) {
        UploadSavesAfterStoring(file, principal, token, storage.root, userRepository.users, faults, b);
        ApplyAppend(start, prior, effects);
        SavedAfterStoredAppend(storage.root, start, prior, effects);
      }
    }
  }
}
