/**
 * The collaborators the image controller writes to and reads from: the blob
 * store (`StorageService`), the image metadata repository (`ImageRepository`)
 * and the user repository (`UserRepository`). Their implementations are not
 * part of this model; each is reduced to the state it holds and the one
 * operation the controller calls, whose failure is a parameter.
 */
module Backends {
  import opened JavaLang

  type Bytes = seq<bv8>

  /** A registered user; only the username is used by the controller. */
  datatype User = User(username: string)

  /** An image metadata record: the stored blob's path and its uploader. */
  datatype Image = Image(path: string, owner: User)

  /**
   * `storageService.getPath(fileId)`: the blob's path under the storage root.
   * The file name of that path is the identifier again, when the identifier
   * is non-empty and holds no separator.
   */
  function StoragePath(root: string, fileId: string): (p: string)
    ensures |p| > |root| && p[..|root| + 1] == root + "/" && p[|root| + 1..] == fileId
    ensures fileId != [] && '/' !in fileId ==> FileName(p) == Ok(fileId)
  {
    var p := root + "/" + fileId;
    assert p[|p| - |fileId| - 1] == '/';
    assert fileId != [] ==> p[|p| - 1] == fileId[|fileId| - 1];
    p
  }

  /**
   * `userRepository.findByUsername(name)`: a user whose username is
   * `name`, or nothing when no user has that name.
   */
  function FindUser(users: seq<User>, name: string): (r: Option<User>)
    ensures r.Some? ==> r.value in users && r.value.username == name
    ensures r.None? <==> forall i :: 0 <= i < |users| ==> users[i].username != name
    decreases |users|
  {
    if users == [] then None
    else if users[0].username == name then Some(users[0])
    else FindUser(users[1..], name)
  }

  datatype Option<T> = None | Some(value: T)

  /** One write the controller makes to its collaborators. */
  datatype Effect =
    | StoreBlob(id: string, bytes: Bytes)  // `storageService.store(id, bytes)`
    | SaveImage(image: Image)              // `imageRepository.save(image)`

  /** The state of the blob store and the image repository together. */
  datatype Backend = Backend(blobs: map<string, Bytes>, images: seq<Image>)

  /** The state after one write. */
  function Step(b: Backend, e: Effect): Backend
  {
    match e
    case StoreBlob(id, bytes) => b.(blobs := b.blobs[id := bytes])
    case SaveImage(image) => b.(images := b.images + [image])
  }

  /** The state after a sequence of writes, performed in order. */
  function Apply(b: Backend, effects: seq<Effect>): Backend
    decreases |effects|
  {
    if effects == [] then b else Apply(Step(b, effects[0]), effects[1..])
  }

  /** Two writes are performed one after the other. */
  lemma ApplyTwo(b: Backend, first: Effect, second: Effect)
    ensures Apply(b, [first, second]) == Step(Step(b, first), second)
  {
    assert [first, second][1..] == [second];
    assert Apply(Step(b, first), [second]) == Apply(Step(Step(b, first), second), []);
  }

  /** Running two sequences of writes one after the other runs their concatenation. */
  lemma {:induction false} ApplyAppend(b: Backend, first: seq<Effect>, second: seq<Effect>)
    ensures Apply(b, first + second) == Apply(Apply(b, first), second)
    decreases |first|
  {
    if first != [] {
      assert (first + second)[0] == first[0];
      assert (first + second)[1..] == first[1..] + second;
      ApplyAppend(Step(b, first[0]), first[1..], second);
    } else {
      assert first + second == second;
    }
  }

  /** `path` is the storage path of some blob held in `blobs`. */
  ghost predicate StoredAt(root: string, blobs: map<string, Bytes>, path: string)
  {
    |path| > |root| && path[..|root| + 1] == root + "/" && path[|root| + 1..] in blobs
  }

  /** Every metadata record points at a stored blob. */
  ghost predicate Linked(root: string, b: Backend)
  {
    forall i :: 0 <= i < |b.images| ==> StoredAt(root, b.blobs, b.images[i].path)
  }

  /**
   * Each record in `effects` is saved only when, at that point of the run,
   * its path already points at a stored blob.
   */
  ghost predicate SavedAfterStored(root: string, b: Backend, effects: seq<Effect>)
    decreases |effects|
  {
    effects == [] ||
    ((effects[0].SaveImage? ==> StoredAt(root, b.blobs, effects[0].image.path)) &&
     SavedAfterStored(root, Step(b, effects[0]), effects[1..]))
  }

  /**
   * Two runs that each save a record only after its blob keep doing so when
   * the second runs after the first.
   */
  lemma {:induction false} SavedAfterStoredAppend(root: string, b: Backend, first: seq<Effect>, second: seq<Effect>)
    requires SavedAfterStored(root, b, first)
    requires SavedAfterStored(root, Apply(b, first), second)
    ensures SavedAfterStored(root, b, first + second)
    decreases |first|
  {
    if first != [] {
      assert (first + second)[0] == first[0];
      assert (first + second)[1..] == first[1..] + second;
      SavedAfterStoredAppend(root, Step(b, first[0]), first[1..], second);
    } else {
      assert first + second == second;
    }
  }

  /**
   * Writes never remove or change an existing record and never remove a
   * blob: the old records are a prefix of the new ones and the old blob
   * identifiers are among the new ones.
   */
  lemma {:induction false} ApplyOnlyAdds(b: Backend, effects: seq<Effect>)
    ensures b.images <= Apply(b, effects).images
    ensures b.blobs.Keys <= Apply(b, effects).blobs.Keys
    decreases |effects|
  {
    if effects != [] {
      ApplyOnlyAdds(Step(b, effects[0]), effects[1..]);
    }
  }

  /** A run that saves each record after its blob keeps every record linked. */
  lemma {:induction false} ApplyKeepsLinked(root: string, b: Backend, effects: seq<Effect>)
    requires Linked(root, b)
    requires SavedAfterStored(root, b, effects)
    ensures Linked(root, Apply(b, effects))
    decreases |effects|
  {
    if effects != [] {
      var next := Step(b, effects[0]);
      assert Linked(root, next) by {
        forall i | 0 <= i < |next.images|
          ensures StoredAt(root, next.blobs, next.images[i].path)
        {
          if i < |b.images| {
            assert next.images[i] == b.images[i];
            assert StoredAt(root, b.blobs, b.images[i].path);
          }
        }
      }
      ApplyKeepsLinked(root, next, effects[1..]);
    }
  }

  /** The blob store: file contents by identifier, under a fixed root directory. */
  class StorageService {
    const root: string
    var blobs: map<string, Bytes>

    constructor (root: string)
      ensures this.root == root && blobs == map[]
    {
      this.root := root;
      blobs := map[];
    }

    /** `store(fileId, bytes)`: writes the blob, or throws when the write `fails`. */
    method Store(fileId: string, bytes: Bytes, fails: bool) returns (r: Result<()>)
      modifies this
      ensures r == if fails then Thrown(StorageFailure) else Ok(())
      ensures blobs == if fails then old(blobs) else old(blobs)[fileId := bytes]
    {
      if fails {
        return Thrown(StorageFailure);
      }
      blobs := blobs[fileId := bytes];
      return Ok(());
    }
  }

  /** The image metadata repository: the saved records, in saving order. */
  class ImageRepository {
    var images: seq<Image>

    constructor ()
      ensures images == []
    {
      images := [];
    }

    /** `save(image)`: appends the record, or throws when the write `fails`. */
    method Save(image: Image, fails: bool) returns (r: Result<()>)
      modifies this
      ensures r == if fails then Thrown(PersistenceFailure) else Ok(())
      ensures images == if fails then old(images) else old(images) + [image]
    {
      if fails {
        return Thrown(PersistenceFailure);
      }
      images := images + [image];
      return Ok(());
    }
  }

  /** The user repository, which the controller only reads. */
  class UserRepository {
    var users: seq<User>

    constructor (users: seq<User>)
      ensures this.users == users
    {
      this.users := users;
    }
  }
}
