# Image gallery controller — a Dafny model

This project models the request handler of a small Spring MVC image gallery
(`ImageController`). The handler does four things:

- It decides from an upload's declared content type whether the upload is an
  image (`isImage`). The check is the text before the first `/`, compared with
  `"image"`.
- It derives the stored file's identifier (`fileId`): a random token followed
  by the original file name from its last `.`.
- It runs the upload workflow (`imageUpload` with `parseToImage`):
  1. check the type;
  2. derive the identifier;
  3. store the bytes in the blob store;
  4. resolve the owner from the principal;
  5. save a metadata record.

  The workflow ends in `redirect:/` or in the `error` view.
- It renders the two gallery pages (`index`, `displayImages`) after recording
  whether the caller is authenticated (`setAuthStatus`). The pages link to the
  file-name component of each stored path.

The project has three modules:

- `JavaLang` states the Java library behaviour the handler depends on:
  - `String.split` with its dropping of trailing empty strings;
  - `lastIndexOf` returning -1;
  - `substring` throwing on a negative start;
  - `Path.getFileName`, which is null for a root path.

  Exceptions are values of `Result`.
- `Backends` reduces the collaborators to their state:
  - the blob store is a map from identifier to bytes;
  - the image repository is a sequence of records;
  - the user repository is a sequence of users.

  The blob store and the image repository each have one write operation,
  which can be told to fail; the user repository is only read. A write is
  also an `Effect`. `Apply` runs a sequence of effects on a `Backend`
  value. The invariant `Linked` says every record points at a stored blob.
- `Controller` holds the handler itself:
  - `Upload`, `IndexPage` and `DisplayPage` are functions of the inputs, about
    which the properties are proved.
  - The class `ImageController` performs the same steps in place. Each of its
    methods is proved to agree with those functions.
  - `ImageUpload` also keeps a ghost trace of the writes it made, in order.
    The class invariant `Valid` says the collaborators hold what those writes
    made of the state the controller started from, and that each traced
    record was saved after its blob.

An exception thrown by the content-type check escapes the handler
(`Response.Uncaught`), because that check runs before the `try`. An exception
thrown later is caught, and the handler renders `error`.

## Model

| member | source | states |
|---|---|---|
| JavaLang.LastIndexOf | src/main/java/com/dsleandro/imagegallery/controller/ImageController.java:122 | the result is -1 exactly when the character is absent; otherwise it is an occurrence with none after it |
| JavaLang.Substring | src/main/java/com/dsleandro/imagegallery/controller/ImageController.java:122 | succeeds exactly for a start within the string, and then the result is the string's tail from there; otherwise it throws StringIndexOutOfBounds |
| JavaLang.Split | src/main/java/com/dsleandro/imagegallery/controller/ImageController.java:148 | `split("/")` is empty exactly when the text is a non-empty run of separators; otherwise its first part has no separator and is the whole text, or the prefix up to the first separator |
| JavaLang.FileName | src/main/java/com/dsleandro/imagegallery/controller/ImageController.java:64 | `getFileName().toString()` throws NullPointer exactly for a root path (non-empty, only '/'); otherwise the name is the longest '/'-free suffix of the path |
| Backends.StoragePath | src/main/java/com/dsleandro/imagegallery/controller/ImageController.java:159 | the storage path is root, '/', identifier; its file name is the identifier when that is non-empty and has no '/' |
| Backends.FindUser | src/main/java/com/dsleandro/imagegallery/controller/ImageController.java:161-162 | the lookup finds a registered user with exactly that username, or nothing exactly when no user has it |
| Backends.StorageService.Store | src/main/java/com/dsleandro/imagegallery/controller/ImageController.java:125 | a store either throws and leaves the blobs unchanged, or maps the identifier to the bytes |
| Backends.ImageRepository.Save | src/main/java/com/dsleandro/imagegallery/controller/ImageController.java:131 | a save either throws and leaves the records unchanged, or appends the record |
| Backends.ApplyOnlyAdds | src/main/java/com/dsleandro/imagegallery/controller/ImageController.java:125-131 | the handler's writes never remove or alter a record and never remove a blob |
| Backends.ApplyKeepsLinked | src/main/java/com/dsleandro/imagegallery/controller/ImageController.java:125-131 | writes that save each record after its blob keep every record pointing at a stored blob |
| Backends.ApplyAppend | src/main/java/com/dsleandro/imagegallery/controller/ImageController.java:125-131 | running two sequences of writes one after the other is running their concatenation |
| Backends.SavedAfterStoredAppend | src/main/java/com/dsleandro/imagegallery/controller/ImageController.java:125-131 | two runs that each save records only after their blobs do so together |
| Controller.MainType | src/main/java/com/dsleandro/imagegallery/controller/ImageController.java:148 | `getContentType().split("/")[0]` throws NullPointer for a null type and ArrayIndexOutOfBounds exactly for a run of '/'; otherwise it is the text before the first '/' |
| Controller.IsImage | src/main/java/com/dsleandro/imagegallery/controller/ImageController.java:146-155 | the check throws exactly when the main type cannot be taken; it is true exactly when the type is "image" or starts with "image/" |
| Controller.IsImageExactly | src/main/java/com/dsleandro/imagegallery/controller/ImageController.java:146-155 | for any non-null type: accepted exactly when it is "image" or starts with "image/", and throws exactly when it is a non-empty run of '/' |
| Controller.IsImageAccepts | src/main/java/com/dsleandro/imagegallery/controller/ImageController.java:148-151 | "image/png" and "image" pass |
| Controller.IsImageRejects | src/main/java/com/dsleandro/imagegallery/controller/ImageController.java:148-153 | the comparison is case-sensitive and exact: "Image/png", "imagex/png" and "application/json" fail without throwing |
| Controller.NotImageType | src/main/java/com/dsleandro/imagegallery/controller/ImageController.java:148-153 | a type that differs from "image/" within its first six characters, at a position holding no '/', is rejected |
| Controller.IsImageEdgeCases | src/main/java/com/dsleandro/imagegallery/controller/ImageController.java:148 | a null type throws NullPointer, an empty type is rejected, and "/" throws ArrayIndexOutOfBounds |
| Controller.DeriveFileId | src/main/java/com/dsleandro/imagegallery/controller/ImageController.java:122 | the identifier exists exactly when the original name is non-null and has a '.'; it is the token followed by the name from its last '.'; a null name throws NullPointer and a name without '.' throws StringIndexOutOfBounds |
| Controller.Extension | src/main/java/com/dsleandro/imagegallery/controller/ImageController.java:122 | the extension is the suffix from the last '.', starting with '.' and holding no other '.' |
| Controller.FileIdKeepsExtension | src/main/java/com/dsleandro/imagegallery/controller/ImageController.java:122 | with a '.'-free token, the identifier's extension equals the original name's, case included |
| Controller.ParseToImage | src/main/java/com/dsleandro/imagegallery/controller/ImageController.java:157-166 | a record results exactly when the principal is non-null and names a registered user; its path is the identifier's storage path and its owner is that user; otherwise it throws NullPointer or UserNotFound |
| Controller.Upload | src/main/java/com/dsleandro/imagegallery/controller/ImageController.java:115-144 | only a content-type exception escapes the handler; nothing is written unless the type is an image, an identifier can be derived and the bytes can be read |
| Controller.Persist | src/main/java/com/dsleandro/imagegallery/controller/ImageController.java:124-137 | the body of the `try` after the identifier: always a view; the blob is written first, exactly when the store does not fail; it redirects exactly when the store and the save do not fail and the principal names a registered user, after writing the blob then the record; otherwise it renders error with at most the blob written |
| Controller.UploadOutcomes | src/main/java/com/dsleandro/imagegallery/controller/ImageController.java:115-144 | only a content-type exception escapes; otherwise the view is redirect:/ or error; nothing is written without an image type, an identifier, readable bytes and a successful store; the first write stores the bytes under the identifier; the handler redirects exactly when the type is an image, the name has a '.', the bytes can be read, the store succeeds, the principal names a registered user and the save succeeds, and exactly when it makes a second write, which saves the record for the identifier's path owned by the principal |
| Controller.UploadRejectsNonImage | src/main/java/com/dsleandro/imagegallery/controller/ImageController.java:118-142 | a non-image upload renders error and writes nothing |
| Controller.UploadRejectsMissingExtension | src/main/java/com/dsleandro/imagegallery/controller/ImageController.java:122-137 | an image whose name has no '.' renders error and writes nothing |
| Controller.UploadLeavesOrphanWithoutOwner | src/main/java/com/dsleandro/imagegallery/controller/ImageController.java:125-137 | when the principal is null or unregistered the blob is already stored: the handler renders error, saves no record, and the blob stays in the store |
| Controller.UploadLeavesOrphanWhenSaveFails | src/main/java/com/dsleandro/imagegallery/controller/ImageController.java:125-137 | when saving the record fails after the blob was stored, the handler renders error, no record is saved, and the blob stays in the store |
| Controller.UploadSuccess | src/main/java/com/dsleandro/imagegallery/controller/ImageController.java:122-133 | after a redirect the identifier maps to the uploaded bytes and exactly one record is appended, with the identifier's storage path and the principal's user; when the identifier has no '/', the record's path has the identifier as its file name |
| Controller.SlashInExtensionSplitsStoredPath | src/main/java/com/dsleandro/imagegallery/controller/ImageController.java:122 | an original name "a.b/c" with token "t" gives the identifier "t.b/c", whose stored path has the file name "c", not the identifier |
| Controller.PersistSavesAfterStoring | src/main/java/com/dsleandro/imagegallery/controller/ImageController.java:125-131 | inside the `try`, a record is saved only after its blob is stored |
| Controller.UploadSavesAfterStoring | src/main/java/com/dsleandro/imagegallery/controller/ImageController.java:115-144 | every upload saves its record only after the record's blob is stored |
| Controller.UploadKeepsLinked | src/main/java/com/dsleandro/imagegallery/controller/ImageController.java:115-144 | an upload preserves the invariant that every record points at a stored blob, whatever fails |
| Controller.IsAuthenticated | src/main/java/com/dsleandro/imagegallery/controller/ImageController.java:169 | the caller is authenticated exactly when the authentication name differs from "anonymousUser" |
| Controller.AuthenticationByExactName | src/main/java/com/dsleandro/imagegallery/controller/ImageController.java:169 | the comparison is exact and case-sensitive: only "anonymousUser" is unauthenticated, not "AnonymousUser", "anonymoususer" or "" |
| Controller.ServedNames | src/main/java/com/dsleandro/imagegallery/controller/ImageController.java:61-66 | the listing succeeds exactly when no listed path is a root, and then each listed path becomes its file-name component, in listing order; otherwise it throws NullPointer |
| Controller.ServedNamesOfStoredPaths | src/main/java/com/dsleandro/imagegallery/controller/ImageController.java:61-66 | listing the storage paths of non-empty, '/'-free identifiers links to exactly those identifiers |
| Controller.RootPathListingRendersError | src/main/java/com/dsleandro/imagegallery/controller/ImageController.java:51-103 | a listing holding a root path throws, so the personal page, and the index page of an authenticated visitor, render error |
| Controller.IndexPage | src/main/java/com/dsleandro/imagegallery/controller/ImageController.java:51-78 | the anonymous visitor gets index without images or username; an authenticated visitor gets index, listing the file names of all stored paths, exactly when the principal is registered, the store can be listed and no listed path is a root, and error otherwise |
| Controller.DisplayPage | src/main/java/com/dsleandro/imagegallery/controller/ImageController.java:80-103 | the visitor gets index, listing the file names of their paths, exactly when the principal is registered, their listing succeeds and no listed path is a root, whatever the authentication flag; error otherwise |
| Controller.ImageController.SetAuthStatus | src/main/java/com/dsleandro/imagegallery/controller/ImageController.java:168-170 | the flag is set exactly when the authentication name is not "anonymousUser" |
| Controller.ImageController.Index | src/main/java/com/dsleandro/imagegallery/controller/ImageController.java:51-78 | sets the authentication flag and returns the index page of its inputs |
| Controller.ImageController.DisplayImages | src/main/java/com/dsleandro/imagegallery/controller/ImageController.java:80-103 | sets the authentication flag and returns the personal page of its inputs |
| Controller.ImageController.ImageUpload | src/main/java/com/dsleandro/imagegallery/controller/ImageController.java:115-144 | the response, and the new store and repository state, are those of the pure workflow's writes applied in order; the trace grows by exactly those writes; records stay linked to stored blobs; the class invariant (state = traced writes applied to the start, each record saved after its blob) is kept |
| Controller.ImageController.StoreAndSave | src/main/java/com/dsleandro/imagegallery/controller/ImageController.java:120-138 | store, resolve the owner and save, in that order, stopping at the first exception; the response and the new state are those of the pure workflow |
| Controller.ImageController.KeepsInvariants | src/main/java/com/dsleandro/imagegallery/controller/ImageController.java:115-144 | an upload from any linked state leads to a linked state, and extends a trace that saves records after their blobs to another such trace |
| Controller.ImageController.ValidKeepsLinked | src/main/java/com/dsleandro/imagegallery/controller/ImageController.java:115-144 | under the class invariant, if every record of the starting state pointed at a stored blob, every record still does |

## Left out

- The implementations of `StorageService`, `ImageRepository` and `UserRepository` are not part of this model.
  - A store is a map update and a save is an append.
  - `getPath(id)` is taken to be the root, a '/', then the identifier.
  - Whether a store or a save throws is a parameter.
  - What `loadAll()` and `loadAll(user)` list is a parameter; `None` stands for the listing throwing.
  - `loadAll(user)`'s filtering is not modelled.
  - The path-traversal checks in `loadAsResource` are not modelled.
  - A save rejected by a database constraint is covered by the failure parameter.
- `getPath` could throw an invalid-path exception. That is not modelled, because `StorageService` is not part of this model.
- `file.getBytes()` failing is modelled as missing bytes. The reason for the failure is not modelled.
- `UUID.randomUUID()` is a token parameter. Its uniqueness is probabilistic, so a stored blob can be overwritten when two tokens collide. That case is covered (a store is a map update), but uniqueness is not proved.
- `serveImage` is not modelled. It passes the file name to `loadAsResource` and wraps the result in a response with a download header, with no logic of its own.
- The text of the URLs `MvcUriComponentsBuilder` builds is not modelled. The model keeps the file-name component each URL is built from.
- The `Model` attributes are reduced to the fields of `Page`. `printStackTrace` is not modelled.
- `SecurityContextHolder` is not modelled. The authentication name is a parameter, and a missing authentication object (a `NullPointerException` in `setAuthStatus`) is not modelled.
- `isAuth` is a field shared by all requests, so concurrent requests can race on it. The model treats each call on its own.
- The database identifier of a saved image record is not modelled.
- JavaLang.FileName: paths are taken as text, so `Path`'s normalisation of repeated or trailing separators is not modelled. For "a/" the model gives an empty name where `Path` gives "a". A root path is modelled: its null file name throws.
- The original file name is not sanitised, so a '/' after its last '.' ends up in the identifier. The gallery then links to the last component of the stored path rather than to the identifier. The model states this case; how `StorageService` stores such an identifier is not modelled.
- `ImageService.getAll` is not modelled. It only delegates to the image repository's `findAll`.
