/** The route handlers of the notes-and-images web application, lifted out of the web
    framework: the session, the record store (users, note owners, image rows) and the
    upload folder are fields of one object, and each handler is a method that answers
    with the response the framework would send. */
module WebApp {
  import opened Wrappers
  import opened Text
  import opened Uploads
  import opened Blobs

  type UserId = string
  type NoteId = string
  type ImageUid = string

  /** The only account allowed to manage users; it can never be deleted. */
  const AdminUser: UserId := "ADMIN"

  const Unauthorized: nat := 401
  const Forbidden: nat := 403

  /** One row of the image table: `(owner, filename, upload time)` keyed by its uid. */
  datatype ImageRecord = ImageRecord(owner: UserId, filename: string, uploaded: string)

  datatype Page = RootPage | PrivatePage | AdminPanel

  /** The flashed messages of the upload handler. */
  datatype Notice = NoFilePart | NoSelectedFile

  /** The flags the admin page is re-rendered with when a new id is refused. */
  datatype AdminNotice = Duplicated | InvalidId

  /** An exception the handler does not catch (an internal server error). */
  datatype Fault =
    | IndexOutOfRange    // `[...][0]` on an empty list of matching entries
    | MissingSessionKey  // `session["current_user"]` with nobody logged in

  datatype Response =
    | Redirect(to: Page)
    | FlashRedirect(notice: Notice, to: Page)
    | AdminPage(flag: AdminNotice)
    | Abort(status: nat)
    | Crash(fault: Fault)

  /** `match_user_id_with_note_id`: the owner of a note, if the note exists. */
  function NoteOwner(notes: map<NoteId, UserId>, id: NoteId): Option<UserId>
  {
    if id in notes then Some(notes[id]) else None
  }

  /** `match_user_id_with_image_uid`: the owner of an image, if the image exists. */
  function ImageOwner(images: map<ImageUid, ImageRecord>, uid: ImageUid): Option<UserId>
  {
    if uid in images then Some(images[uid].owner) else None
  }

  /** The ownership guard: `session.get("current_user", None) == owner`. Both sides
      are optional, so a request without a session passes on a resource that does
      not resolve. */
  function Authorized(requester: Option<UserId>, owner: Option<UserId>): (ok: bool)
    ensures ok <==> (requester.None? && owner.None?)
                    || (requester.Some? && owner.Some? && requester.value == owner.value)
  {
    requester == owner
  }

  /** The uids `list_images_for_user` reports for `id`. */
  function OwnedBy(images: map<ImageUid, ImageRecord>, id: UserId): set<ImageUid>
  {
    set u | u in images && images[u].owner == id
  }

  /** The note table without the notes of `id`. */
  function NotesWithout(notes: map<NoteId, UserId>, id: UserId): map<NoteId, UserId>
  {
    map n | n in notes && notes[n] != id :: notes[n]
  }

  /** The image table without the images of `id`. */
  function ImagesWithout(images: map<ImageUid, ImageRecord>, id: UserId): map<ImageUid, ImageRecord>
  {
    map u | u in images && images[u].owner != id :: images[u]
  }

  /** The uids the user-deletion loop works through and the rows a cascading
      delete keeps split the image table in two: every row is in exactly one part,
      and the kept rows are unchanged. */
  lemma CascadeSplitsImages(images: map<ImageUid, ImageRecord>, id: UserId)
    ensures OwnedBy(images, id) !! ImagesWithout(images, id).Keys
    ensures OwnedBy(images, id) + ImagesWithout(images, id).Keys == images.Keys
    ensures forall u :: u in ImagesWithout(images, id) ==> ImagesWithout(images, id)[u] == images[u]
  {
  }

  /** The two stores agree: every image row has its blob and every blob its row. */
  ghost predicate Consistent(images: map<ImageUid, ImageRecord>, dir: seq<string>)
  {
    && (forall u :: u in images ==> HasBlob(dir, u))
    && (forall e :: e in dir ==> BlobPrefix(e) in images)
  }

  /** Saving a fresh blob keeps at most one entry per image. */
  lemma UploadKeepsUnique(dir: seq<string>, uid: ImageUid, filename: string)
    requires UniquePrefixes(dir)
    requires '-' !in uid && !HasBlob(dir, uid)
    ensures UniquePrefixes(dir + [BlobName(uid, filename)])
  {
    var r := dir + [BlobName(uid, filename)];
    BlobNameRoundTrip(uid, filename);
    forall i, j | 0 <= i < j < |r| ensures BlobPrefix(r[i]) != BlobPrefix(r[j]) {
      if j == |dir| {
        assert r[i] == dir[i] && dir[i] in dir;
      } else {
        assert r[i] == dir[i] && r[j] == dir[j];
      }
    }
  }

  /** An upload that writes its blob and then its row keeps the stores in agreement. */
  lemma UploadKeepsConsistent(images: map<ImageUid, ImageRecord>, dir: seq<string>,
                              uid: ImageUid, filename: string, row: ImageRecord)
    requires Consistent(images, dir)
    requires '-' !in uid
    ensures Consistent(images[uid := row], dir + [BlobName(uid, filename)])
  {
    var dir' := dir + [BlobName(uid, filename)];
    BlobNameRoundTrip(uid, filename);
    assert BlobName(uid, filename) in dir';
    forall u | u in images ensures HasBlob(dir', u) {
      var e :| e in dir && BlobPrefix(e) == u;
      assert e in dir';
    }
  }

  /** With the stores in agreement, the owner's delete of an existing image finds its
      blob, and removing row and blob keeps the agreement. */
  lemma DeleteImageKeepsConsistent(images: map<ImageUid, ImageRecord>, dir: seq<string>, uid: ImageUid)
    requires Consistent(images, dir) && UniquePrefixes(dir)
    requires uid in images
    ensures FirstBlobOf(dir, uid).Some?
    ensures Consistent(images - {uid}, RemoveAt(dir, FirstBlobOf(dir, uid).value))
  {
    RemoveFirstIsPurge(dir, uid);
    var dir' := Purge(dir, {uid});
    forall u | u in images - {uid} ensures HasBlob(dir', u) {
      var e :| e in dir && BlobPrefix(e) == u;
      assert e in dir';
    }
  }

  /** With the stores in agreement, a request without a session for an image that
      does not exist passes the guard and then finds no blob: the handler fails on
      `[0]` instead of answering 401. */
  lemma AnonymousDeleteOfUnknownImageCrashes(images: map<ImageUid, ImageRecord>, dir: seq<string>, uid: ImageUid)
    requires Consistent(images, dir)
    requires uid !in images
    ensures Authorized(None, ImageOwner(images, uid))
    ensures FirstBlobOf(dir, uid).None?
  {
  }

  /** With the stores in agreement, deleting a user finds a blob for each of the
      user's images, and when the record store also drops the user's image rows the
      stores still agree afterwards. */
  lemma DeleteUserKeepsConsistent(images: map<ImageUid, ImageRecord>, dir: seq<string>, id: UserId)
    requires Consistent(images, dir)
    ensures forall u :: u in OwnedBy(images, id) ==> HasBlob(dir, u)
    ensures Consistent(ImagesWithout(images, id), Purge(dir, OwnedBy(images, id)))
  {
    var owned := OwnedBy(images, id);
    var dir' := Purge(dir, owned);
    forall u | u in ImagesWithout(images, id) ensures HasBlob(dir', u) {
      var e :| e in dir && BlobPrefix(e) == u;
      assert e in dir';
    }
  }

  /** If the record store kept the user's image rows, those rows would be left
      without blobs. */
  lemma DeleteUserWithoutCascadeLeavesDanglingRows(images: map<ImageUid, ImageRecord>, dir: seq<string>, id: UserId)
    requires OwnedBy(images, id) != {}
    ensures !Consistent(images, Purge(dir, OwnedBy(images, id)))
  {
    var u :| u in OwnedBy(images, id);
    assert !HasBlob(Purge(dir, OwnedBy(images, id)), u);
  }

  class App {
    /** `session["current_user"]`, absent when nobody is logged in. */
    var session: Option<UserId>
    /** `list_users()`. */
    var users: set<UserId>
    /** Note id to owner. */
    var notes: map<NoteId, UserId>
    /** Image uid to its row. */
    var images: map<ImageUid, ImageRecord>
    /** `os.listdir(UPLOAD_FOLDER)`, in listing order. */
    var uploads: seq<string>

    ghost predicate Valid()
      reads this
    {
      UniquePrefixes(uploads)
    }

    constructor (users: set<UserId>, notes: map<NoteId, UserId>,
                 images: map<ImageUid, ImageRecord>, uploads: seq<string>)
      requires UniquePrefixes(uploads)
      ensures Valid()
      ensures session == None
      ensures this.users == users && this.notes == notes
      ensures this.images == images && this.uploads == uploads
    {
      this.session := None;
      this.users := users;
      this.notes := notes;
      this.images := images;
      this.uploads := uploads;
    }

    /** `FUN_delete_note`: only the note's owner removes it; anyone else gets 401. */
    method DeleteNote(id: NoteId) returns (r: Response)
      requires Valid()
      modifies this`notes
      ensures Valid()
      ensures Authorized(session, NoteOwner(old(notes), id)) ==>
                r == Redirect(PrivatePage) && notes == old(notes) - {id}
      ensures !Authorized(session, NoteOwner(old(notes), id)) ==>
                r == Abort(Unauthorized) && notes == old(notes)
    {
      if session == NoteOwner(notes, id) {
        notes := notes - {id};
        r := Redirect(PrivatePage);
      } else {
        r := Abort(Unauthorized);
      }
    }

    /** `FUN_upload_image`. `file` is the name of the uploaded part, if there is one;
        `sanitized`, `uid` and `time` are what `secure_filename`, the SHA-1 digest and
        the clock give. The blob is written before the row, and the row needs a
        logged-in user: without one the blob stays and the handler fails. */
    method UploadImage(file: Option<string>, sanitized: string, uid: ImageUid, time: string)
      returns (r: Response)
      requires Valid()
      requires '-' !in uid && !HasBlob(uploads, uid)
      modifies this`images, this`uploads
      ensures Valid()
      ensures file.None? ==>
                r == FlashRedirect(NoFilePart, PrivatePage)
                && images == old(images) && uploads == old(uploads)
      ensures file == Some("") ==>
                r == FlashRedirect(NoSelectedFile, PrivatePage)
                && images == old(images) && uploads == old(uploads)
      ensures file.Some? && file.value != "" && !AllowedFile(file.value) ==>
                r == Redirect(PrivatePage)
                && images == old(images) && uploads == old(uploads)
      ensures file.Some? && file.value != "" && AllowedFile(file.value) ==>
                && uploads == old(uploads) + [BlobName(uid, sanitized)]
                && (session.Some? ==>
                      r == Redirect(PrivatePage)
                      && images == old(images)[uid := ImageRecord(session.value, sanitized, time)])
                && (session.None? ==>
                      r == Crash(MissingSessionKey) && images == old(images))
    {
      if file.None? {
        return FlashRedirect(NoFilePart, PrivatePage);
      }
      var filename := file.value;
      if filename == "" {
        return FlashRedirect(NoSelectedFile, PrivatePage);
      }
      if AllowedFile(filename) {
        UploadKeepsUnique(uploads, uid, sanitized);
        uploads := uploads + [BlobName(uid, sanitized)];
        if session.None? {
          return Crash(MissingSessionKey);
        }
        images := images[uid := ImageRecord(session.value, sanitized, time)];
        return Redirect(PrivatePage);
      }
      r := Redirect(PrivatePage);
    }

    /** `FUN_delete_image`: the guard, then the row, then the first entry of the
        folder whose prefix is the uid; with no such entry the handler fails after
        the row is already gone. */
    method DeleteImage(uid: ImageUid) returns (r: Response)
      requires Valid()
      modifies this`images, this`uploads
      ensures Valid()
      ensures !Authorized(session, ImageOwner(old(images), uid)) ==>
                r == Abort(Unauthorized) && images == old(images) && uploads == old(uploads)
      ensures Authorized(session, ImageOwner(old(images), uid)) ==>
                && images == old(images) - {uid}
                && match FirstBlobOf(old(uploads), uid)
                   case None => r == Crash(IndexOutOfRange) && uploads == old(uploads)
                   case Some(i) =>
                     && r == Redirect(PrivatePage)
                     && uploads == RemoveAt(old(uploads), i)
                     && uploads == Purge(old(uploads), {uid})
    {
      if session != ImageOwner(images, uid) {
        return Abort(Unauthorized);
      }
      images := images - {uid};
      var found := FirstBlobOf(uploads, uid);
      if found.None? {
        return Crash(IndexOutOfRange);
      }
      RemoveFirstIsPurge(uploads, uid);
      PurgeUnique(uploads, {uid});
      uploads := RemoveAt(uploads, found.value);
      r := Redirect(PrivatePage);
    }

    /** `FUN_login`: the id is upper-cased; the session changes only when that id is
        listed and `verify` accepts the password. */
    method Login(id: string, password: string, verify: (UserId, string) -> bool)
      returns (r: Response)
      requires Valid()
      modifies this`session
      ensures Valid()
      ensures r == Redirect(RootPage)
      ensures Upper(id) in users && verify(Upper(id), password) ==> session == Some(Upper(id))
      ensures !(Upper(id) in users && verify(Upper(id), password)) ==> session == old(session)
    {
      var submitted := Upper(id);
      if submitted in users && verify(submitted, password) {
        session := Some(submitted);
      }
      r := Redirect(RootPage);
    }

    /** `FUN_logout`: afterwards nobody is logged in. */
    method Logout() returns (r: Response)
      requires Valid()
      modifies this`session
      ensures Valid()
      ensures session == None
      ensures r == Redirect(RootPage)
    {
      session := None;
      r := Redirect(RootPage);
    }

    /** `FUN_delete_user`: admin only, never `ADMIN` itself. For each image of the
        user, in an order the record store chooses, the first matching entry is
        removed; a missing one fails the handler with the earlier removals done and
        the user kept. Then the user's record goes; `cascades` says whether the record
        store also drops the user's notes and image rows. */
    method DeleteUser(id: UserId, cascades: bool) returns (r: Response)
      requires Valid()
      modifies this`users, this`notes, this`images, this`uploads
      ensures Valid()
      ensures session != Some(AdminUser) ==>
                && r == Abort(Unauthorized)
                && users == old(users) && notes == old(notes)
                && images == old(images) && uploads == old(uploads)
      ensures session == Some(AdminUser) && id == AdminUser ==>
                && r == Abort(Forbidden)
                && users == old(users) && notes == old(notes)
                && images == old(images) && uploads == old(uploads)
      ensures session == Some(AdminUser) && id != AdminUser ==>
                var owned := OwnedBy(old(images), id);
                if forall u :: u in owned ==> HasBlob(old(uploads), u) then
                  && r == Redirect(AdminPanel)
                  && uploads == Purge(old(uploads), owned)
                  && users == old(users) - {id}
                  && notes == (if cascades then NotesWithout(old(notes), id) else old(notes))
                  && images == (if cascades then ImagesWithout(old(images), id) else old(images))
                else
                  && r == Crash(IndexOutOfRange)
                  && (exists done :: done <= owned && uploads == Purge(old(uploads), done))
                  && users == old(users) && notes == old(notes) && images == old(images)
    {
      if session != Some(AdminUser) {
        return Abort(Unauthorized);
      }
      if id == AdminUser {
        return Abort(Forbidden);
      }
      var removed := RemoveBlobsOf(OwnedBy(images, id));
      if !removed {
        return Crash(IndexOutOfRange);
      }
      users := users - {id};
      if cascades {
        notes := NotesWithout(notes, id);
        images := ImagesWithout(images, id);
      }
      r := Redirect(AdminPanel);
    }

    /** Step [1] of `FUN_delete_user`: for each uid of `owned`, in an order the record
        store chooses, remove the first entry of the folder whose prefix is that uid.
        The step fails at the first uid without an entry, keeping what it removed. */
    method RemoveBlobsOf(owned: set<ImageUid>) returns (removed: bool)
      requires Valid()
      modifies this`uploads
      ensures Valid()
      ensures removed <==> forall u :: u in owned ==> HasBlob(old(uploads), u)
      ensures removed ==> uploads == Purge(old(uploads), owned)
      ensures !removed ==> exists done :: done <= owned && uploads == Purge(old(uploads), done)
    {
      var pending := owned;
      ghost var done: set<ImageUid> := {};
      PurgeNothing(uploads, {});
      while pending != {}
        invariant pending + done == owned && pending !! done
        invariant uploads == Purge(old(uploads), done)
        invariant Valid()
        invariant forall u :: u in done ==> HasBlob(old(uploads), u)
        decreases pending
      {
        var f :| f in pending;
        PurgeKeepsOthers(old(uploads), done, f);
        var found := FirstBlobOf(uploads, f);
        if found.None? {
          assert f in owned && !HasBlob(old(uploads), f);
          return false;
        }
        PurgeStep(old(uploads), done, f);
        uploads := RemoveAt(uploads, found.value);
        pending := pending - {f};
        done := done + {f};
      }
      removed := true;
    }

    /** `FUN_add_user`: admin only; a duplicate upper-cased id is reported first, then
        an id holding a space or a quote; otherwise the record store adds the user,
        under the key `stored`: the submitted id, or its upper-cased form. */
    method AddUser(id: string, stored: UserId) returns (r: Response)
      requires Valid()
      requires stored == id || stored == Upper(id)
      modifies this`users
      ensures Valid()
      ensures session != Some(AdminUser) ==> r == Abort(Unauthorized) && users == old(users)
      ensures session == Some(AdminUser) && Upper(id) in old(users) ==>
                r == AdminPage(Duplicated) && users == old(users)
      ensures session == Some(AdminUser) && Upper(id) !in old(users) && (' ' in id || '\'' in id) ==>
                r == AdminPage(InvalidId) && users == old(users)
      ensures session == Some(AdminUser) && Upper(id) !in old(users) && ' ' !in id && '\'' !in id ==>
                && r == Redirect(AdminPanel) && users == old(users) + {stored}
                && (id in users || Upper(id) in users)
    {
      if session != Some(AdminUser) {
        return Abort(Unauthorized);
      }
      if Upper(id) in users {
        return AdminPage(Duplicated);
      }
      if ' ' in id || '\'' in id {
        return AdminPage(InvalidId);
      }
      users := users + {stored};
      r := Redirect(AdminPanel);
    }
  }
}
