# Ownership and resource lifecycle of a notes-and-images web application

This project models the core of a small Flask application (`app.py`). Users log in
and keep private notes and uploaded images. An administrator adds and deletes users.
The model lifts the handlers' decision and state logic out of the web framework:

- **Upload-name check.** `allowed_file` and `ALLOWED_EXTENSIONS` are modelled in
  module `Uploads`. The ASCII case mapping and last-dot search they need are in
  module `Text`.
- **Blob store.** The upload folder is a sequence of entry names in listing order
  (module `Blobs`). An upload is saved as `<uid>-<filename>`. A blob is found again
  through the text before the first `-`. The folder after the handlers' removals is
  described by `RemoveAt` and `Purge`.
- **Handlers.** Class `WebApp.App` holds the session user, the listed users, the
  note owners, the image rows and the upload folder as fields. Each route handler
  is a method that updates those fields and returns the response the framework
  would send. A redirect, a flashed redirect, the admin page with a "duplicate" or
  "invalid" flag, an abort with 401 or 403, and an uncaught exception (a crash) are
  all response values.
- **Ownership guard.** The guard compares two optional values:
  `session.get("current_user", None) == owner-lookup(id)`. A request without a
  session therefore passes the guard for a note or image that does not exist.
- **Consistency lemmas.** Lemmas say when the image rows and the folder stay in
  agreement (every row has its blob and every blob its row), and when they do not.

A reader might expect behaviours that the code does not have; the model follows
the code:

- **No admin override.** The guard is plain equality. An administrator who does not
  own a note or image gets 401, like anybody else.
- **No "not found" answer.** An unknown id gets 401 from a logged-in user. With no
  session, the guard passes instead.
- **No integrity error.** When no folder entry matches, the handler fails on `[0]`.
  By then the image row is already deleted.
- **No rollback.** An upload writes the blob before reading `session["current_user"]`.
  With nobody logged in, the blob stays and no row is written.
- **Case of new ids.** The duplicate check upper-cases the submitted id and compares
  it with the listed ids as stored. The validity check looks at the raw id.
- **Cascades are not visible.** Whether deleting a user also deletes the user's notes
  and image rows happens inside the record store. It is a parameter (`cascades`).

## Model

| member | source | states |
|---|---|---|
| `Text.Upper` | app.py:256 | `.upper()` keeps the length, leaves no lower-case letter and changes each character only in its case |
| `Text.Lower` | app.py:201 | `.lower()` keeps the length, leaves no upper-case letter and changes each character only in its case |
| `Text.LastIndexOf` | app.py:201 | the index found holds the character and no later position does; no index means the character does not occur |
| `Uploads.AllowedFileMeaning` | app.py:197-201 | a name is accepted exactly when it holds a `.` and the text after its last `.`, lower-cased, is `png`, `jpg`, `jpeg` or `gif` |
| `Uploads.AllowedFileIgnoresCase` | app.py:201 | upper-casing the whole name never changes the verdict |
| `Uploads.AcceptsUpperCaseExtension` | app.py:197-201 | `photo.JPG` is accepted |
| `Uploads.RejectsExecutable` | app.py:197-201 | `malware.exe` is rejected |
| `Uploads.RejectsInnerExtension` | app.py:201 | `archive.png.exe` is rejected: only the text after the last dot counts |
| `Uploads.RejectsNameWithoutDot` | app.py:201 | a name without a dot is rejected |
| `Blobs.BlobPrefix` | app.py:244 | `split("-", 1)[0]` is a prefix of the entry, holds no `-`, and is followed by `-` unless it is the whole entry |
| `Blobs.BlobNameRoundTrip` | app.py:219-244 | for a uid without `-`, the prefix of `uid + "-" + filename` is the uid, so the lookup finds the blob the upload saved |
| `Blobs.FirstBlobOf` | app.py:241-245 | the index chosen is the first entry whose prefix is the uid; there is none exactly when no entry belongs to the uid (where `[0]` fails) |
| `Blobs.Purge` | app.py:287-295 | the folder keeps exactly the entries that belong to none of the given images |
| `Blobs.RemoveFirstIsPurge` | app.py:241-246 | with one entry per image, removing the first match of a uid removes exactly that uid's entry and leaves every other entry in order |
| `Blobs.PurgeKeepsOthers` | app.py:287-292 | removing other images' entries neither creates nor removes an entry of the next uid |
| `Blobs.PurgeStep` | app.py:287-295 | one loop round, removing the first match of the next uid, extends the purge by that uid and keeps one entry per image |
| `WebApp.Authorized` | app.py:187-189 | the guard admits exactly when both sides are absent, or both are present and equal |
| `WebApp.CascadeSplitsImages` | app.py:285-297 | the uids the user-deletion loop removes and the rows a cascading delete keeps are disjoint and together make up the whole image table, with the kept rows unchanged |
| `WebApp.UploadKeepsUnique` | app.py:219-223 | saving a blob under a fresh uid keeps at most one entry per image |
| `WebApp.UploadKeepsConsistent` | app.py:221-227 | writing the blob and then the row keeps rows and blobs in agreement |
| `WebApp.DeleteImageKeepsConsistent` | app.py:235-246 | with the stores in agreement, deleting an existing image finds its blob and keeps the agreement |
| `WebApp.AnonymousDeleteOfUnknownImageCrashes` | app.py:235-245 | with the stores in agreement, a request without a session for an unknown uid passes the guard and then finds no entry |
| `WebApp.DeleteUserKeepsConsistent` | app.py:285-297 | with the stores in agreement, every image of the user has a blob, and purging them together with the user's rows keeps the agreement |
| `WebApp.DeleteUserWithoutCascadeLeavesDanglingRows` | app.py:285-297 | if the user's image rows were kept after their blobs were removed, rows and blobs would disagree |
| `WebApp.App.DeleteNote` | app.py:185-193 | the note's row is removed when the session user equals the note's owner (both absent included); otherwise the answer is 401 and nothing changes |
| `WebApp.App.UploadImage` | app.py:204-230 | a missing part or empty name is flashed back and a disallowed name is redirected, writing nothing; an accepted upload appends `uid-filename` to the folder and records `(owner, filename, time)`; with nobody logged in the blob stays and the handler fails |
| `WebApp.App.DeleteImage` | app.py:233-249 | 401 and no change unless the guard admits; then the row is removed and the first matching entry too, or the handler fails with the row already gone |
| `WebApp.App.Login` | app.py:253-270 | the session becomes the upper-cased id exactly when that id is listed and the password verifies, and is otherwise unchanged |
| `WebApp.App.Logout` | app.py:273-276 | afterwards nobody is logged in |
| `WebApp.App.RemoveBlobsOf` | app.py:285-295 | it succeeds exactly when every listed uid has an entry, leaving the folder purged of them; on failure it stops after a subset of them |
| `WebApp.App.DeleteUser` | app.py:279-300 | a non-admin gets 401 and `ADMIN` gets 403, both with no change; otherwise the user's blobs are purged, then the user is removed, or the handler fails with the user and all rows kept |
| `WebApp.App.AddUser` | app.py:303-333 | a non-admin gets 401; a listed upper-cased id is reported as duplicate before an id with a space or `'` is reported as invalid; otherwise the submitted id (as given or upper-cased) becomes listed; only the last case changes the users |

## Left out

- Security headers, content security policy and HTTPS settings (app.py:53-87): framework configuration with no logic.
- The login rate limiter and its 429 handler: time-window behaviour inside a library.
- Logging and the rotating log file: output only.
- Error pages, templates, flashes and redirects: only their outcome is modelled, as a `Response` value.
- The listing pages (`FUN_root`, `FUN_public`, `FUN_private`, `FUN_admin`): presentation of store contents.
- `FUN_write_note`: note creation is outside the ownership and deletion rules modelled here, and the new note's id is chosen inside the record store.
- The record store's internals: it is modelled as a set of user ids and two maps. The password check `verify` is a function parameter of `Login`. `OwnedBy` (the query `list_images_for_user`), `NotesWithout` and `ImagesWithout` (what a cascading user delete would keep) are plain map and set comprehensions over those maps, with no contract of their own.
- `WebApp.App.AddUser`: the password is not recorded. The id the record store keeps is the parameter `stored`, required to be the submitted id or its upper-cased form; which of the two `add_user` keeps is not visible.
- `WebApp.App.DeleteUser`: whether `delete_user_from_db` also removes the user's notes and image rows is not visible. The parameter `cascades` chooses between the two. The order of `list_images_for_user` is not visible either, so the loop takes the uids in an arbitrary order. On failure the contract says only that some subset of the blobs is gone.
- `WebApp.App.UploadImage`: `secure_filename`, the SHA-1 digest and the clock are parameters. The uid is required to contain no `-` and to own no entry yet. This stands in for the digest's uniqueness, so hash collisions (and `file.save` overwriting an existing entry) are not modelled.
- Python's case mapping is modelled for ASCII letters only. Other characters keep their case, and changes of length (`"ß".upper()`) are not modelled.
- A missing form field: `request.form.get("id")` returns `None` and `.upper()` raises. The model takes the field as a string.
- The real file system: the upload folder is a sequence of names. `os.listdir` promises no order; the model chooses one, placing each saved upload last and keeping the order of the other entries when one is removed. Since each image owns at most one entry (`Valid()`), no result of a handler depends on that order.
- Concurrent requests from different sessions: each handler runs alone.
