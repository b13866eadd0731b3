/** The upload folder seen as the sequence of its entry names, in listing order.
    A blob is stored under `<uid>-<filename>` and found again by the text before
    the first `-` of an entry. */
module Blobs {
  import opened Wrappers

  /** The name an upload is saved under: `image_uid + "-" + filename`. */
  function BlobName(uid: string, filename: string): string
  {
    uid + "-" + filename
  }

  /** `entry.split("-", 1)[0]`: the longest prefix of the entry without a `-`. */
  function BlobPrefix(entry: string): (p: string)
    ensures p <= entry
    ensures '-' !in p
    ensures |p| < |entry| ==> entry[|p|] == '-'
  {
    if |entry| == 0 || entry[0] == '-' then []
    else [entry[0]] + BlobPrefix(entry[1..])
  }

  /** A uid without a `-` (a hexadecimal digest) is read back from the name its blob
      is saved under, so the prefix search finds the blob an upload wrote. */
  lemma BlobNameRoundTrip(uid: string, filename: string)
    requires '-' !in uid
    ensures BlobPrefix(BlobName(uid, filename)) == uid
  {
    var name := BlobName(uid, filename);
    var p := BlobPrefix(name);
    assert name[|uid|] == '-';
    assert p == name[..|p|];
    assert name[..|uid|] == uid;
  }

  /** Some entry of the folder belongs to the image `uid`. */
  predicate HasBlob(dir: seq<string>, uid: string)
  {
    exists e :: e in dir && BlobPrefix(e) == uid
  }

  /** The index the handlers delete: the first entry whose prefix is `uid`, or
      nothing when the filtered list is empty (where the code's `[0]` fails). */
  function FirstBlobOf(dir: seq<string>, uid: string): (r: Option<nat>)
    ensures r.Some? ==> r.value < |dir| && BlobPrefix(dir[r.value]) == uid
    ensures r.Some? ==> forall j :: 0 <= j < r.value ==> BlobPrefix(dir[j]) != uid
    ensures r.None? <==> !HasBlob(dir, uid)
  {
    if |dir| == 0 then None
    else if BlobPrefix(dir[0]) == uid then Some(0)
    else
      var r := FirstBlobOf(dir[1..], uid);
      assert forall e :: e in dir && e != dir[0] ==> e in dir[1..];
      if r.None? then None else Some(r.value + 1)
  }

  /** The folder after `os.remove` of its `i`-th entry. */
  function RemoveAt(dir: seq<string>, i: nat): seq<string>
    requires i < |dir|
  {
    dir[..i] + dir[i + 1..]
  }

  /** No two entries belong to the same image. Uploads keep this as long as every
      new uid is fresh, which the digest of a timestamp and a name is taken to be. */
  ghost predicate UniquePrefixes(dir: seq<string>)
  {
    forall i, j :: 0 <= i < j < |dir| ==> BlobPrefix(dir[i]) != BlobPrefix(dir[j])
  }

  /** Dropping the first entry keeps at most one entry per image. */
  lemma UniqueTail(dir: seq<string>)
    requires |dir| > 0 && UniquePrefixes(dir)
    ensures UniquePrefixes(dir[1..])
  {
    forall i, j | 0 <= i < j < |dir[1..]|
      ensures BlobPrefix(dir[1..][i]) != BlobPrefix(dir[1..][j])
    {
      assert dir[1..][i] == dir[i + 1] && dir[1..][j] == dir[j + 1];
    }
  }

  /** In a folder with one entry per image, no entry after the first shares its prefix. */
  lemma UniqueHead(dir: seq<string>)
    requires |dir| > 0 && UniquePrefixes(dir)
    ensures forall e :: e in dir[1..] ==> BlobPrefix(e) != BlobPrefix(dir[0])
  {
    forall e | e in dir[1..] ensures BlobPrefix(e) != BlobPrefix(dir[0]) {
      var k :| 0 <= k < |dir[1..]| && dir[1..][k] == e;
      assert dir[k + 1] == e;
    }
  }

  /** The folder without every entry belonging to one of the images `gone`. */
  function Purge(dir: seq<string>, gone: set<string>): (r: seq<string>)
    ensures forall e :: e in r <==> e in dir && BlobPrefix(e) !in gone
    ensures |r| <= |dir|
  {
    if |dir| == 0 then []
    else
      var rest := Purge(dir[1..], gone);
      assert forall e :: e in dir <==> e == dir[0] || e in dir[1..];
      if BlobPrefix(dir[0]) in gone then rest else [dir[0]] + rest
  }

  /** Purging images nobody in the folder belongs to changes nothing. */
  lemma {:induction false} PurgeNothing(dir: seq<string>, gone: set<string>)
    requires forall e :: e in dir ==> BlobPrefix(e) !in gone
    ensures Purge(dir, gone) == dir
  {
    if |dir| > 0 {
      assert dir[0] in dir;
      assert forall e :: e in dir[1..] ==> e in dir;
      PurgeNothing(dir[1..], gone);
      assert dir == [dir[0]] + dir[1..];
    }
  }

  /** Purging in two rounds is purging once with both sets. */
  lemma {:induction false} PurgeTwice(dir: seq<string>, d: set<string>, e: set<string>)
    ensures Purge(Purge(dir, d), e) == Purge(dir, d + e)
  {
    if |dir| > 0 {
      PurgeTwice(dir[1..], d, e);
      if BlobPrefix(dir[0]) !in d {
        assert Purge(dir, d) == [dir[0]] + Purge(dir[1..], d);
        assert Purge(dir, d)[1..] == Purge(dir[1..], d);
      }
    }
  }

  /** A purged folder still has one entry per image at most. */
  lemma {:induction false} PurgeUnique(dir: seq<string>, gone: set<string>)
    requires UniquePrefixes(dir)
    ensures UniquePrefixes(Purge(dir, gone))
  {
    if |dir| > 0 {
      UniqueTail(dir);
      UniqueHead(dir);
      PurgeUnique(dir[1..], gone);
      var rest := Purge(dir[1..], gone);
      if BlobPrefix(dir[0]) !in gone {
        var r := [dir[0]] + rest;
        forall i, j | 0 <= i < j < |r| ensures BlobPrefix(r[i]) != BlobPrefix(r[j]) {
          if i == 0 {
            assert r[j] in rest;
          } else {
            assert r[i] == rest[i - 1] && r[j] == rest[j - 1];
          }
        }
      }
    }
  }

  /** Removing a later entry leaves the first one in front. */
  lemma RemoveAtTail(dir: seq<string>, i: nat)
    requires 0 < i < |dir|
    ensures RemoveAt(dir, i) == [dir[0]] + RemoveAt(dir[1..], i - 1)
  {
    assert dir[..i] == [dir[0]] + dir[1..][..i - 1];
    assert dir[i + 1..] == dir[1..][i..];
  }

  /** When each image owns at most one entry, removing the first entry of `uid`
      is removing every entry of `uid`, and nothing else. */
  lemma {:induction false} RemoveFirstIsPurge(dir: seq<string>, uid: string)
    requires UniquePrefixes(dir)
    requires FirstBlobOf(dir, uid).Some?
    ensures RemoveAt(dir, FirstBlobOf(dir, uid).value) == Purge(dir, {uid})
  {
    var i := FirstBlobOf(dir, uid).value;
    if i == 0 {
      UniqueHead(dir);
      PurgeNothing(dir[1..], {uid});
      assert Purge(dir, {uid}) == Purge(dir[1..], {uid});
    } else {
      UniqueTail(dir);
      assert FirstBlobOf(dir[1..], uid) == Some(i - 1);
      RemoveFirstIsPurge(dir[1..], uid);
      RemoveAtTail(dir, i);
      assert Purge(dir, {uid}) == [dir[0]] + Purge(dir[1..], {uid});
    }
  }

  /** Purging some images neither adds nor removes an entry of another image. */
  lemma PurgeKeepsOthers(dir: seq<string>, done: set<string>, uid: string)
    requires uid !in done
    ensures HasBlob(Purge(dir, done), uid) <==> HasBlob(dir, uid)
  {
    if HasBlob(dir, uid) {
      var e :| e in dir && BlobPrefix(e) == uid;
      assert e in Purge(dir, done);
    }
  }

  /** One more round of the user-deletion loop: removing the first entry of the
      next image from a purged folder purges that image too. */
  lemma PurgeStep(dir: seq<string>, done: set<string>, uid: string)
    requires UniquePrefixes(dir)
    requires FirstBlobOf(Purge(dir, done), uid).Some?
    ensures UniquePrefixes(Purge(dir, done + {uid}))
    ensures RemoveAt(Purge(dir, done), FirstBlobOf(Purge(dir, done), uid).value)
            == Purge(dir, done + {uid})
  {
    PurgeUnique(dir, done);
    PurgeUnique(dir, done + {uid});
    RemoveFirstIsPurge(Purge(dir, done), uid);
    PurgeTwice(dir, done, {uid});
  }
}
