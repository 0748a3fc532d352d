/** The downloads screen: list the ledger's records whose file still exists, and delete a
    download in two steps, the file first and then its ledger records. */
module Downloads {
  import opened Wrappers
  import opened Types
  import opened Storage

  /** The records whose file exists, in ledger order. */
  function ExistingFiles(ledger: seq<DownloadedEpisode>, files: set<string>): (r: seq<DownloadedEpisode>)
    ensures forall x :: x in r <==> x in ledger && x.localUri in files
    ensures |r| <= |ledger|
  {
    if |ledger| == 0 then []
    else (if ledger[0].localUri in files then [ledger[0]] else []) + ExistingFiles(ledger[1..], files)
  }

  /** A record whose file exists is listed as often as the ledger holds it; one whose file is missing, never. */
  lemma {:induction false} ExistingFilesCounts(ledger: seq<DownloadedEpisode>, files: set<string>, x: DownloadedEpisode)
    ensures multiset(ExistingFiles(ledger, files))[x] == if x.localUri in files then multiset(ledger)[x] else 0
  {
    if |ledger| > 0 {
      ExistingFilesCounts(ledger[1..], files, x);
      assert ledger == [ledger[0]] + ledger[1..];
    }
  }

  /** The existence filter distributes over concatenation: relative order is kept. */
  lemma {:induction false} ExistingFilesAppend(a: seq<DownloadedEpisode>, b: seq<DownloadedEpisode>, files: set<string>)
    ensures ExistingFiles(a + b, files) == ExistingFiles(a, files) + ExistingFiles(b, files)
  {
    if |a| == 0 {
      assert a + b == b;
    } else {
      assert (a + b)[1..] == a[1..] + b;
      ExistingFilesAppend(a[1..], b, files);
    }
  }

  /** `loadDownloads`: the stored ledger, keeping the records whose file exists. It never
      lists a missing file, nor a record the ledger does not hold. */
  function LoadDownloads(s: Store, files: set<string>): (r: seq<DownloadedEpisode>)
    ensures forall x :: x in r ==> x in GetDownloads(s) && x.localUri in files
    ensures forall x :: x in GetDownloads(s) && x.localUri in files ==> x in r
  {
    ExistingFiles(GetDownloads(s), files)
  }

  /** A newly added record is listed last, after the earlier listing, when its file exists. */
  lemma ListingAfterAdd(s: Store, files: set<string>, d: DownloadedEpisode)
    requires s.writable
    ensures LoadDownloads(AddDownload(s, d), files)
            == LoadDownloads(s, files) + (if d.localUri in files then [d] else [])
  {
    var l := GetDownloads(s);
    assert GetDownloads(AddDownload(s, d)) == l + [d];
    ExistingFilesAppend(l, [d], files);
    assert ExistingFiles([d], files) == (if d.localUri in files then [d] else []) + ExistingFiles([], files);
  }

  /** The user's answer to the confirmation dialog. */
  datatype DeleteChoice = Cancel | Confirm

  /** The alert shown at the end of a deletion. */
  datatype DeleteAlert = Deleted | DeleteFailed

  /** The state a deletion touches: the store, the files on the device, the list on
      screen and the ids being deleted (`deleting`). */
  datatype DownloadsScreen = DownloadsScreen(
    store: Store,
    files: set<string>,
    shown: seq<DownloadedEpisode>,
    deleting: set<string>)

  /** One `handleDelete` run: the deleting set while it runs, the state afterwards, the alert. */
  datatype DeleteStep = DeleteStep(during: set<string>, after: DownloadsScreen, alert: Option<DeleteAlert>)

  /** `deleteAsync(uri, { idempotent: true })` when the platform does not fail: the file is
      gone afterwards, whether or not it was there. */
  function DeleteFile(files: set<string>, uri: string): (r: set<string>)
    ensures uri !in r
    ensures forall f :: f != uri ==> (f in r <==> f in files)
  {
    files - {uri}
  }

  /** Deleting a file that is not there is not an error and changes nothing. */
  lemma DeleteFileIdempotent(files: set<string>, uri: string)
    ensures DeleteFile(DeleteFile(files, uri), uri) == DeleteFile(files, uri)
    ensures uri !in files ==> DeleteFile(files, uri) == files
  {
  }

  /** The Delete button of a record is enabled exactly when it is not being deleted. */
  predicate DeleteEnabled(deleting: set<string>, id: string) { id !in deleting }

  /** `handleDelete` after the dialog. `platformFails` is whether `deleteAsync` throws;
      the ledger is touched only after the file is gone. */
  function HandleDelete(s: DownloadsScreen, d: DownloadedEpisode, choice: DeleteChoice, platformFails: bool): (r: DeleteStep)
    ensures choice == Cancel ==> r == DeleteStep(s.deleting, s, None)
    ensures choice == Confirm ==> r.during == s.deleting + {d.id} && r.after.deleting == s.deleting - {d.id}
    // a failing file deletion leaves the ledger, the files and the list as they were
    ensures choice == Confirm && platformFails ==>
              && r.after.store == s.store && r.after.files == s.files && r.after.shown == s.shown
              && r.alert == Some(DeleteFailed)
    // otherwise: file gone, ledger records of the id removed, list entries of the id dropped
    ensures choice == Confirm && !platformFails ==>
              && r.after.files == DeleteFile(s.files, d.localUri)
              && r.after.store == RemoveDownload(s.store, d.id)
              && r.after.shown == WithoutId(s.shown, d.id)
              && r.alert == Some(Deleted)
  {
    match choice
    case Cancel => DeleteStep(s.deleting, s, None)
    case Confirm =>
      var during := s.deleting + {d.id};
      var finished := during - {d.id};
      if platformFails then
        DeleteStep(during, s.(deleting := finished), Some(DeleteFailed))
      else
        var files := DeleteFile(s.files, d.localUri);
        var store := RemoveDownload(s.store, d.id);
        var shown := WithoutId(s.shown, d.id);
        DeleteStep(during, DownloadsScreen(store, files, shown, finished), Some(Deleted))
  }

  /** After a confirmed, successful delete the id is neither in the ledger nor on screen,
      and every record of another id is where it was. If the store cannot be written the
      ledger keeps the id although the screen drops it: the two steps are not atomic. */
  lemma DeleteRemovesOnlyThatId(s: DownloadsScreen, d: DownloadedEpisode, x: DownloadedEpisode)
    ensures var r := HandleDelete(s, d, Confirm, false);
            && (s.store.writable ==> forall y :: y in GetDownloads(r.after.store) ==> y.id != d.id)
            && (forall y :: y in r.after.shown ==> y.id != d.id)
            && (x.id != d.id ==> (x in r.after.shown <==> x in s.shown))
            && (s.store.writable && x.id != d.id ==> (x in GetDownloads(r.after.store) <==> x in GetDownloads(s.store)))
            && (!s.store.writable ==> GetDownloads(r.after.store) == GetDownloads(s.store))
  {
  }

  /** The button is disabled during the deletion and enabled afterwards, on success or failure. */
  lemma DeleteButtonDisabledWhileDeleting(s: DownloadsScreen, d: DownloadedEpisode, platformFails: bool)
    ensures var r := HandleDelete(s, d, Confirm, platformFails);
            !DeleteEnabled(r.during, d.id) && DeleteEnabled(r.after.deleting, d.id)
  {
  }

  lemma {:induction false} ReloadCommutes(ledger: seq<DownloadedEpisode>, files: set<string>, d: DownloadedEpisode)
    requires forall x :: x in ledger && x.localUri == d.localUri ==> x.id == d.id
    ensures ExistingFiles(WithoutId(ledger, d.id), DeleteFile(files, d.localUri))
            == WithoutId(ExistingFiles(ledger, files), d.id)
  {
    if |ledger| > 0 {
      assert ledger[0] in ledger;
      ReloadCommutes(ledger[1..], files, d);
      var h := ledger[0];
      var rest := ledger[1..];
      assert WithoutId(ledger, d.id) == (if h.id != d.id then [h] else []) + WithoutId(rest, d.id);
      ExistingFilesAppend(if h.id != d.id then [h] else [], WithoutId(rest, d.id), DeleteFile(files, d.localUri));
      assert ExistingFiles(ledger, files) == (if h.localUri in files then [h] else []) + ExistingFiles(rest, files);
      WithoutIdAppend(if h.localUri in files then [h] else [], ExistingFiles(rest, files), d.id);
      if h.id != d.id {
        assert ExistingFiles([h], DeleteFile(files, d.localUri))
               == (if h.localUri in DeleteFile(files, d.localUri) then [h] else []) + ExistingFiles([], DeleteFile(files, d.localUri));
        if h.localUri in files {
          assert WithoutId([h], d.id) == [h] + WithoutId([], d.id);
        }
      } else if h.localUri in files {
        assert WithoutId([h], d.id) == [] + WithoutId([], d.id);
      }
    }
  }

  /** When the screen shows a fresh listing and no other id shares the deleted file,
      the list after a successful delete is exactly what reloading the screen would show. */
  lemma ShownAgreesWithReload(s: DownloadsScreen, d: DownloadedEpisode)
    requires s.store.writable
    requires s.shown == LoadDownloads(s.store, s.files)
    requires forall x :: x in GetDownloads(s.store) && x.localUri == d.localUri ==> x.id == d.id
    ensures var r := HandleDelete(s, d, Confirm, false);
            r.after.shown == LoadDownloads(r.after.store, r.after.files)
  {
    ReloadCommutes(GetDownloads(s.store), s.files, d);
  }
}
