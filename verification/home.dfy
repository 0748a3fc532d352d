/** The home screen's download orchestration: fetch an episode's media into a file named
    after its id, record it in the ledger on success, and track the ids being downloaded. */
module Home {
  import opened Wrappers
  import opened Types
  import opened Api
  import opened Storage

  /** What `downloadAsync` gave back: a result carrying the written file's URI,
      no result at all, or an exception. */
  datatype Transfer = Finished(uri: string) | NoResult | TransferFailed

  /** The alert shown at the end of a download. */
  datatype DownloadAlert = Downloaded(title: string) | DownloadFailed

  /** The state a download touches: the persisted store, the files on the device and
      the ids with a download in progress (`downloading`). */
  datatype HomeScreen = HomeScreen(store: Store, files: set<string>, downloading: set<string>)

  /** One `handleDownload` run: the in-progress set while the transfer runs, the state
      afterwards and the alert, if any. */
  datatype DownloadStep = DownloadStep(during: set<string>, after: HomeScreen, alert: Option<DownloadAlert>)

  const MediaExtension: string := ".mp4"

  /** `FileSystem.documentDirectory` as a string operand: JavaScript turns null into "null". */
  function DirectoryText(documentDirectory: Option<string>): string
  {
    match documentDirectory
    case Some(dir) => dir
    case None => "null"
  }

  /** `documentDirectory + `${id}.mp4``: the file a download of `id` is written to. */
  function LocalPath(documentDirectory: Option<string>, id: string): (r: string)
    ensures |r| == |DirectoryText(documentDirectory)| + |id| + |MediaExtension|
    ensures r[..|DirectoryText(documentDirectory)|] == DirectoryText(documentDirectory)
    ensures r[|DirectoryText(documentDirectory)|..|r| - |MediaExtension|] == id
    ensures r[|r| - |MediaExtension|..] == MediaExtension
  {
    var dir := DirectoryText(documentDirectory);
    var r := dir + id + MediaExtension;
    assert r[..|dir|] == dir;
    assert r[|dir|..|r| - |MediaExtension|] == id;
    r
  }

  /** Different ids never share a file, and the same id always maps to the same file. */
  lemma LocalPathInjective(documentDirectory: Option<string>, a: string, b: string)
    ensures LocalPath(documentDirectory, a) == LocalPath(documentDirectory, b) <==> a == b
  {
    var dir := DirectoryText(documentDirectory);
    var pa := LocalPath(documentDirectory, a);
    var pb := LocalPath(documentDirectory, b);
    if pa == pb {
      assert |a| == |b|;
      assert a == pa[|dir|..|pa| - |MediaExtension|];
    }
  }

  /** The ledger record committed after a successful download: a snapshot of the episode. */
  function NewRecord(e: Episode, uri: string, now: int): (d: DownloadedEpisode)
    ensures d.id == e.id && d.title == e.title && d.episode == e
    ensures d.localUri == uri && d.downloadedAt == now
  {
    DownloadedEpisode(e.id, uri, now, e.title, e)
  }

  /** The Download button of an episode is enabled exactly when no download of it is in progress. */
  predicate DownloadEnabled(downloading: set<string>, id: string) { id !in downloading }

  /** `handleDownload`. `serverUrl` is the screen's copy of the stored URL, `now` stands for
      `Date.now()`, and `transfer(url, path)` is the platform download of `url` into `path`. */
  function HandleDownload(h: HomeScreen, serverUrl: Option<string>, e: Episode,
                          documentDirectory: Option<string>, now: int,
                          transfer: (string, string) -> Transfer): (r: DownloadStep)
    // without a configured server nothing happens at all
    ensures !Configured(serverUrl) ==> r == DownloadStep(h.downloading, h, None)
    // the id is pending while the transfer runs and not afterwards; other ids are untouched
    ensures Configured(serverUrl) ==> r.during == h.downloading + {e.id}
    ensures Configured(serverUrl) ==> r.after.downloading == h.downloading - {e.id}
    // the transfer's outcome decides the rest
    ensures Configured(serverUrl) ==>
              var t := transfer(JoinUrl(serverUrl.value, e.mediaUrl), LocalPath(documentDirectory, e.id));
              && (t.Finished? ==> r.after.store == AddDownload(h.store, NewRecord(e, t.uri, now))
                                  && r.after.files == h.files + {t.uri}
                                  && r.alert == Some(Downloaded(e.title)))
              && (t.NoResult? ==> r.after.store == h.store && r.after.files == h.files && r.alert == None)
              && (t.TransferFailed? ==> r.after.store == h.store && r.after.files == h.files
                                        && r.alert == Some(DownloadFailed))
  {
    if !Configured(serverUrl) then DownloadStep(h.downloading, h, None)
    else
      var during := h.downloading + {e.id};
      var mediaUrl := JoinUrl(serverUrl.value, e.mediaUrl);
      var fileUri := LocalPath(documentDirectory, e.id);
      var finished := during - {e.id};
      match transfer(mediaUrl, fileUri)
      case Finished(uri) =>
        var store := AddDownload(h.store, NewRecord(e, uri, now));
        DownloadStep(during, HomeScreen(store, h.files + {uri}, finished), Some(Downloaded(e.title)))
      case NoResult =>
        DownloadStep(during, HomeScreen(h.store, h.files, finished), None)
      case TransferFailed =>
        DownloadStep(during, HomeScreen(h.store, h.files, finished), Some(DownloadFailed))
  }

  /** A record is committed only when the transfer returned a result; then the ledger grows
      by exactly that snapshot, and otherwise it is unchanged. */
  lemma RecordOnlyOnSuccess(h: HomeScreen, serverUrl: Option<string>, e: Episode,
                            documentDirectory: Option<string>, now: int,
                            transfer: (string, string) -> Transfer)
    requires h.store.writable
    ensures var r := HandleDownload(h, serverUrl, e, documentDirectory, now, transfer);
            && (!Configured(serverUrl) ==> GetDownloads(r.after.store) == GetDownloads(h.store))
            && (Configured(serverUrl) ==>
                  var t := transfer(JoinUrl(serverUrl.value, e.mediaUrl), LocalPath(documentDirectory, e.id));
                  && (t.Finished? ==>
                        exists d :: GetDownloads(r.after.store) == GetDownloads(h.store) + [d]
                                    && d.id == e.id && d.title == e.title && d.episode == e
                                    && d.localUri == t.uri && d.downloadedAt == now)
                  && (!t.Finished? ==> GetDownloads(r.after.store) == GetDownloads(h.store)))
  {
    if Configured(serverUrl) {
      var t := transfer(JoinUrl(serverUrl.value, e.mediaUrl), LocalPath(documentDirectory, e.id));
      if t.Finished? {
        var d := NewRecord(e, t.uri, now);
        assert GetDownloads(AddDownload(h.store, d)) == GetDownloads(h.store) + [d];
      }
    }
  }

  /** While the transfer runs the button is disabled; afterwards it is enabled again,
      whether the download succeeded or not, and no other episode's button changes. */
  lemma ButtonDisabledWhileDownloading(h: HomeScreen, serverUrl: Option<string>, e: Episode,
                                       documentDirectory: Option<string>, now: int,
                                       transfer: (string, string) -> Transfer, other: string)
    requires Configured(serverUrl) && other != e.id
    ensures var r := HandleDownload(h, serverUrl, e, documentDirectory, now, transfer);
            && !DownloadEnabled(r.during, e.id)
            && DownloadEnabled(r.after.downloading, e.id)
            && (DownloadEnabled(r.after.downloading, other) <==> DownloadEnabled(h.downloading, other))
  {
  }

  /** The only platform request is the episode's media URL into its id's file. */
  lemma DownloadRequestsMediaIntoLocalPath(h: HomeScreen, url: string, e: Episode,
                                           documentDirectory: Option<string>, now: int,
                                           f: (string, string) -> Transfer, g: (string, string) -> Transfer)
    requires url != ""
    requires f(JoinUrl(url, e.mediaUrl), LocalPath(documentDirectory, e.id))
             == g(JoinUrl(url, e.mediaUrl), LocalPath(documentDirectory, e.id))
    ensures HandleDownload(h, Some(url), e, documentDirectory, now, f)
            == HandleDownload(h, Some(url), e, documentDirectory, now, g)
  {
  }
}
