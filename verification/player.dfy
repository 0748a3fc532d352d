/** The playback resolver of the player screen: play the downloaded file when its record
    exists and the file is still on disk, otherwise stream from the configured server. */
module Player {
  import opened Wrappers
  import opened Types
  import opened Seqs
  import opened Api
  import opened Storage

  const NotConfiguredMessage: string := "Server URL not configured"
  const NotFoundMessage: string := "Episode not found"
  const LoadFailedMessage: string := "Failed to load video"

  /** Where the video comes from, or why there is none. */
  datatype Source = Local(uri: string) | Stream(url: string) | Failed(message: string)

  /** `loadVideo`'s decision. `files` holds the paths that exist on the device and
      `fetch` answers catalog requests. */
  function ResolveSource(id: string, s: Store, files: set<string>, fetch: string -> Fetched<Catalog>): (r: Source)
    // a ledger record whose file exists wins, and it is the first record of the id
    ensures GetDownload(s, id).Some? && GetDownload(s, id).value.localUri in files
            ==> r == Local(GetDownload(s, id).value.localUri)
    // a local source is always an existing file of a ledger record for the id
    ensures r.Local? ==> r.uri in files && exists d :: d in GetDownloads(s) && d.id == id && d.localUri == r.uri
    // streaming happens only from a configured server, with the first catalog episode of the id
    ensures r.Stream? ==> Configured(GetServerUrl(s))
                          && FetchCatalog(GetServerUrl(s).value, fetch).Success?
                          && exists e :: e in FetchCatalog(GetServerUrl(s).value, fetch).value.episodes
                                         && e.id == id && r.url == JoinUrl(GetServerUrl(s).value, e.mediaUrl)
    // with no usable local copy, a configured server and a catalog listing the id, the episode streams
    ensures !(GetDownload(s, id).Some? && GetDownload(s, id).value.localUri in files)
            && Configured(GetServerUrl(s)) && FetchCatalog(GetServerUrl(s).value, fetch).Success?
            && (exists e :: e in FetchCatalog(GetServerUrl(s).value, fetch).value.episodes && e.id == id)
            ==> r.Stream?
    // the three failures, and no other message
    ensures r.Failed? ==> r.message in {NotConfiguredMessage, LoadFailedMessage, NotFoundMessage}
    ensures r == Failed(NotConfiguredMessage) <==> !r.Local? && !Configured(GetServerUrl(s))
    ensures r == Failed(LoadFailedMessage) <==>
              !r.Local? && Configured(GetServerUrl(s)) && FetchCatalog(GetServerUrl(s).value, fetch).Failure?
    ensures r == Failed(NotFoundMessage) <==>
              !r.Local? && Configured(GetServerUrl(s)) && FetchCatalog(GetServerUrl(s).value, fetch).Success?
              && forall e :: e in FetchCatalog(GetServerUrl(s).value, fetch).value.episodes ==> e.id != id
  {
    var downloaded := GetDownload(s, id);
    if downloaded.Some? && downloaded.value.localUri in files then Local(downloaded.value.localUri)
    else
      var serverUrl := GetServerUrl(s);
      if !Configured(serverUrl) then Failed(NotConfiguredMessage)
      else match FetchCatalog(serverUrl.value, fetch)
        case Failure(_) => Failed(LoadFailedMessage)
        case Success(catalog) =>
          match Find(catalog.episodes, EpisodeId, id)
          case None => Failed(NotFoundMessage)
          case Some(e) => Stream(JoinUrl(serverUrl.value, e.mediaUrl))
  }

  /** Without a usable local copy, a configured server whose catalog lists the id streams
      the FIRST catalog episode with that id, from `joinUrl(server, mediaUrl)`. */
  lemma StreamUsesFirstEpisode(id: string, s: Store, files: set<string>, fetch: string -> Fetched<Catalog>,
                               url: string, catalog: Catalog, k: nat)
    requires !(GetDownload(s, id).Some? && GetDownload(s, id).value.localUri in files)
    requires GetServerUrl(s) == Some(url) && url != ""
    requires FetchCatalog(url, fetch) == Success(catalog)
    requires k < |catalog.episodes| && catalog.episodes[k].id == id
    requires forall j :: 0 <= j < k ==> catalog.episodes[j].id != id
    ensures ResolveSource(id, s, files, fetch) == Stream(JoinUrl(url, catalog.episodes[k].mediaUrl))
  {
    var i := FirstIndex(catalog.episodes, EpisodeId, id);
    assert i == k;
  }

  /** A local hit consults neither the server URL nor the network. */
  lemma LocalIgnoresServerAndNetwork(id: string, s: Store, files: set<string>,
                                     f: string -> Fetched<Catalog>, g: string -> Fetched<Catalog>, url: Slot<string>)
    requires ResolveSource(id, s, files, f).Local?
    ensures ResolveSource(id, s.(serverUrl := url), files, g) == ResolveSource(id, s, files, f)
  {
    assert GetDownload(s.(serverUrl := url), id) == GetDownload(s, id);
  }

  /** A record whose file is gone is as good as no record: the resolver streams as if
      the ledger were empty. */
  lemma MissingFileFallsThrough(id: string, s: Store, files: set<string>, fetch: string -> Fetched<Catalog>)
    requires GetDownload(s, id).Some? && GetDownload(s, id).value.localUri !in files
    ensures ResolveSource(id, s, files, fetch) == ResolveSource(id, s.(downloads := Absent), files, fetch)
  {
    assert GetDownload(s.(downloads := Absent), id) == None;
  }

  /** The player screen's state: `videoUri`, `error` and `loading`. */
  datatype PlayerState = PlayerState(videoUri: Option<string>, error: Option<string>, loading: bool)

  /** The state at mount: nothing chosen yet, loading. */
  const Mounted: PlayerState := PlayerState(None, None, true)

  /** `loadVideo` run to completion from `prev`. The error is cleared at the start, but a
      previous `videoUri` is never cleared, so on an error path it survives next to the error. */
  function LoadVideo(prev: PlayerState, id: string, s: Store, files: set<string>,
                     fetch: string -> Fetched<Catalog>): (r: PlayerState)
    ensures !r.loading
    ensures r.error.Some? <==> ResolveSource(id, s, files, fetch).Failed?
    ensures ResolveSource(id, s, files, fetch).Failed? ==>
              r.error == Some(ResolveSource(id, s, files, fetch).message) && r.videoUri == prev.videoUri
    ensures ResolveSource(id, s, files, fetch).Local? ==> r.videoUri == Some(ResolveSource(id, s, files, fetch).uri)
    ensures ResolveSource(id, s, files, fetch).Stream? ==> r.videoUri == Some(ResolveSource(id, s, files, fetch).url)
    // from a fresh mount exactly one of the two is set
    ensures prev.videoUri.None? ==> (r.videoUri.Some? <==> r.error.None?)
  {
    match ResolveSource(id, s, files, fetch)
    case Local(uri) => PlayerState(Some(uri), None, false)
    case Stream(url) => PlayerState(Some(url), None, false)
    case Failed(message) => PlayerState(prev.videoUri, Some(message), false)
  }

  /** What the screen shows: a spinner, an error text, or the video. */
  datatype Screen = Spinner | ErrorText(text: string) | Video(uri: string)

  /** The render function: `loading`, then `error || !videoUri`, then the video. */
  function Render(p: PlayerState): (r: Screen)
    // the spinner shows exactly while loading
    ensures r.Spinner? <==> p.loading
    // a video shows only with no error to report, and it is the stored, non-empty URI
    ensures r.Video? ==> (p.error.None? || p.error.value == "") && p.videoUri == Some(r.uri) && r.uri != ""
    // an error text is never blank: the error itself when there is one, else a fallback
    ensures r.ErrorText? ==> r.text != ""
                             && (p.error.Some? && p.error.value != "" ==> r.text == p.error.value)
    ensures !p.loading && (p.error.None? || p.error.value == "") && p.videoUri.Some? && p.videoUri.value != ""
            ==> r == Video(p.videoUri.value)
  {
    if p.loading then Spinner
    else if (p.error.Some? && p.error.value != "") || p.videoUri.None? || p.videoUri.value == "" then
      ErrorText(if p.error.Some? && p.error.value != "" then p.error.value else "Video not available")
    else Video(p.videoUri.value)
  }

  /** Whatever was on screen before, after `loadVideo` the user sees the resolved source:
      the error message for a failure, the video for a (non-empty) local or stream URI. */
  lemma ShownMatchesResolution(prev: PlayerState, id: string, s: Store, files: set<string>,
                               fetch: string -> Fetched<Catalog>)
    ensures var src := ResolveSource(id, s, files, fetch);
            var shown := Render(LoadVideo(prev, id, s, files, fetch));
            && (src.Failed? ==> shown == ErrorText(src.message))
            && (src.Local? && src.uri != "" ==> shown == Video(src.uri))
            && (src.Stream? ==> shown == Video(src.url))
  {
    var src := ResolveSource(id, s, files, fetch);
    if src.Stream? {
      assert |src.url| > 0;
    }
  }
}
