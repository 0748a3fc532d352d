/** An end-to-end run of the client against a one-episode catalog: stream, download,
    play locally, delete. */
module Scenario {
  import opened Wrappers
  import opened Types
  import opened Api
  import opened Storage
  import Player
  import Home
  import Downloads

  const Base: string := "http://host:3000"
  const Ep1: Episode := Episode("ep1", "Romance Dawn", 1, 1, "The first episode", "/media/ep1.mp4", "/images/ep1.jpg", 1440)
  const OneEpisode: Catalog := Catalog([Ep1])
  const DocDir: Option<string> := Some("file:///docs/")

  /** The server answers the catalog request and nothing else. */
  function Server(url: string): Fetched<Catalog>
  {
    if url == "http://host:3000/catalog.json" then Response(200, Parsed(OneEpisode)) else NetworkFailure
  }

  /** The platform download writes exactly the requested file and reports it. */
  function Platform(url: string, path: string): Home.Transfer
  {
    if url == "http://host:3000/media/ep1.mp4" then Home.Finished(path) else Home.TransferFailed
  }

  lemma CatalogUrl()
    ensures JoinUrl(Base, CatalogPath) == "http://host:3000/catalog.json"
  {
    assert DropTrailingSlash(Base) == Base;
    assert DropLeadingSlash(CatalogPath) == "catalog.json";
  }

  lemma MediaUrl()
    ensures JoinUrl(Base, Ep1.mediaUrl) == "http://host:3000/media/ep1.mp4"
  {
    assert DropTrailingSlash(Base) == Base;
    assert DropLeadingSlash(Ep1.mediaUrl) == "media/ep1.mp4";
  }

  /** The store once the server URL is saved on a fresh installation. */
  const Configured0: Store := SetServerUrl(EmptyStore, Base)

  /** Downloading "ep1" from the home screen. */
  function DownloadEp1(): Home.DownloadStep
  {
    Home.HandleDownload(Home.HomeScreen(Configured0, {}, {}), Some(Base), Ep1, DocDir, 1700000000000, Platform)
  }

  /** Before the download the episode streams from the server. */
  lemma StreamsBeforeDownload()
    ensures Player.ResolveSource("ep1", Configured0, {}, Server) == Player.Stream("http://host:3000/media/ep1.mp4")
  {
    CatalogUrl();
    MediaUrl();
    assert GetDownloads(Configured0) == [];
    assert OneEpisode.episodes[0] == Ep1;
    assert Seqs.Find(OneEpisode.episodes, EpisodeId, "ep1") == Some(Ep1);
  }

  /** The download leaves one record, for "ep1", pointing at the file named after the id. */
  lemma DownloadRecordsFile()
    ensures var path := Home.LocalPath(DocDir, "ep1");
            && path == "file:///docs/ep1.mp4"
            && GetDownloads(DownloadEp1().after.store) == [Home.NewRecord(Ep1, path, 1700000000000)]
            && path in DownloadEp1().after.files
  {
    MediaUrl();
    var path := Home.LocalPath(DocDir, "ep1");
    assert path == "file:///docs/" + "ep1" + ".mp4";
  }

  /** After the download, playback is local. */
  lemma PlaysLocallyAfterDownload()
    ensures Player.ResolveSource("ep1", DownloadEp1().after.store, DownloadEp1().after.files, Server)
            == Player.Local(Home.LocalPath(DocDir, "ep1"))
  {
    DownloadRecordsFile();
    var record := Home.NewRecord(Ep1, Home.LocalPath(DocDir, "ep1"), 1700000000000);
    assert GetDownload(DownloadEp1().after.store, "ep1") == Some(record);
  }

  /** Deleting the downloaded record from a fresh listing empties the ledger and the list
      and removes the file. */
  lemma DeleteEmptiesLedger()
    ensures var store := DownloadEp1().after.store;
            var files := DownloadEp1().after.files;
            var record := Home.NewRecord(Ep1, Home.LocalPath(DocDir, "ep1"), 1700000000000);
            var deleted := Downloads.HandleDelete(
              Downloads.DownloadsScreen(store, files, Downloads.LoadDownloads(store, files), {}),
              record, Downloads.Confirm, false);
            && GetDownloads(deleted.after.store) == []
            && Home.LocalPath(DocDir, "ep1") !in deleted.after.files
            && deleted.after.shown == []
  {
    DownloadRecordsFile();
    var store := DownloadEp1().after.store;
    var files := DownloadEp1().after.files;
    var record := Home.NewRecord(Ep1, Home.LocalPath(DocDir, "ep1"), 1700000000000);
    assert Downloads.ExistingFiles([record], files) == [record] + Downloads.ExistingFiles([], files);
    assert WithoutId([record], "ep1") == [] + WithoutId([], "ep1");
  }
}
