/** The client's data model: catalog episodes and the records of the download ledger. */
module Types {

  /** One playable episode as the catalog document describes it. `mediaUrl` and
      `imageUrl` are paths relative to the server; the numbers are shown, never computed with. */
  datatype Episode = Episode(
    id: string,
    title: string,
    season: int,
    episode: int,
    description: string,
    mediaUrl: string,
    imageUrl: string,
    duration: int)

  /** The catalog document: the episodes in the server's order. */
  datatype Catalog = Catalog(episodes: seq<Episode>)

  /** A ledger record: where the file of a downloaded episode lives, when it was
      downloaded, and a snapshot of the episode taken at that moment. */
  datatype DownloadedEpisode = DownloadedEpisode(
    id: string,
    localUri: string,
    downloadedAt: int,
    title: string,
    episode: Episode)

  /** Key functions for first-match lookups by id. */
  function EpisodeId(e: Episode): string { e.id }

  function RecordId(d: DownloadedEpisode): string { d.id }
}
