# One-Piece mobile client: a Dafny model of its state logic

The system is a personal media server and a companion mobile app. The server
publishes a catalog of episodes and their media files. The app has four jobs:

- fetch the catalog;
- stream an episode, or download it and play the local copy;
- keep the server URL and a ledger of downloads in the device's key/value storage;
- list and delete downloads.

This project models the app's non-UI core as pure functions over explicit state:

- **Remote access** (`mobile/src/api.ts`): `JoinUrl`, the catalog fetch and the health check.
  `fetch` is an oracle `string -> Fetched<T>`. It returns a transport failure, or a
  status with a body that parsed or did not. `response.ok` means a status in 200-299.
- **Preference store and download ledger** (`mobile/src/storage.ts`): a `Store` with two
  slots, one for each key the app uses (`@server_url`, `@downloads`). A slot is absent,
  present, or unreadable. The store also records whether writes succeed. Every failure
  is absorbed and becomes "absent", "empty" or "no change".
- **Ledger history**: any sequence of adds and removes, compared with an independent
  reference definition of what the ledger should hold.
- **Playback resolver** (`loadVideo` in `mobile/app/player.tsx`): local file or remote
  stream, the three error messages, and the screen state it leaves behind.
- **Download orchestration** (`handleDownload` in `mobile/app/index.tsx`): the request made
  to the platform, the deterministic file path, the record committed only on success, and
  the set of ids whose download is in progress. The server URL it uses is the screen's own copy,
  read from the store once at mount, so it is a parameter rather than the store's value.
- **Downloads screen** (`mobile/app/downloads.tsx`): the listing filtered by file existence,
  and the two-step delete (file first, then ledger) with its set of ids being deleted.
- **Settings screen** (`mobile/app/settings.tsx`): the trim, the empty and format checks,
  the save decision after the health check, and the prefill.
- **Scenario**: one episode streamed, downloaded, played locally and deleted.

The device's files are a `set<string>` of existing paths. `Date.now()` is a parameter.
The platform download is an oracle `(url, path) -> Transfer`.

Behaviours of the code worth knowing, all modelled as written:

- The ledger does not deduplicate ids. Adding the same id twice keeps both records
  (`Storage.AddKeepsDuplicates`).
- `joinUrl` strips at most one slash on each side and never collapses runs of slashes
  (`Api.JoinUrlKeepsExtraSlashes`).
- The delete has no compensating step. When the ledger write fails after the file is gone,
  the screen drops the entry but the ledger keeps it (`Downloads.DeleteRemovesOnlyThatId`).
- `loadVideo` clears the error at its start but not the previous video URI, so on an error
  path the old URI survives next to the error. The render function shows the error anyway
  (`Player.ShownMatchesResolution`).

## Model

| member | source | states |
|---|---|---|
| Seqs.Find | mobile/src/storage.ts:59 | `find`: the result exists exactly when some element has the key; it has that key and no earlier element does |
| Api.JoinUrl | mobile/src/api.ts:3-8 | the base, completed by `/` if it lacks one, is a prefix; the path, preceded by `/` if it lacks one, is a suffix; the length is the sum of both lengths plus one, minus one per side that had a slash |
| Api.JoinUrlPlain | mobile/src/api.ts:3-7 | with no slash at either side the result is `b + "/" + p` |
| Api.JoinUrlAbsorbsTrailingSlash | mobile/src/api.ts:5 | adding one trailing slash to the base leaves the result unchanged if and only if the base had none |
| Api.JoinUrlAbsorbsLeadingSlash | mobile/src/api.ts:6 | adding one leading slash to the path leaves the result unchanged if and only if the path had none |
| Api.JoinUrlKeepsExtraSlashes | mobile/src/api.ts:5-6 | only one slash is stripped per side: `("a//", "//b")` joins to `"a///b"` |
| Api.FetchCatalog | mobile/src/api.ts:10-19 | a catalog is returned exactly when the catalog URL answers with an ok status and a parsable body; a non-ok status fails with that status; a transport failure fails |
| Api.FetchCatalogReadsOnlyCatalogUrl | mobile/src/api.ts:11-12 | the result depends only on the response for `joinUrl(server, "/catalog.json")` |
| Api.SignalsOk | mobile/src/api.ts:31 | `data.ok === true`: an object whose `ok` member is the boolean true; `"true"`, `1` or a missing member do not count |
| Api.TestServerConnection | mobile/src/api.ts:21-36 | true exactly when the health URL answers with an ok status and a parsed body whose `ok` member is the boolean true |
| Api.TestServerConnectionReadsOnlyHealthUrl | mobile/src/api.ts:23-24 | the answer depends only on the response for `joinUrl(server, "/health")` |
| Api.HealthCheckCases | mobile/src/api.ts:26-35 | false for a transport failure, a 503, `{"ok": false}`, `{"ok": "true"}` and a malformed body, each on its own; true for `{"ok": true}` with status 200 |
| Storage.GetServerUrl | mobile/src/storage.ts:8-15 | the stored URL when the slot is present; null when it is unset or unreadable |
| Storage.Configured | mobile/app/player.tsx:44 | the screens' `!serverUrl` test: null and the empty string count as not configured, any other string as configured |
| Storage.SetServerUrl | mobile/src/storage.ts:17-23 | a successful write makes the next read return the URL; a failed write changes nothing; the ledger is untouched |
| Storage.ServerUrlRoundTrip | mobile/src/storage.ts:8-23 | get after set returns the URL set, or the old value when the write failed |
| Storage.GetDownloads | mobile/src/storage.ts:26-34 | the stored ledger, or empty when the key is absent or unreadable |
| Storage.WithoutId | mobile/src/storage.ts:49 | a record is left exactly when it was in the ledger and carries another id; the ledger never grows |
| Storage.WithoutIdCounts | mobile/src/storage.ts:49 | records with the id drop to zero copies; every other record keeps its number of copies |
| Storage.WithoutIdAppend | mobile/src/storage.ts:49 | the filter distributes over concatenation, so the kept records stay in their order |
| Storage.WithoutIdAbsent | mobile/src/storage.ts:49 | a ledger without the id is left exactly as it was |
| Storage.AddDownload | mobile/src/storage.ts:36-44 | the ledger read back is the previous ledger with the record appended; an unreadable ledger is overwritten by the one record; a failed write changes nothing |
| Storage.RemoveDownload | mobile/src/storage.ts:46-54 | the ledger read back holds exactly the previous records of other ids, in order; a failed write changes nothing |
| Storage.GetDownload | mobile/src/storage.ts:56-64 | a record is found exactly when the ledger holds one with the id; it is the first such record |
| Storage.RemoveDownloadIdempotent | mobile/src/storage.ts:46-64 | removing twice equals removing once; afterwards `getDownload(id)` is null |
| Storage.AddThenGet | mobile/src/storage.ts:36-64 | after an add, a record with that id is found: the earlier record when one existed, the new one otherwise |
| Storage.AddKeepsDuplicates | mobile/src/storage.ts:38-40 | two adds of the same id leave two records with that id |
| Storage.FailedWritesChangeNothing | mobile/src/storage.ts:17-54 | when writes fail, setting the URL, adding and removing leave the store unchanged |
| LedgerHistory.Replay | mobile/src/storage.ts:36-54 | a run of ledger operations never changes the server URL or the write status, and changes nothing when writes fail |
| LedgerHistory.ReplayLedger | mobile/src/storage.ts:36-54 | after any adds and removes, the ledger holds the earlier records not removed, then the added records not removed later, in order |
| LedgerHistory.FreshLedger | mobile/src/storage.ts:36-54 | from a fresh installation, the ledger is exactly the surviving adds in the order added |
| LedgerHistory.GetAfterHistory | mobile/src/storage.ts:36-64 | from a fresh installation, `getDownload(id)` finds a record if and only if the last operation on that id was an add |
| Player.ResolveSource | mobile/app/player.tsx:24-68 | a ledger record with an existing file gives that local file; a local result is always an existing file of a record for the id; a stream URL is `joinUrl(server, mediaUrl)` of a catalog episode with the id; "Server URL not configured", "Failed to load video" and "Episode not found" each occur exactly in their case, and no other message occurs; with no usable local copy, a configured server and a catalog listing the id, the episode streams |
| Player.StreamUsesFirstEpisode | mobile/app/player.tsx:30-61 | with no usable local copy, a configured server and a catalog listing the id, the result is the stream `joinUrl(server, mediaUrl)` of the first catalog episode with that id |
| Player.LocalIgnoresServerAndNetwork | mobile/app/player.tsx:30-39 | a local result stays the same whatever the server URL slot and the network are |
| Player.MissingFileFallsThrough | mobile/app/player.tsx:32-43 | a record whose file is missing resolves as if the ledger were empty |
| Player.LoadVideo | mobile/app/player.tsx:24-68 | loading ends false; the error is set exactly on failure and then holds the resolver's message; otherwise the URI is the resolved one; from a fresh mount exactly one of URI and error is set |
| Player.Render | mobile/app/player.tsx:79-94 | the spinner shows exactly while loading; a video shows only with no error and a non-empty URI, and then it is that URI; an error text is never blank, and is the error itself when there is one |
| Player.ShownMatchesResolution | mobile/app/player.tsx:79-93 | from any previous state, the screen shows the failure's message or the resolved video |
| Home.LocalPath | mobile/app/index.tsx:66 | the path is the document directory (`"null"` when absent), then the id, then `.mp4` |
| Home.LocalPathInjective | mobile/app/index.tsx:66 | two ids map to the same file if and only if they are equal |
| Home.NewRecord | mobile/app/index.tsx:81-87 | the record copies id, title and the episode snapshot, and takes the result URI and the timestamp |
| Home.DownloadEnabled | mobile/app/index.tsx:111-132 | an episode's Download button is enabled exactly when its id is not in the set of downloads in progress |
| Home.HandleDownload | mobile/app/index.tsx:59-101 | with no configured URL nothing happens; otherwise the id is pending during the transfer and not afterwards; a finished transfer appends the record and marks the file present; no result or an exception leaves the ledger and the files unchanged |
| Home.RecordOnlyOnSuccess | mobile/app/index.tsx:78-93 | the ledger grows by one snapshot of the episode exactly when the transfer returned a result; otherwise it is unchanged |
| Home.ButtonDisabledWhileDownloading | mobile/app/index.tsx:63-132 | the Download button is disabled during the transfer and enabled afterwards; other episodes' buttons do not change |
| Home.DownloadRequestsMediaIntoLocalPath | mobile/app/index.tsx:65-78 | the only platform request is `joinUrl(server, mediaUrl)` into the id's local path |
| Downloads.ExistingFiles | mobile/app/downloads.tsx:32-39 | a record is listed exactly when it is in the ledger and its file exists; the list never grows |
| Downloads.ExistingFilesCounts | mobile/app/downloads.tsx:32-39 | a record whose file exists keeps its number of copies; one whose file is gone has none |
| Downloads.ExistingFilesAppend | mobile/app/downloads.tsx:32-39 | the existence filter keeps the ledger order |
| Downloads.LoadDownloads | mobile/app/downloads.tsx:26-45 | every listed record is in the ledger and has its file; every ledger record whose file exists is listed |
| Downloads.ListingAfterAdd | mobile/app/downloads.tsx:29-39 | after an add, the listing is the old listing followed by the new record when its file exists |
| Downloads.DeleteFile | mobile/app/downloads.tsx:61 | the file is gone afterwards and no other file changes |
| Downloads.DeleteFileIdempotent | mobile/app/downloads.tsx:61 | deleting a missing file changes nothing, and deleting twice equals deleting once |
| Downloads.DeleteEnabled | mobile/app/downloads.tsx:107-130 | a record's Delete button is enabled exactly when its id is not in the set being deleted |
| Downloads.HandleDelete | mobile/app/downloads.tsx:47-84 | Cancel changes nothing; on confirm the id is in the deleting set during the run and not after; a failing file deletion leaves ledger, files and list unchanged; otherwise file, ledger records and list entries of the id are removed |
| Downloads.DeleteRemovesOnlyThatId | mobile/app/downloads.tsx:61-67 | after a successful delete the id is on neither the screen nor a writable ledger, and records of other ids are unaffected |
| Downloads.DeleteButtonDisabledWhileDeleting | mobile/app/downloads.tsx:58-130 | the Delete button is disabled while the deletion runs and enabled afterwards |
| Downloads.ShownAgreesWithReload | mobile/app/downloads.tsx:61-67 | after a successful delete, the list on screen equals what reloading the screen would show |
| Settings.Trim | mobile/app/settings.tsx:24 | the result is a contiguous piece of the input with only whitespace around it, neither starts nor ends with whitespace, and is empty exactly when the input is all whitespace |
| Settings.TrimIdempotent | mobile/app/settings.tsx:24-41 | trimming twice equals trimming once |
| Settings.MatchesUrlPattern | mobile/app/settings.tsx:30-31 | `/^https?:\/\/.+/`: `http://` or `https://` at the start, then at least one character that is not a line terminator |
| Settings.UrlPatternExamples | mobile/app/settings.tsx:30-31 | `http://` or `https://` with at least one following character passes; a bare prefix, another scheme, no scheme, or a line break right after the prefix fails |
| Settings.HandleSave | mobile/app/settings.tsx:23-64 | empty input and a bad format are rejected with the store unchanged; a passing health check saves; a failing one saves on "Save Anyway" only; the value saved is always the trimmed input |
| Settings.RejectionSkipsConnectionTest | mobile/app/settings.tsx:24-37 | a rejected input gives the same result whatever the network and the dialog answer |
| Settings.StoredUrlIsWellFormed | mobile/app/settings.tsx:24-57 | a save either leaves the stored URL as it was or stores the trimmed input, which passes the URL check and is already trimmed |
| Settings.Prefill | mobile/app/settings.tsx:16-21 | the field takes the stored URL only when it is present and not empty |
| Settings.PrefillShowsSavedUrl | mobile/app/settings.tsx:16-57 | after a save, reopening the screen shows the trimmed URL |
| Scenario.CatalogUrl | mobile/src/api.ts:11 | the catalog of `http://host:3000` is fetched from `http://host:3000/catalog.json` |
| Scenario.MediaUrl | mobile/app/index.tsx:65 | the media `/media/ep1.mp4` is fetched from `http://host:3000/media/ep1.mp4` |
| Scenario.StreamsBeforeDownload | mobile/app/player.tsx:43-61 | with no download, episode `ep1` streams from the server |
| Scenario.DownloadRecordsFile | mobile/app/index.tsx:65-87 | downloading `ep1` leaves one ledger record, pointing at the file named after `ep1` |
| Scenario.PlaysLocallyAfterDownload | mobile/app/player.tsx:30-39 | after the download, `ep1` plays from the local file |
| Scenario.DeleteEmptiesLedger | mobile/app/downloads.tsx:56-67 | deleting it empties the ledger and the list, and removes the file |

## Left out

- `backend/server.js`, `mobile/app/_layout.tsx`, JSX rendering and style sheets: routing and presentation, with no logic of their own. The player's render function is the exception; it is modelled to state what the user sees.
- The download progress ratio and `formatBytes` use floating-point arithmetic and `Math.log`. `formatDate` depends on the locale. None of the three is modelled.
- `Date.now()` is a parameter (`now`). The source passes `{ timeout: 5000 }` to `fetch` through a cast; `timeout` is not one of fetch's options, so nothing in the source bounds the wait. Every fetch here answers with a response or a `NetworkFailure`: a fetch that never settles, which would leave the health check and the save waiting, is not modelled.
- Concurrency is not modelled. Each handler is one sequential step, so the interleaving of async read-modify-write on the ledger and the parallel existence checks of `Promise.all` are out of scope.
- The settings screen's `testing` flag only disables Save while the health check runs. With handlers as single steps it has nothing to show.
- JSON encoding of the ledger is abstracted to a decoded slot. A downloads key that holds well-formed JSON which is not an array is not modelled. In the source, `getDownloads` returns that value as it is. A later `removeDownload` then throws inside its `try` (`filter` is missing). `addDownload` throws for most such values; for a string, though, the spread turns it into its characters, and the array written back holds one-character strings followed by the record.
- Player.ResolveSource: the catalog body is taken to be a `Catalog` once it parses, as the source casts it without checking. A parsed body with no `episodes` array throws in `find` and ends in "Failed to load video"; that path is not modelled.
- `FileSystem.getInfoAsync` is assumed not to throw. In the player such a failure would end in "Failed to load video". In the listing it would keep the previous list.
- The home screen's copy of the server URL is not modelled as state. `loadServerUrl` reads it from the store once, when the screen mounts, and performs no fetch. Pull-to-refresh runs only `loadCatalog`, whose fetch is `Api.FetchCatalog` on that copy. `Home.HandleDownload` takes the copy as its `serverUrl` parameter. The home screen stays mounted while Settings is open, so after a save there the copy can differ from `GetServerUrl` of the store: downloads keep using the old URL, or still see none, until the screen is mounted again. The player, by contrast, reads the store on every load. No lemma relates the copy to the store.
- Navigation (`handlePlay`, `router.back`), alert wording beyond the outcome kinds, console logging, and playback errors reported by the video component are not modelled.
- Episode numbers (`season`, `episode`, `duration`) and `downloadedAt` are integers here, not JavaScript numbers. They are only copied and displayed.
