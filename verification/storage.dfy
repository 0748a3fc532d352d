/** The local preference store and the download ledger, over an abstract key/value
    store. The two keys the client uses (`@server_url`, `@downloads`) are two slots of
    the store; every read and write failure is absorbed here and never reaches a caller. */
module Storage {
  import opened Wrappers
  import opened Types
  import opened Seqs

  /** What reading one key yields: nothing stored, a readable value, or a failure
      (the read itself throws, or the stored text does not parse). */
  datatype Slot<+T> = Absent | Present(value: T) | Unreadable

  /** The persisted state. When `writable` is false every `setItem` throws. */
  datatype Store = Store(
    serverUrl: Slot<string>,
    downloads: Slot<seq<DownloadedEpisode>>,
    writable: bool)

  /** A fresh installation: nothing stored, writes succeed. */
  const EmptyStore: Store := Store(Absent, Absent, true)

  /** `getServerUrl`: the stored URL, or null when it was never set or cannot be read. */
  function GetServerUrl(s: Store): (r: Option<string>)
    ensures r.Some? <==> s.serverUrl.Present?
    ensures s.serverUrl.Present? ==> r == Some(s.serverUrl.value)
  {
    match s.serverUrl
    case Present(url) => Some(url)
    case _ => None
  }

  /** A server URL the screens treat as configured: present and not the empty string
      (they test `!serverUrl`, which is also true of ""). */
  predicate Configured(url: Option<string>) { url.Some? && url.value != "" }

  /** `setServerUrl`: stores the URL; a failed write leaves the store as it was. */
  function SetServerUrl(s: Store, url: string): (r: Store)
    ensures r.downloads == s.downloads && r.writable == s.writable
    ensures s.writable ==> GetServerUrl(r) == Some(url)
    ensures !s.writable ==> r == s
  {
    if s.writable then s.(serverUrl := Present(url)) else s
  }

  /** `getDownloads`: the stored ledger in insertion order, or empty when absent or unreadable. */
  function GetDownloads(s: Store): (r: seq<DownloadedEpisode>)
    ensures !s.downloads.Present? ==> r == []
    ensures s.downloads.Present? ==> r == s.downloads.value
  {
    match s.downloads
    case Present(ledger) => ledger
    case _ => []
  }

  /** The ledger without any record carrying `id`, the others kept in order
      (`downloads.filter(d => d.id !== id)`). */
  function WithoutId(ledger: seq<DownloadedEpisode>, id: string): (r: seq<DownloadedEpisode>)
    ensures forall x :: x in r <==> x in ledger && x.id != id
    ensures |r| <= |ledger|
  {
    if |ledger| == 0 then []
    else (if ledger[0].id != id then [ledger[0]] else []) + WithoutId(ledger[1..], id)
  }

  /** Every record of another id keeps its number of occurrences; the id's records are all gone. */
  lemma {:induction false} WithoutIdCounts(ledger: seq<DownloadedEpisode>, id: string, x: DownloadedEpisode)
    ensures multiset(WithoutId(ledger, id))[x] == if x.id == id then 0 else multiset(ledger)[x]
  {
    if |ledger| > 0 {
      WithoutIdCounts(ledger[1..], id, x);
      assert ledger == [ledger[0]] + ledger[1..];
    }
  }

  /** Filtering distributes over concatenation: relative order is preserved. */
  lemma {:induction false} WithoutIdAppend(a: seq<DownloadedEpisode>, b: seq<DownloadedEpisode>, id: string)
    ensures WithoutId(a + b, id) == WithoutId(a, id) + WithoutId(b, id)
  {
    if |a| == 0 {
      assert a + b == b;
    } else {
      assert (a + b)[1..] == a[1..] + b;
      WithoutIdAppend(a[1..], b, id);
    }
  }

  /** A ledger with no record of `id` is left exactly as it was. */
  lemma {:induction false} WithoutIdAbsent(ledger: seq<DownloadedEpisode>, id: string)
    requires forall x :: x in ledger ==> x.id != id
    ensures WithoutId(ledger, id) == ledger
  {
    if |ledger| > 0 {
      assert ledger[0] in ledger;
      WithoutIdAbsent(ledger[1..], id);
    }
  }

  /** `addDownload`: the record is appended after the ledger as read, with no check for
      an existing record of the same id. An unreadable ledger reads as empty, so it is
      overwritten by the one record; a failed write leaves the store as it was. */
  function AddDownload(s: Store, d: DownloadedEpisode): (r: Store)
    ensures r.serverUrl == s.serverUrl && r.writable == s.writable
    ensures s.writable ==> GetDownloads(r) == GetDownloads(s) + [d]
    ensures s.writable && s.downloads.Unreadable? ==> GetDownloads(r) == [d]
    ensures !s.writable ==> r == s
  {
    if s.writable then s.(downloads := Present(GetDownloads(s) + [d])) else s
  }

  /** `removeDownload`: every record with the id removed, the rest kept in order. */
  function RemoveDownload(s: Store, id: string): (r: Store)
    ensures r.serverUrl == s.serverUrl && r.writable == s.writable
    ensures s.writable ==> GetDownloads(r) == WithoutId(GetDownloads(s), id)
    ensures s.writable ==> forall x :: x in GetDownloads(r) <==> x in GetDownloads(s) && x.id != id
    ensures !s.writable ==> r == s
  {
    if s.writable then s.(downloads := Present(WithoutId(GetDownloads(s), id))) else s
  }

  /** `getDownload`: the first record with the id, or null. */
  function GetDownload(s: Store, id: string): (r: Option<DownloadedEpisode>)
    ensures r.Some? <==> exists x :: x in GetDownloads(s) && x.id == id
    ensures r.Some? ==> r.value in GetDownloads(s) && r.value.id == id
    ensures r.Some? ==> exists i :: 0 <= i < |GetDownloads(s)| && GetDownloads(s)[i] == r.value
                                    && forall j :: 0 <= j < i ==> GetDownloads(s)[j].id != id
  {
    Find(GetDownloads(s), RecordId, id)
  }

  /** What was written is what is read back, unless the write failed. */
  lemma ServerUrlRoundTrip(s: Store, url: string)
    ensures GetServerUrl(SetServerUrl(s, url)) == if s.writable then Some(url) else GetServerUrl(s)
  {
  }

  /** Removing is idempotent, and afterwards no record of the id can be found. */
  lemma RemoveDownloadIdempotent(s: Store, id: string)
    ensures RemoveDownload(RemoveDownload(s, id), id) == RemoveDownload(s, id)
    ensures s.writable ==> GetDownload(RemoveDownload(s, id), id) == None
  {
    if s.writable {
      var once := WithoutId(GetDownloads(s), id);
      WithoutIdAbsent(once, id);
    }
  }

  /** After adding, a record with that id is found, but it is the first one in the ledger,
      which need not be the one just added. */
  lemma AddThenGet(s: Store, d: DownloadedEpisode)
    requires s.writable
    ensures GetDownload(AddDownload(s, d), d.id).Some?
    ensures GetDownload(s, d.id).Some? ==> GetDownload(AddDownload(s, d), d.id) == GetDownload(s, d.id)
    ensures GetDownload(s, d.id).None? ==> GetDownload(AddDownload(s, d), d.id) == Some(d)
  {
    var l := GetDownloads(s);
    assert GetDownloads(AddDownload(s, d)) == l + [d];
    assert d in l + [d];
    if GetDownload(s, d.id).Some? {
      FindAppend(l, [d], RecordId, d.id);
    } else {
      var r := GetDownload(AddDownload(s, d), d.id);
      assert r.value in l + [d];
    }
  }

  /** Adding the same id twice leaves two records of it: the ledger does not deduplicate. */
  lemma AddKeepsDuplicates(s: Store, d1: DownloadedEpisode, d2: DownloadedEpisode)
    requires s.writable && d1.id == d2.id
    ensures var l := GetDownloads(AddDownload(AddDownload(s, d1), d2));
            |l| == |GetDownloads(s)| + 2 && l[|l| - 2].id == l[|l| - 1].id
  {
  }

  /** A store whose writes fail is never changed by any of the writers. */
  lemma FailedWritesChangeNothing(s: Store, url: string, d: DownloadedEpisode, id: string)
    requires !s.writable
    ensures SetServerUrl(s, url) == s && AddDownload(s, d) == s && RemoveDownload(s, id) == s
  {
  }
}
