/** The settings screen: prefill the field from the stored server URL, and on Save
    trim the input, reject it when empty or not an http(s) URL, test the server and
    store the trimmed URL, after confirmation when the test fails. */
module Settings {
  import opened Wrappers
  import opened Api
  import opened Storage

  /** The characters `String.prototype.trim` removes: ECMAScript WhiteSpace
      (tab, vertical tab, form feed, space, no-break space, byte order mark and the
      other space separators) and LineTerminator (LF, CR, line and paragraph separator). */
  predicate IsLineTerminator(c: char)
  {
    var n := c as int;
    n == 0x0A || n == 0x0D || n == 0x2028 || n == 0x2029
  }

  predicate IsJsWhitespace(c: char)
  {
    var n := c as int;
    || IsLineTerminator(c)
    || n == 0x09 || n == 0x0B || n == 0x0C || n == 0x20 || n == 0xA0 || n == 0x1680
    || (0x2000 <= n <= 0x200A) || n == 0x202F || n == 0x205F || n == 0x3000 || n == 0xFEFF
  }

  /** How many whitespace characters open the input. */
  function LeadingWhitespace(s: string): (n: nat)
    ensures n <= |s|
    ensures forall j :: 0 <= j < n ==> IsJsWhitespace(s[j])
    ensures n < |s| ==> !IsJsWhitespace(s[n])
  {
    if |s| > 0 && IsJsWhitespace(s[0]) then 1 + LeadingWhitespace(s[1..]) else 0
  }

  /** Where the text of `s[lo..hi]` ends once its trailing whitespace is dropped. */
  function TextEnd(s: string, lo: nat, hi: nat): (m: nat)
    requires lo <= hi <= |s|
    ensures lo <= m <= hi
    ensures forall j :: m <= j < hi ==> IsJsWhitespace(s[j])
    ensures lo < m ==> !IsJsWhitespace(s[m - 1])
    decreases hi
  {
    if lo < hi && IsJsWhitespace(s[hi - 1]) then TextEnd(s, lo, hi - 1) else hi
  }

  /** `trim()`: the input minus the whitespace at both ends. The result is the piece of the
      input that follows the leading whitespace and is followed only by whitespace; it
      neither starts nor ends with whitespace, and it is empty exactly when the input is
      all whitespace. */
  function Trim(s: string): (r: string)
    ensures LeadingWhitespace(s) + |r| <= |s|
    ensures r == s[LeadingWhitespace(s)..LeadingWhitespace(s) + |r|]
    ensures forall j :: LeadingWhitespace(s) + |r| <= j < |s| ==> IsJsWhitespace(s[j])
    ensures r != [] ==> !IsJsWhitespace(r[0]) && !IsJsWhitespace(r[|r| - 1])
    ensures r == [] <==> forall j :: 0 <= j < |s| ==> IsJsWhitespace(s[j])
  {
    var n := LeadingWhitespace(s);
    s[n..TextEnd(s, n, |s|)]
  }

  /** Trimming twice is trimming once. */
  lemma TrimIdempotent(s: string)
    ensures Trim(Trim(s)) == Trim(s)
  {
    var r := Trim(s);
    assert LeadingWhitespace(r) == 0;
    assert TextEnd(r, 0, |r|) == |r|;
    assert r[0..|r|] == r;
  }

  predicate HasPrefix(s: string, p: string) { |p| <= |s| && s[..|p|] == p }

  /** `/^https?:\/\/.+/`: `http://` or `https://` at the start, then at least one
      character that is not a line terminator (what `.` matches). */
  predicate MatchesUrlPattern(t: string)
  {
    || (HasPrefix(t, "http://") && |t| > 7 && !IsLineTerminator(t[7]))
    || (HasPrefix(t, "https://") && |t| > 8 && !IsLineTerminator(t[8]))
  }

  lemma UrlPatternExamples()
    ensures MatchesUrlPattern("http://192.168.1.100:3000")
    ensures MatchesUrlPattern("https://x")
    ensures !MatchesUrlPattern("http://")
    ensures !MatchesUrlPattern("https://")
    ensures !MatchesUrlPattern("ftp://host")
    ensures !MatchesUrlPattern("192.168.1.100:3000")
    ensures !MatchesUrlPattern("http://\nhost")
  {
    assert "http://192.168.1.100:3000"[..7] == "http://";
    assert "https://x"[..8] == "https://";
    assert "http://\nhost"[4] != "https://"[4];
    assert "https://"[4] != "http://"[4];
    assert "ftp://host"[0] != "http://"[0] && "ftp://host"[0] != "https://"[0];
  }

  /** The two buttons of the "Connection Failed" dialog. */
  datatype DialogChoice = Dismiss | SaveAnyway

  /** How a press of Save ends. */
  datatype SaveOutcome = EmptyRejected | FormatRejected | SavedConnected | SavedAfterFailure | Cancelled

  datatype SaveResult = SaveResult(outcome: SaveOutcome, store: Store)

  /** `handleSave`. `fetch` answers the health check and `choice` is the dialog button
      pressed when the health check fails. */
  function HandleSave(input: string, s: Store, fetch: string -> Fetched<Json>, choice: DialogChoice): (r: SaveResult)
    ensures Trim(input) == "" ==> r == SaveResult(EmptyRejected, s)
    ensures Trim(input) != "" && !MatchesUrlPattern(Trim(input)) ==> r == SaveResult(FormatRejected, s)
    ensures MatchesUrlPattern(Trim(input)) && TestServerConnection(Trim(input), fetch) ==>
              r.outcome == SavedConnected
    ensures MatchesUrlPattern(Trim(input)) && !TestServerConnection(Trim(input), fetch) ==>
              r.outcome == (if choice == SaveAnyway then SavedAfterFailure else Cancelled)
    // what is persisted is always the trimmed input, and only on the two saving outcomes
    ensures r.outcome in {SavedConnected, SavedAfterFailure} ==> r.store == SetServerUrl(s, Trim(input))
    ensures r.outcome !in {SavedConnected, SavedAfterFailure} ==> r.store == s
  {
    var url := Trim(input);
    if url == "" then SaveResult(EmptyRejected, s)
    else if !MatchesUrlPattern(url) then SaveResult(FormatRejected, s)
    else if TestServerConnection(url, fetch) then SaveResult(SavedConnected, SetServerUrl(s, url))
    else match choice
      case SaveAnyway => SaveResult(SavedAfterFailure, SetServerUrl(s, url))
      case Dismiss => SaveResult(Cancelled, s)
  }

  /** A rejected input never reaches the network: the health check's answer is irrelevant. */
  lemma RejectionSkipsConnectionTest(input: string, s: Store, f: string -> Fetched<Json>, g: string -> Fetched<Json>,
                                     c: DialogChoice, c': DialogChoice)
    requires !MatchesUrlPattern(Trim(input))
    ensures HandleSave(input, s, f, c) == HandleSave(input, s, g, c')
    ensures HandleSave(input, s, f, c).outcome in {EmptyRejected, FormatRejected}
  {
  }

  /** Whatever ends up stored is a trimmed, well-formed http(s) URL. */
  lemma StoredUrlIsWellFormed(input: string, s: Store, fetch: string -> Fetched<Json>, choice: DialogChoice)
    ensures var stored := GetServerUrl(HandleSave(input, s, fetch, choice).store);
            stored == GetServerUrl(s)
            || (stored == Some(Trim(input)) && MatchesUrlPattern(Trim(input)) && Trim(Trim(input)) == Trim(input))
  {
    TrimIdempotent(input);
  }

  /** `loadServerUrl`: the field takes the stored URL only when it is present and not empty. */
  function Prefill(s: Store, field: string): (r: string)
    ensures Configured(GetServerUrl(s)) ==> r == GetServerUrl(s).value
    ensures !Configured(GetServerUrl(s)) ==> r == field
  {
    var saved := GetServerUrl(s);
    if saved.Some? && saved.value != "" then saved.value else field
  }

  /** Reopening the screen after a save shows the trimmed URL that was saved. */
  lemma PrefillShowsSavedUrl(input: string, s: Store, fetch: string -> Fetched<Json>, choice: DialogChoice)
    requires s.writable
    ensures var r := HandleSave(input, s, fetch, choice);
            r.outcome in {SavedConnected, SavedAfterFailure}
            ==> Prefill(r.store, "") == Trim(input) && Configured(GetServerUrl(r.store))
  {
  }
}
