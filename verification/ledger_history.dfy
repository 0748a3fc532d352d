/** The download ledger under any sequence of adds and removes: the stored list is
    what was added, minus what was later removed, in the order of the adds. */
module LedgerHistory {
  import opened Wrappers
  import opened Types
  import opened Storage

  /** One ledger mutation, as the client issues it. */
  datatype LedgerOp = Add(record: DownloadedEpisode) | Remove(id: string)

  function Apply(s: Store, op: LedgerOp): Store
  {
    match op
    case Add(d) => AddDownload(s, d)
    case Remove(id) => RemoveDownload(s, id)
  }

  /** The operations run one after the other, first to last. The server URL and the
      store's ability to write are never touched by ledger operations. */
  function Replay(s: Store, ops: seq<LedgerOp>): (r: Store)
    ensures r.serverUrl == s.serverUrl && r.writable == s.writable
    ensures !s.writable ==> r == s
    decreases |ops|
  {
    if |ops| == 0 then s else Replay(Apply(s, ops[0]), ops[1..])
  }

  /** Replaying one more operation is applying it to the replayed store. */
  lemma {:induction false} ReplaySnoc(s: Store, ops: seq<LedgerOp>, op: LedgerOp)
    ensures Replay(s, ops + [op]) == Apply(Replay(s, ops), op)
    decreases |ops|
  {
    if |ops| == 0 {
      assert ops + [op] == [op];
      assert [op][1..] == [];
    } else {
      assert (ops + [op])[1..] == ops[1..] + [op];
      ReplaySnoc(Apply(s, ops[0]), ops[1..], op);
    }
  }

  /** Some operation in `ops` removes `id`. */
  predicate RemovedIn(ops: seq<LedgerOp>, id: string)
  {
    exists j :: 0 <= j < |ops| && ops[j] == Remove(id)
  }

  /** The records of `ledger` that no operation of `ops` removes, in their order. */
  function Kept(ledger: seq<DownloadedEpisode>, ops: seq<LedgerOp>): seq<DownloadedEpisode>
  {
    if |ledger| == 0 then []
    else (if RemovedIn(ops, ledger[0].id) then [] else [ledger[0]]) + Kept(ledger[1..], ops)
  }

  /** Reference: the records added by `ops` and not removed by a later operation, in the order added. */
  function Survivors(ops: seq<LedgerOp>): seq<DownloadedEpisode>
  {
    if |ops| == 0 then []
    else match ops[0]
      case Add(d) => (if RemovedIn(ops[1..], d.id) then [] else [d]) + Survivors(ops[1..])
      case Remove(_) => Survivors(ops[1..])
  }

  lemma RemovedInCons(ops: seq<LedgerOp>, id: string)
    requires |ops| > 0
    ensures RemovedIn(ops, id) <==> ops[0] == Remove(id) || RemovedIn(ops[1..], id)
  {
    if RemovedIn(ops[1..], id) {
      var j :| 0 <= j < |ops| - 1 && ops[1..][j] == Remove(id);
      assert ops[j + 1] == Remove(id);
    }
    if RemovedIn(ops, id) && ops[0] != Remove(id) {
      var j :| 0 <= j < |ops| && ops[j] == Remove(id);
      assert ops[1..][j - 1] == Remove(id);
    }
  }

  lemma {:induction false} KeptNothing(ledger: seq<DownloadedEpisode>)
    ensures Kept(ledger, []) == ledger
  {
    if |ledger| > 0 {
      KeptNothing(ledger[1..]);
      assert ledger == [ledger[0]] + ledger[1..];
    }
  }

  lemma {:induction false} KeptAppend(a: seq<DownloadedEpisode>, b: seq<DownloadedEpisode>, ops: seq<LedgerOp>)
    ensures Kept(a + b, ops) == Kept(a, ops) + Kept(b, ops)
  {
    if |a| == 0 {
      assert a + b == b;
    } else {
      assert (a + b)[0] == a[0];
      assert (a + b)[1..] == a[1..] + b;
      KeptAppend(a[1..], b, ops);
    }
  }

  /** An add at the front removes nothing, so it does not change what is kept. */
  lemma {:induction false} KeptPastAdd(ledger: seq<DownloadedEpisode>, ops: seq<LedgerOp>)
    requires |ops| > 0 && ops[0].Add?
    ensures Kept(ledger, ops) == Kept(ledger, ops[1..])
  {
    if |ledger| > 0 {
      RemovedInCons(ops, ledger[0].id);
      KeptPastAdd(ledger[1..], ops);
    }
  }

  /** A remove at the front acts on the ledger before the rest of the operations do. */
  lemma {:induction false} KeptPastRemove(ledger: seq<DownloadedEpisode>, ops: seq<LedgerOp>)
    requires |ops| > 0 && ops[0].Remove?
    ensures Kept(ledger, ops) == Kept(WithoutId(ledger, ops[0].id), ops[1..])
  {
    if |ledger| > 0 {
      RemovedInCons(ops, ledger[0].id);
      KeptPastRemove(ledger[1..], ops);
      var head := if ledger[0].id != ops[0].id then [ledger[0]] else [];
      assert WithoutId(ledger, ops[0].id) == head + WithoutId(ledger[1..], ops[0].id);
      KeptAppend(head, WithoutId(ledger[1..], ops[0].id), ops[1..]);
      if head != [] {
        assert Kept(head, ops[1..]) == (if RemovedIn(ops[1..], ledger[0].id) then [] else [ledger[0]]) + Kept([], ops[1..]);
      }
    } else {
      assert WithoutId(ledger, ops[0].id) == [];
    }
  }

  lemma KeptSingle(d: DownloadedEpisode, ops: seq<LedgerOp>)
    ensures Kept([d], ops) == if RemovedIn(ops, d.id) then [] else [d]
  {
    assert [d][1..] == [];
  }

  lemma SurvivorsAdd(ops: seq<LedgerOp>)
    requires |ops| > 0 && ops[0].Add?
    ensures Survivors(ops) == Kept([ops[0].record], ops[1..]) + Survivors(ops[1..])
  {
    KeptSingle(ops[0].record, ops[1..]);
  }

  /** One add in front: the record joins the ledger and survives unless removed later. */
  lemma KeptStepAdd(ledger: seq<DownloadedEpisode>, ops: seq<LedgerOp>)
    requires |ops| > 0 && ops[0].Add?
    ensures Kept(ledger + [ops[0].record], ops[1..]) + Survivors(ops[1..])
            == Kept(ledger, ops) + Survivors(ops)
  {
    var d := ops[0].record;
    var rest := ops[1..];
    var mine := Kept([d], rest);
    KeptAppend(ledger, [d], rest);
    KeptPastAdd(ledger, ops);
    SurvivorsAdd(ops);
    calc {
      Kept(ledger + [d], rest) + Survivors(rest);
      (Kept(ledger, rest) + mine) + Survivors(rest);
      Kept(ledger, rest) + (mine + Survivors(rest));
    }
  }

  /** After any sequence of adds and removes on a writable store, the ledger holds the
      earlier records that were not removed, followed by the added records that were
      not removed afterwards, each group in its original order. */
  lemma {:induction false} ReplayLedger(s: Store, ops: seq<LedgerOp>)
    requires s.writable
    ensures GetDownloads(Replay(s, ops)) == Kept(GetDownloads(s), ops) + Survivors(ops)
    decreases |ops|
  {
    if |ops| == 0 {
      KeptNothing(GetDownloads(s));
    } else {
      var s' := Apply(s, ops[0]);
      ReplayLedger(s', ops[1..]);
      assert Replay(s, ops) == Replay(s', ops[1..]);
      if ops[0].Add? {
        assert GetDownloads(s') == GetDownloads(s) + [ops[0].record];
        KeptStepAdd(GetDownloads(s), ops);
      } else {
        assert GetDownloads(s') == WithoutId(GetDownloads(s), ops[0].id);
        KeptPastRemove(GetDownloads(s), ops);
      }
    }
  }

  /** From a fresh installation, the ledger is exactly the surviving adds, in order. */
  lemma FreshLedger(ops: seq<LedgerOp>)
    ensures GetDownloads(Replay(EmptyStore, ops)) == Survivors(ops)
  {
    ReplayLedger(EmptyStore, ops);
  }

  /** Reference: whether the last operation that concerns `id` is an add
      (false when no operation concerns it). */
  function LastTouchIsAdd(ops: seq<LedgerOp>, id: string): bool
  {
    if |ops| == 0 then false
    else match ops[|ops| - 1]
      case Add(d) => if d.id == id then true else LastTouchIsAdd(ops[..|ops| - 1], id)
      case Remove(x) => if x == id then false else LastTouchIsAdd(ops[..|ops| - 1], id)
  }

  /** From a fresh installation, `getDownload(id)` finds a record exactly when the last
      operation concerning `id` was an add. */
  lemma {:induction false} GetAfterHistory(ops: seq<LedgerOp>, id: string)
    ensures GetDownload(Replay(EmptyStore, ops), id).Some? <==> LastTouchIsAdd(ops, id)
    decreases |ops|
  {
    if |ops| > 0 {
      var prefix := ops[..|ops| - 1];
      var op := ops[|ops| - 1];
      assert ops == prefix + [op];
      GetAfterHistory(prefix, id);
      ReplaySnoc(EmptyStore, prefix, op);
      var before := Replay(EmptyStore, prefix);
      match op
      case Add(d) =>
        assert GetDownloads(AddDownload(before, d)) == GetDownloads(before) + [d];
        if d.id == id {
          assert d in GetDownloads(before) + [d];
        }
      case Remove(x) =>
    }
  }
}
