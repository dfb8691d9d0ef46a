/** Where the two phases stop working: the exact conditions under which catch-up copies the
    leader's log and under which a commit keeps the logs in agreement. */
module Limits {
  import opened Ids
  import opened Oplog
  import opened MasterState

  // ---- Catch-up over more than one page ----

  /** What the follower's log is after p pages: every request asks for the entries from n
      on again, so the same hundred entries come back each time. */
  function Repeated(lead: seq<LogEntry>, n: nat, p: nat): (log: seq<LogEntry>)
    requires n + MAX_GET_OPLOG_SIZE <= |lead|
    ensures |log| == n + MAX_GET_OPLOG_SIZE * p
  {
    if p == 0 then lead[..n] else Repeated(lead, n, p - 1) + lead[n..n + MAX_GET_OPLOG_SIZE]
  }

  lemma {:induction false} RepeatedUploads(lead: seq<LogEntry>, n: nat, p: nat)
    requires AllUploads(lead) && n + MAX_GET_OPLOG_SIZE <= |lead|
    ensures AllUploads(Repeated(lead, n, p))
  {
    if p > 0 {
      RepeatedUploads(lead, n, p - 1);
    }
  }

  lemma {:induction false} RepeatedStartsOver(lead: seq<LogEntry>, n: nat, p: nat)
    requires n + MAX_GET_OPLOG_SIZE <= |lead| && p >= 2
    ensures Repeated(lead, n, p)[n + MAX_GET_OPLOG_SIZE] == lead[n]
  {
    if p > 2 {
      RepeatedStartsOver(lead, n, p - 1);
    } else {
      assert |Repeated(lead, n, 1)| == n + MAX_GET_OPLOG_SIZE;
    }
  }

  /** One more page on top of p pages. */
  lemma OneMorePage(m: Master, lead: seq<LogEntry>, n: nat, p: nat)
    requires AllUploads(lead) && |lead| < ID_COUNT && n + MAX_GET_OPLOG_SIZE <= |lead|
    requires n + MAX_GET_OPLOG_SIZE * (p + 1) < ID_COUNT && Holds(m, Repeated(lead, n, p))
    ensures var r := ApplyPage(m, ToId(n + MAX_GET_OPLOG_SIZE * p), PageAt(TableOf(lead), ToId(n)), []);
            && r.ok && r.outcomes == []
            && r.current == ToId(n + MAX_GET_OPLOG_SIZE * (p + 1))
            && Holds(r.m, Repeated(lead, n, p + 1))
  {
    hide ToId, Holds, ApplyPage, PageAt, TableOf;
    var all, at := Repeated(lead, n, p + 1), n + MAX_GET_OPLOG_SIZE * p;
    DensePage(lead, n);
    RepeatedUploads(lead, n, p + 1);
    assert all[..at] == Repeated(lead, n, p);
    assert all[at..|all|] == lead[n..n + MAX_GET_OPLOG_SIZE];
    var k := PageAfterLog(m, all, at, |all|, []);
    assert all[..|all|] == all;
  }

  /** Further pages of a catch-up that needs more than one: it stops only if the gap is a
      whole number of pages, and then with the first page repeated. */
  lemma {:induction false} FurtherPages(m: Master, lead: seq<LogEntry>, n: nat, p: nat, calls: nat)
    requires AllUploads(lead) && |lead| < ID_COUNT && n + MAX_GET_OPLOG_SIZE < |lead|
    requires n + MAX_GET_OPLOG_SIZE * (p + calls) < ID_COUNT
    requires Holds(m, Repeated(lead, n, p))
    ensures var pages := (|lead| - n) / MAX_GET_OPLOG_SIZE;
            var (m', ok) := CatchUp(m, ToId(n + MAX_GET_OPLOG_SIZE * p), ToId(n), ToId(|lead|), TableOf(lead), calls, []);
            && (ok <==> (|lead| - n) % MAX_GET_OPLOG_SIZE == 0 && p < pages <= p + calls)
            && (ok ==> Holds(m', Repeated(lead, n, pages)))
    decreases calls
  {
    hide ToId, Holds, ApplyPage, PageAt, Repeated;
    if calls > 0 {
      var at, next := n + MAX_GET_OPLOG_SIZE * p, n + MAX_GET_OPLOG_SIZE * (p + 1);
      OneMorePage(m, lead, n, p);
      ToIdOrder(next, |lead|);
      var r := ApplyPage(m, ToId(at), PageAt(TableOf(lead), ToId(n)), []);
      if next != |lead| {
        FurtherPages(r.m, lead, n, p + 1, calls - 1);
        assert CatchUp(m, ToId(at), ToId(n), ToId(|lead|), TableOf(lead), calls, [])
            == CatchUp(r.m, ToId(next), ToId(n), ToId(|lead|), TableOf(lead), calls - 1, []);
      } else {
        assert CatchUp(m, ToId(at), ToId(n), ToId(|lead|), TableOf(lead), calls, []) == (r.m, true);
      }
    }
  }

  /** With storage working, `update_oplog` for a gap of at least one entry reports success
      exactly when one page covers the gap or the gap is a whole number of pages, and the
      follower then has the leader's log exactly when one page covered it. */
  lemma CatchUpExactly(m: Master, lead: seq<LogEntry>, n: nat, calls: nat)
    requires AllUploads(lead) && DistinctKeys(lead) && n < |lead| < ID_COUNT && Holds(m, lead[..n])
    requires n + MAX_GET_OPLOG_SIZE * calls < ID_COUNT
    ensures var gap := |lead| - n;
            var (m', ok) := CatchUp(m, ToId(n), ToId(n), ToId(|lead|), TableOf(lead), calls, []);
            && (ok <==> if gap <= MAX_GET_OPLOG_SIZE then calls >= 1
                        else gap % MAX_GET_OPLOG_SIZE == 0 && gap / MAX_GET_OPLOG_SIZE <= calls)
            && (ok ==> (Holds(m', lead) <==> gap <= MAX_GET_OPLOG_SIZE))
  {
    if |lead| - n <= MAX_GET_OPLOG_SIZE {
      var k := CatchUpOnePage(m, lead, n, calls, []);
      assert lead[..|lead|] == lead;
    } else {
      FurtherPages(m, lead, n, 0, calls);
      var (m', ok) := CatchUp(m, ToId(n), ToId(n), ToId(|lead|), TableOf(lead), calls, []);
      if ok {
        var pages := (|lead| - n) / MAX_GET_OPLOG_SIZE;
        RepeatedStartsOver(lead, n, pages);
        EntriesOfTableOf(Repeated(lead, n, pages));
        EntriesOfTableOf(lead);
      }
    }
  }

  lemma DifferentFiles(n: nat, f: FileInfo) returns (lead: seq<LogEntry>)
    ensures |lead| == n && AllUploads(lead) && DistinctKeys(lead)
  {
    lead := seq(n, i requires 0 <= i < n => LogEntry(UPLOAD_FILE, seq(i, _ => 'a'), f));
    forall i, j | 0 <= i < j < n ensures lead[i].key != lead[j].key {
      assert |lead[i].key| == i && |lead[j].key| == j;
    }
  }

  lemma TwoPages(m: Master, lead: seq<LogEntry>)
    requires |lead| == 200 && AllUploads(lead) && Holds(m, Repeated(lead, 0, 0))
    ensures var (m', ok) := CatchUp(m, ToId(0), ToId(0), ToId(200), TableOf(lead), 2, []);
            ok && Holds(m', Repeated(lead, 0, 2))
  {
    hide ToId, CatchUp, Holds, TableOf, Repeated, AllUploads;
    FurtherPages(m, lead, 0, 0, 2);
  }

  lemma RepeatedTwice(lead: seq<LogEntry>)
    requires |lead| == 200
    ensures Repeated(lead, 0, 0) == [] && Repeated(lead, 0, 2) == lead[..100] + lead[..100]
  {
    assert lead[..0] == [] && Repeated(lead, 0, 1) == lead[..100];
  }

  /** A follower with an empty store and a leader with two hundred different files: catch-up
      reports success after two pages, and the follower has the first hundred files twice. */
  lemma CatchUpRepeatsPage(m: Master, f: FileInfo) returns (lead: seq<LogEntry>)
    requires m.oplog == [] && m.userdata == map[]
    ensures |lead| == 200 && AllUploads(lead) && DistinctKeys(lead)
    ensures var (m', ok) := CatchUp(m, ToId(0), ToId(0), ToId(200), TableOf(lead), 2, []);
            ok && Holds(m', lead[..100] + lead[..100]) && !Holds(m', lead)
  {
    lead := DifferentFiles(200, f);
    assert Holds(m, []);
    hide ToId, CatchUp, Holds, TableOf, Repeated;
    RepeatedTwice(lead);
    TwoPages(m, lead);
    var (m', ok) := CatchUp(m, ToId(0), ToId(0), ToId(200), TableOf(lead), 2, []);
    var twice := lead[..100] + lead[..100];
    assert twice[100] == lead[0] && lead[0].key != lead[100].key;
    if Holds(m', lead) {
      HoldsUnique(m', lead, twice);
    }
  }

  // ---- A commit that meets old registers ----

  /** A master whose log is an initial part of the agreed log. */
  predicate Agrees(m: Master, agreed: seq<LogEntry>) {
    exists k :: 0 <= k <= |agreed| && Holds(m, agreed[..k])
  }

  lemma HoldsUnique(m: Master, a: seq<LogEntry>, b: seq<LogEntry>)
    requires Holds(m, a) && Holds(m, b)
    ensures a == b
  {
    EntriesOfTableOf(a);
    EntriesOfTableOf(b);
  }

  /** A commit of the in-flight entry e keeps a follower in agreement exactly when nothing is
      stored, because the registers do not match the id or one of the puts fails, or the
      follower is level with the leader and holds e. */
  lemma CommitExactly(m: Master, lead: seq<LogEntry>, n: nat, e: LogEntry, outcome: StoreOutcome)
    requires |lead| + 1 < ID_COUNT && n <= |lead| && AllUploads(lead + [e]) && Holds(m, lead[..n])
    ensures var id := ToId(|lead|);
            var matched := m.ready && m.opId == id && m.pending.opType == UPLOAD_FILE;
            Agrees(Commit(m, id, outcome).0, lead + [e]) <==> (matched && outcome == Stored ==> n == |lead| && m.pending == e)
  {
    var id, agreed := ToId(|lead|), lead + [e];
    var m' := Commit(m, id, outcome).0;
    assert agreed[..n] == lead[..n];
    if outcome == UserdataPutFails {
      DensePut(lead[..n], |lead|, m.pending);
    } else if outcome == Stored && m.ready && m.opId == id && m.pending.opType == UPLOAD_FILE {
      DensePut(lead[..n], |lead|, m.pending);
      if n < |lead| {
        ToIdOrder(n, |lead|);
        assert m'.oplog[n].id == id;
        assert forall k {:trigger agreed[..k]} :: 0 <= k <= |agreed| && |m'.oplog| == k ==> TableOf(agreed[..k])[n].id == ToId(n);
      } else {
        assert lead[..n] == lead && agreed[..|agreed|] == agreed;
        StoreAtEnd(m, lead, m.pending, Stored);
        if Agrees(m', agreed) {
          var k :| 0 <= k <= |agreed| && Holds(m', agreed[..k]);
          HoldsUnique(m', agreed[..k], lead + [m.pending]);
        }
      }
    }
  }
}
