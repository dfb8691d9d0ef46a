/** A slavenode that tails the oplog of randomly chosen masters into its key/value store. */
module Slavenode {
  import opened Ids
  import opened Oplog

  datatype Slave = Slave(currentId: Id, store: map<string, FileInfo>)

  /** How one SET goes: done, refused with an error reply, or no reply comes back at all,
      because the command never arrived or because only its reply was lost. Only the error
      reply is taken for a failure. */
  datatype SetOutcome = SetDone | SetError | SetNotDelivered | SetReplyLost

  predicate Executed(outcome: SetOutcome) {
    outcome.SetDone? || outcome.SetReplyLost?
  }

  /** The entry after a SET that did not get an error reply. */
  function Passing(s: Slave, e: LogEntry, outcome: SetOutcome): Slave {
    Slave(Next(s.currentId), if Executed(outcome) then s.store[e.key := e.data] else s.store)
  }

  function OutcomeAt(outcomes: seq<SetOutcome>, i: nat): SetOutcome {
    if i < |outcomes| then outcomes[i] else SetDone
  }

  /** The loop over one page, from entry i on. */
  function ApplyFrom(s: Slave, page: seq<LogEntry>, i: nat, outcomes: seq<SetOutcome>): Slave
    requires i <= |page|
    decreases |page| - i
  {
    if i == |page| then s
    else if page[i].opType != UPLOAD_FILE then ApplyFrom(s, page, i + 1, outcomes)
    else if OutcomeAt(outcomes, i) == SetError then s
    else ApplyFrom(Passing(s, page[i], OutcomeAt(outcomes, i)), page, i + 1, outcomes)
  }

  /** One round: ask a master for the entries from `currentId` on; an unanswered call
      leaves everything for the next round. */
  function Pull(s: Slave, master: Table, answered: bool, outcomes: seq<SetOutcome>): Slave {
    if !answered then s else ApplyFrom(s, PageAt(master, s.currentId), 0, outcomes)
  }

  /** The slavenode has applied exactly the first n entries. */
  predicate AtPosition(s: Slave, agreed: seq<LogEntry>, n: nat) {
    && n <= |agreed| < ID_COUNT
    && s.currentId == ToId(n)
    && s.store == Replay(agreed[..n])
  }

  /** Every SET either is executed, whether or not its reply arrives, or gets an error reply. */
  predicate AllDelivered(outcomes: seq<SetOutcome>) {
    forall i :: 0 <= i < |outcomes| ==> outcomes[i] != SetNotDelivered
  }

  /** The number of entries a page's outcomes let through. */
  function Passed(outcomes: seq<SetOutcome>, i: nat, count: nat): (k: nat)
    requires i <= count
    ensures i <= k <= count
    ensures forall j :: i <= j < k ==> OutcomeAt(outcomes, j) != SetError
    ensures k < count ==> OutcomeAt(outcomes, k) == SetError
    decreases count - i
  {
    if i == count || OutcomeAt(outcomes, i) == SetError then i else Passed(outcomes, i + 1, count)
  }

  /** Applying entries i .. of a page that starts at position `start` of the agreed log. */
  lemma {:induction false} ApplyFromReplays(s: Slave, agreed: seq<LogEntry>, start: nat, hi: nat, i: nat, outcomes: seq<SetOutcome>)
    requires start <= hi <= |agreed| && start + i <= hi && AllUploads(agreed)
    requires AtPosition(s, agreed, start + i)
    requires forall j :: i <= j < Passed(outcomes, i, hi - start) ==> Executed(OutcomeAt(outcomes, j))
    ensures AtPosition(ApplyFrom(s, agreed[start..hi], i, outcomes), agreed, start + Passed(outcomes, i, hi - start))
    decreases hi - start - i
  {
    var page, n := agreed[start..hi], start + i;
    if n < hi && OutcomeAt(outcomes, i) != SetError {
      assert agreed[..n + 1] == agreed[..n] + [agreed[n]];
      ReplayAppend(agreed[..n], agreed[n]);
      NextOfToId(n);
      ApplyFromReplays(Passing(s, page[i], OutcomeAt(outcomes, i)), agreed, start, hi, i + 1, outcomes);
    }
  }

  /** Which entries one round brings in from a master that holds the first `have` entries. */
  function Reached(n: nat, have: nat, answered: bool, outcomes: seq<SetOutcome>): (n': nat)
    ensures n <= n' && (n <= have ==> n' <= have)
  {
    if !answered || have <= n then n
    else n + Passed(outcomes, 0, Min(MAX_GET_OPLOG_SIZE, have - n))
  }

  /** The page a master answers with, as a stretch of the agreed log. */
  lemma PageOfAgreed(agreed: seq<LogEntry>, n: nat, have: nat)
    requires n < have <= |agreed| < ID_COUNT
    ensures PageAt(TableOf(agreed[..have]), ToId(n)) == agreed[n..Min(n + MAX_GET_OPLOG_SIZE, have)]
  {
    hide ToId, PageAt, TableOf;
    DensePage(agreed[..have], n);
    var hi := Min(n + MAX_GET_OPLOG_SIZE, have);
    assert agreed[..have][n..hi] == agreed[n..hi];
  }

  /** One round against any master whose log is an initial part of the agreed log keeps the
      store the exact replay up to the position, which never goes back, whichever SET fails. */
  lemma PullReplays(s: Slave, master: Table, agreed: seq<LogEntry>, n: nat, have: nat, answered: bool, outcomes: seq<SetOutcome>)
    requires AllUploads(agreed) && have <= |agreed| && master == TableOf(agreed[..have])
    requires AtPosition(s, agreed, n) && AllDelivered(outcomes)
    ensures AtPosition(Pull(s, master, answered, outcomes), agreed, Reached(n, have, answered, outcomes))
    ensures n <= Reached(n, have, answered, outcomes)
  {
    hide ToId, PageAt, TableOf, Replay, Passed;
    if answered && n < have {
      var hi := Min(n + MAX_GET_OPLOG_SIZE, have);
      PageOfAgreed(agreed, n, have);
      ApplyFromReplays(s, agreed, n, hi, 0, outcomes);
    } else if answered {
      DensePage(agreed[..have], n);
    }
  }

  /** Entries of other types are passed over without moving the position. */
  lemma {:induction false} OtherTypesSkipped(s: Slave, page: seq<LogEntry>, i: nat)
    requires i <= |page|
    ensures ApplyFrom(s, page, i, []) == ApplyFrom(s, UploadsOf(page[i..]), 0, [])
    decreases |page| - i
  {
    if i < |page| {
      assert page[i..][1..] == page[i + 1..];
      hide Passing;
      var uploads := UploadsOf(page[i + 1..]);
      if page[i].opType == UPLOAD_FILE {
        var s' := Passing(s, page[i], SetDone);
        OtherTypesSkipped(s', page, i + 1);
        StartLater(s', [page[i]] + uploads, 0, uploads);
      } else {
        OtherTypesSkipped(s, page, i + 1);
        assert UploadsOf(page[i..]) == uploads;
      }
    }
  }

  lemma {:induction false} StartLater(s: Slave, page: seq<LogEntry>, i: nat, rest: seq<LogEntry>)
    requires i <= |rest| && |page| == |rest| + 1 && page[1..] == rest
    ensures ApplyFrom(s, page, i + 1, []) == ApplyFrom(s, rest, i, [])
    decreases |rest| - i
  {
    if i < |rest| {
      assert page[i + 1] == rest[i];
      hide Passing;
      StartLater(if rest[i].opType == UPLOAD_FILE then Passing(s, rest[i], SetDone) else s, page, i + 1, rest);
    }
  }

  // ---- The SET that is never executed ----

  lemma {:induction false} ApplyFromKeys(s: Slave, page: seq<LogEntry>, i: nat, outcomes: seq<SetOutcome>, key: string)
    requires i <= |page| && key in ApplyFrom(s, page, i, outcomes).store
    ensures key in s.store || exists j :: i <= j < |page| && page[j].key == key && Executed(OutcomeAt(outcomes, j))
    decreases |page| - i
  {
    if i < |page| {
      if page[i].opType != UPLOAD_FILE {
        ApplyFromKeys(s, page, i + 1, outcomes, key);
      } else if OutcomeAt(outcomes, i) != SetError {
        ApplyFromKeys(Passing(s, page[i], OutcomeAt(outcomes, i)), page, i + 1, outcomes, key);
      }
    }
  }

  /** An entry whose SET was not executed is missing from the store after the round. */
  lemma LostForGood(s: Slave, agreed: seq<LogEntry>, n: nat, hi: nat, j: nat, outcomes: seq<SetOutcome>)
    requires n + j < hi <= |agreed| && AllUploads(agreed) && DistinctKeys(agreed) && AtPosition(s, agreed, n)
    requires !Executed(OutcomeAt(outcomes, j))
    ensures agreed[n + j].key !in ApplyFrom(s, agreed[n..hi], 0, outcomes).store
  {
    hide ToId, ApplyFrom;
    var key, page := agreed[n + j].key, agreed[n..hi];
    if key in ApplyFrom(s, page, 0, outcomes).store {
      ApplyFromKeys(s, page, 0, outcomes, key);
      ReplayKeys(agreed[..n]);
    }
  }

  /** A SET without a reply is counted as done, so an answered round of a log without
      repeated keys stays an exact replay exactly when every SET it passes was executed, with
      or without a reply. */
  lemma PullExactly(s: Slave, agreed: seq<LogEntry>, n: nat, have: nat, outcomes: seq<SetOutcome>)
    requires AllUploads(agreed) && DistinctKeys(agreed) && n < have <= |agreed| && AtPosition(s, agreed, n)
    ensures var passed := Passed(outcomes, 0, Min(MAX_GET_OPLOG_SIZE, have - n));
            AtPosition(Pull(s, TableOf(agreed[..have]), true, outcomes), agreed, n + passed)
            <==> forall j :: 0 <= j < passed ==> Executed(OutcomeAt(outcomes, j))
  {
    hide ToId, PageAt, TableOf, Replay, ApplyFrom, Passed;
    var hi := Min(n + MAX_GET_OPLOG_SIZE, have);
    var passed := Passed(outcomes, 0, hi - n);
    PageOfAgreed(agreed, n, have);
    if forall j :: 0 <= j < passed ==> Executed(OutcomeAt(outcomes, j)) {
      ApplyFromReplays(s, agreed, n, hi, 0, outcomes);
    } else {
      var j :| 0 <= j < passed && !Executed(OutcomeAt(outcomes, j));
      LostForGood(s, agreed, n, hi, j, outcomes);
      ReplayKeys(agreed[..n + passed]);
      assert agreed[..n + passed][n + j] == agreed[n + j];
    }
  }

  lemma SkipsOnlyEntry(e: LogEntry)
    requires e.opType == UPLOAD_FILE
    ensures ApplyFrom(Slave(ToId(0), map[]), [e], 0, [SetNotDelivered]) == Slave(ToId(1), map[])
  {
    hide ToId, Next;
    NextOfToId(0);
    var s, s' := Slave(ToId(0), map[]), Slave(ToId(1), map[]);
    assert Passing(s, e, SetNotDelivered) == s';
    assert ApplyFrom(s', [e], 1, [SetNotDelivered]) == s';
  }

  lemma OnlyPage(e: LogEntry)
    ensures PageAt(TableOf([e]), ToId(0)) == [e] && PageAt(TableOf([e]), ToId(1)) == []
  {
    DensePage([e], 0);
    DensePage([e], 1);
    assert [e][0..1] == [e];
  }

  /** A fresh slavenode whose connection breaks before its first SET moves past the only entry
      of the log with an empty store, and no further round ever brings the entry in. */
  lemma BrokenConnection(e: LogEntry, answered: bool, outcomes: seq<SetOutcome>)
    requires e.opType == UPLOAD_FILE
    ensures var s := Pull(Slave(ToId(0), map[]), TableOf([e]), true, [SetNotDelivered]);
            && s == Slave(ToId(1), map[])
            && (forall n :: !AtPosition(s, [e], n))
            && Pull(s, TableOf([e]), answered, outcomes) == s
  {
    OnlyPage(e);
    SkipsOnlyEntry(e);
    hide PageAt, TableOf, ToId, AtPosition;
    forall n ensures !AtPosition(Slave(ToId(1), map[]), [e], n) {
      NothingAtOne(Slave(ToId(1), map[]), e, n);
    }
  }

  lemma NothingAtOne(s: Slave, e: LogEntry, n: nat)
    requires e.opType == UPLOAD_FILE && s == Slave(ToId(1), map[])
    ensures !AtPosition(s, [e], n)
  {
    ToIdOrder(0, 1);
    ReplayAppend([], e);
    assert [] + [e] == [e] && [e][..1] == [e];
    assert e.key in Replay([e]);
  }

  // ---- Closing the gap ----

  /** k answered rounds without failures against one master. */
  function Rounds(s: Slave, master: Table, k: nat): Slave {
    if k == 0 then s else Pull(Rounds(s, master, k - 1), master, true, [])
  }

  /** ceil(gap / 100) such rounds reach the end of the master's log. */
  lemma {:induction false} RoundsCloseGap(s: Slave, log: seq<LogEntry>, n: nat, k: nat)
    requires AllUploads(log) && AtPosition(s, log, n)
    ensures AtPosition(Rounds(s, TableOf(log), k), log, Min(|log|, n + MAX_GET_OPLOG_SIZE * k))
    ensures k == (|log| - n + MAX_GET_OPLOG_SIZE - 1) / MAX_GET_OPLOG_SIZE ==> AtPosition(Rounds(s, TableOf(log), k), log, |log|)
  {
    hide ToId, Pull, TableOf;
    if k > 0 {
      var at := Min(|log|, n + MAX_GET_OPLOG_SIZE * (k - 1));
      RoundsCloseGap(s, log, n, k - 1);
      assert log[..|log|] == log;
      PullReplays(Rounds(s, TableOf(log), k - 1), TableOf(log), log, at, |log|, true, []);
    }
  }
}
