/** One master as a value: its two stores, its prepare registers, and what each
    request does to them.

    Whether a call is answered and whether a put succeeds is chosen by the environment
    and appears as a parameter. */
module MasterState {
  import opened Ids
  import opened Oplog

  datatype Master = Master(
    oplog: Table,
    userdata: map<string, FileInfo>,
    ready: bool,
    opId: seq<byte>,
    pending: LogEntry
  )

  /** How the pair of puts of one entry goes. A removal always succeeds. */
  datatype StoreOutcome = Stored | OplogPutFails | UserdataPutFails

  function Head(outcomes: seq<StoreOutcome>): StoreOutcome {
    if outcomes == [] then Stored else outcomes[0]
  }

  function Tail(outcomes: seq<StoreOutcome>): seq<StoreOutcome> {
    if outcomes == [] then [] else outcomes[1..]
  }

  /** How the k-th pair of puts goes, when the environment chooses these outcomes. */
  function OutcomeOf(outcomes: seq<StoreOutcome>, k: nat): StoreOutcome {
    if k < |outcomes| then outcomes[k] else Stored
  }

  predicate StoredUpTo(outcomes: seq<StoreOutcome>, k: nat) {
    forall j: nat :: j < k ==> OutcomeOf(outcomes, j) == Stored
  }

  lemma StoredOneMore(outcomes: seq<StoreOutcome>, k: nat)
    requires Head(outcomes) == Stored && StoredUpTo(Tail(outcomes), k)
    ensures StoredUpTo(outcomes, k + 1) && OutcomeOf(outcomes, k + 1) == OutcomeOf(Tail(outcomes), k)
  {
    forall j: nat | j < k + 1 ensures OutcomeOf(outcomes, j) == Stored {
      assert j > 0 ==> OutcomeOf(outcomes, j) == OutcomeOf(Tail(outcomes), j - 1);
    }
  }

  /** Put in the oplog, put in the userdata, and undo the first when the second fails. */
  function StoreEntry(m: Master, id: Id, e: LogEntry, outcome: StoreOutcome): Master {
    match outcome
    case Stored => m.(oplog := Insert(m.oplog, id, e), userdata := m.userdata[e.key := e.data])
    case OplogPutFails => m
    case UserdataPutFails => m.(oplog := Delete(Insert(m.oplog, id, e), id))
  }

  // ---- Catch-up ----

  datatype PageResult = PageResult(m: Master, current: Id, ok: bool, outcomes: seq<StoreOutcome>)

  /** Store a page under consecutive ids from `current` on; stop at the first failure. */
  function ApplyPage(m: Master, current: Id, page: seq<LogEntry>, outcomes: seq<StoreOutcome>): PageResult
    decreases page
  {
    if page == [] then PageResult(m, current, true, outcomes)
    else if page[0].opType != UPLOAD_FILE then ApplyPage(m, current, page[1..], outcomes)
    else
      var m' := StoreEntry(m, current, page[0], Head(outcomes));
      if Head(outcomes) != Stored then PageResult(m', current, false, Tail(outcomes))
      else ApplyPage(m', Next(current), page[1..], Tail(outcomes))
  }

  /** `update_oplog`: every request asks for the same `lastId`; `calls` is how many of
      them the leader answers before a call fails. */
  function CatchUp(m: Master, current: Id, lastId: Id, target: Id, leader: Table, calls: nat,
                   outcomes: seq<StoreOutcome>): (Master, bool)
    decreases calls
  {
    if calls == 0 then (m, false)
    else
      var r := ApplyPage(m, current, PageAt(leader, lastId), outcomes);
      if !r.ok then (r.m, false)
      else if r.current == target then (r.m, true)
      else CatchUp(r.m, r.current, lastId, target, leader, calls - 1, r.outcomes)
  }

  // ---- The two phases on a follower ----

  function Prepare(m: Master, id: Id, e: LogEntry, leader: Table, calls: nat,
                   outcomes: seq<StoreOutcome>): (Master, bool)
  {
    var named := m.(opId := id);
    var lastId := NextId(m.oplog);
    var (m', ok) :=
      if lastId == id then (named, true)
      else CatchUp(named, lastId, lastId, id, leader, calls, outcomes);
    (if ok then m'.(ready := true, pending := e) else m', ok)
  }

  datatype CommitReply = NotReady | NoSuchId | NoSuchType | StoreReply(outcome: StoreOutcome)

  function Commit(m: Master, id: Id, outcome: StoreOutcome): (Master, CommitReply) {
    if !m.ready then (m, NotReady)
    else if id != m.opId then (m, NoSuchId)
    else if m.pending.opType != UPLOAD_FILE then (m, NoSuchType)
    else (StoreEntry(m, id, m.pending, outcome), StoreReply(outcome))
  }

  // ---- Consistency of one master ----

  /** The oplog is exactly this log under the ids 0, 1, 2, ..., and the userdata is its replay. */
  predicate Holds(m: Master, log: seq<LogEntry>) {
    && |log| < ID_COUNT
    && m.oplog == TableOf(log)
    && AllUploads(log)
    && m.userdata == Replay(log)
  }

  function LogOf(m: Master): seq<LogEntry> {
    Entries(m.oplog)
  }

  predicate Sound(m: Master) {
    Holds(m, LogOf(m))
  }

  lemma HoldsIsSound(m: Master, log: seq<LogEntry>)
    requires Holds(m, log)
    ensures LogOf(m) == log && Sound(m)
  {
    EntriesOfTableOf(log);
  }

  /** The registers that a successful prepare of (id, e) leaves. */
  predicate Armed(m: Master, id: Id, e: LogEntry) {
    m.ready && m.opId == id && m.pending == e
  }

  predicate SameRegisters(m: Master, m': Master) {
    m'.ready == m.ready && m'.opId == m.opId && m'.pending == m.pending
  }

  function AfterStore(log: seq<LogEntry>, e: LogEntry, outcome: StoreOutcome): seq<LogEntry> {
    if outcome == Stored then log + [e] else log
  }

  /** Storing the next entry extends log and replay together; a failed put, undone by the
      compensating removal, changes nothing. */
  lemma StoreAtEnd(m: Master, log: seq<LogEntry>, e: LogEntry, outcome: StoreOutcome)
    requires Holds(m, log) && |log| + 1 < ID_COUNT && e.opType == UPLOAD_FILE
    ensures Holds(StoreEntry(m, ToId(|log|), e, outcome), AfterStore(log, e, outcome))
    ensures SameRegisters(m, StoreEntry(m, ToId(|log|), e, outcome))
    ensures outcome != Stored ==> StoreEntry(m, ToId(|log|), e, outcome) == m
  {
    DenseAppend(log, e);
    ReplayAppend(log, e);
  }

  /** Storing the entries n .. hi of a log after its first n entries reaches its first k
      entries: all of them, or those before the first one whose puts fail. */
  lemma {:induction false} PageAfterLog(m: Master, all: seq<LogEntry>, n: nat, hi: nat, outcomes: seq<StoreOutcome>)
    returns (k: nat)
    requires n <= hi <= |all| < ID_COUNT && AllUploads(all) && Holds(m, all[..n])
    ensures n <= k <= hi
    ensures var r := ApplyPage(m, ToId(n), all[n..hi], outcomes);
            && Holds(r.m, all[..k])
            && SameRegisters(m, r.m)
            && r.current == ToId(k)
            && (r.ok <==> k == hi)
            && (outcomes == [] ==> r.outcomes == [])
    ensures StoredUpTo(outcomes, k - n)
    ensures k < hi ==> OutcomeOf(outcomes, k - n) != Stored
    decreases hi - n
  {
    hide ToId, Holds, StoreEntry, Next, StoredUpTo;
    k := n;
    if n < hi {
      var m' := StoreEntry(m, ToId(n), all[n], Head(outcomes));
      PageStep(m, ToId(n), all, n, hi, outcomes);
      StoreNext(m, all, n, Head(outcomes));
      hide ApplyPage;
      if Head(outcomes) == Stored {
        NextOfToId(n);
        k := PageAfterLog(m', all, n + 1, hi, Tail(outcomes));
        StoredOneMore(outcomes, k - n - 1);
      } else {
        NoneStored(outcomes);
      }
    } else {
      NoneStored(outcomes);
    }
  }

  lemma PageStep(m: Master, current: Id, all: seq<LogEntry>, n: nat, hi: nat, outcomes: seq<StoreOutcome>)
    requires n < hi <= |all| && all[n].opType == UPLOAD_FILE
    ensures ApplyPage(m, current, all[n..hi], outcomes) ==
            var m' := StoreEntry(m, current, all[n], Head(outcomes));
            if Head(outcomes) != Stored then PageResult(m', current, false, Tail(outcomes))
            else ApplyPage(m', Next(current), all[n + 1..hi], Tail(outcomes))
  {
    hide StoreEntry, Next;
    var page := all[n..hi];
    assert page[0] == all[n] && page[1..] == all[n + 1..hi];
  }

  lemma StoreNext(m: Master, all: seq<LogEntry>, n: nat, outcome: StoreOutcome)
    requires n < |all| < ID_COUNT && AllUploads(all) && Holds(m, all[..n])
    ensures var m' := StoreEntry(m, ToId(n), all[n], outcome);
            SameRegisters(m, m') && if outcome == Stored then Holds(m', all[..n + 1]) else m' == m
  {
    hide ToId, Holds, StoreEntry;
    StoreAtEnd(m, all[..n], all[n], outcome);
    assert all[..n] + [all[n]] == all[..n + 1];
  }

  lemma NoneStored(outcomes: seq<StoreOutcome>)
    ensures StoredUpTo(outcomes, 0) && OutcomeOf(outcomes, 0) == Head(outcomes)
  {
  }

  /** Entries of other types neither count nor take an id. */
  lemma {:induction false} OtherTypesSkipped(m: Master, current: Id, page: seq<LogEntry>, outcomes: seq<StoreOutcome>)
    ensures ApplyPage(m, current, page, outcomes) == ApplyPage(m, current, UploadsOf(page), outcomes)
    decreases page
  {
    if page != [] {
      hide StoreEntry, Next;
      if page[0].opType == UPLOAD_FILE {
        assert UploadsOf(page)[1..] == UploadsOf(page[1..]);
        OtherTypesSkipped(StoreEntry(m, current, page[0], Head(outcomes)), Next(current), page[1..], Tail(outcomes));
      } else {
        OtherTypesSkipped(m, current, page[1..], outcomes);
        assert UploadsOf(page) == UploadsOf(page[1..]);
      }
    }
  }

  /** Catch-up within one page: the follower ends with the first k entries of the leader's log,
      its own among them, up to the first one whose puts fail; it succeeds exactly when that is
      all of them, and does so when nothing fails. */
  lemma CatchUpOnePage(m: Master, lead: seq<LogEntry>, n: nat, calls: nat, outcomes: seq<StoreOutcome>)
    returns (k: nat)
    requires n < |lead| < ID_COUNT && AllUploads(lead) && Holds(m, lead[..n])
    requires |lead| - n <= MAX_GET_OPLOG_SIZE || calls <= 1
    ensures n <= k <= |lead|
    ensures var (m', ok) := CatchUp(m, ToId(n), ToId(n), ToId(|lead|), TableOf(lead), calls, outcomes);
            && Holds(m', lead[..k])
            && SameRegisters(m, m')
            && (ok <==> k == |lead|)
    ensures calls > 0 && |lead| - n <= MAX_GET_OPLOG_SIZE && k < |lead| ==> OutcomeOf(outcomes, k - n) != Stored
    ensures StoredUpTo(outcomes, k - n)
  {
    hide ToId, Holds, PageAt, TableOf, ApplyPage, OutcomeOf;
    k := n;
    if calls > 0 {
      var hi := Min(n + MAX_GET_OPLOG_SIZE, |lead|);
      DensePage(lead, n);
      k := PageAfterLog(m, lead, n, hi, outcomes);
      ToIdOrder(k, |lead|);
      var r := ApplyPage(m, ToId(n), lead[n..hi], outcomes);
      if r.ok && r.current != ToId(|lead|) {
        assert CatchUp(r.m, r.current, ToId(n), ToId(|lead|), TableOf(lead), 0, r.outcomes) == (r.m, false);
      }
    }
  }

  // ---- What prepare and commit do to a follower that is behind the leader ----

  /** A prepare that finds the follower at most a page behind leaves it a sound initial part
      of the leader's log. It is answered "ok" exactly when that is all of it, which it is when
      the follower was level or nothing failed; then the registers hold the entry. Otherwise
      only the id is taken over. */
  lemma PrepareKeeps(m: Master, lead: seq<LogEntry>, n: nat, e: LogEntry, calls: nat, outcomes: seq<StoreOutcome>)
    returns (k: nat)
    requires n <= |lead| < ID_COUNT && AllUploads(lead) && Holds(m, lead[..n])
    requires |lead| - n <= MAX_GET_OPLOG_SIZE || calls <= 1
    ensures n <= k <= |lead|
    ensures var (m', ok) := Prepare(m, ToId(|lead|), e, TableOf(lead), calls, outcomes);
            && Holds(m', lead[..k])
            && (ok <==> k == |lead|)
            && (ok ==> Armed(m', ToId(|lead|), e))
            && (!ok ==> m'.opId == ToId(|lead|) && m'.ready == m.ready && m'.pending == m.pending)
            && (n == |lead| ==> ok)
            && (NothingFails(|lead| - n, calls, outcomes) ==> ok)
  {
    k := n;
    DenseNextId(lead[..n]);
    ToIdOrder(n, |lead|);
    if n < |lead| {
      k := CatchUpOnePage(m.(opId := ToId(|lead|)), lead, n, calls, outcomes);
    }
  }

  /** A catch-up over this gap gets its one page and stores all of it. */
  predicate NothingFails(gap: nat, calls: nat, outcomes: seq<StoreOutcome>) {
    gap <= MAX_GET_OPLOG_SIZE && calls > 0 && StoredUpTo(outcomes, gap)
  }

  lemma {:induction false} CatchUpRegisters(m: Master, current: Id, lastId: Id, target: Id, leader: Table, calls: nat,
                                             outcomes: seq<StoreOutcome>)
    ensures SameRegisters(m, CatchUp(m, current, lastId, target, leader, calls, outcomes).0)
    decreases calls
  {
    if calls > 0 {
      var page := PageAt(leader, lastId);
      PageRegisters(m, current, page, outcomes);
      var r := ApplyPage(m, current, page, outcomes);
      hide ApplyPage;
      CatchUpRegisters(r.m, r.current, lastId, target, leader, calls - 1, r.outcomes);
    }
  }

  lemma {:induction false} PageRegisters(m: Master, current: Id, page: seq<LogEntry>, outcomes: seq<StoreOutcome>)
    ensures SameRegisters(m, ApplyPage(m, current, page, outcomes).m)
    decreases page
  {
    if page != [] {
      PageRegisters(m, current, page[1..], outcomes);
      PageRegisters(StoreEntry(m, current, page[0], Head(outcomes)), Next(current), page[1..], Tail(outcomes));
    }
  }

  /** Whatever a prepare finds and whatever fails: it takes over the id, and the rest of the
      registers exactly when it is answered "ok". */
  lemma PrepareRegisters(m: Master, id: Id, e: LogEntry, leader: Table, calls: nat, outcomes: seq<StoreOutcome>)
    ensures var (m', ok) := Prepare(m, id, e, leader, calls, outcomes);
            m'.opId == id && (m'.ready, m'.pending) == if ok then (true, e) else (m.ready, m.pending)
  {
    var lastId := NextId(m.oplog);
    CatchUpRegisters(m.(opId := id), lastId, lastId, id, leader, calls, outcomes);
    hide CatchUp, NextId;
  }

  /** A follower that has an initial part of the leader's log. */
  predicate Behind(m: Master, lead: seq<LogEntry>) {
    |m.oplog| <= |lead| < ID_COUNT && AllUploads(lead) && Holds(m, lead[..|m.oplog|])
  }

  /** A prepare of the leader's next id by a follower that is level, or catches up without a
      failure, is answered "ok" and leaves it a full copy with the registers set. */
  lemma PrepareSucceeds(m: Master, leader: Table, id: Id, e: LogEntry, calls: nat, outcomes: seq<StoreOutcome>)
    requires leader == TableOf(Entries(leader)) && Behind(m, Entries(leader)) && id == ToId(|leader|)
    requires |m.oplog| == |leader| || NothingFails(|leader| - |m.oplog|, calls, outcomes)
    ensures var (m', ok) := Prepare(m, id, e, leader, calls, outcomes);
            ok && Armed(m', id, e) && Holds(m', Entries(leader))
  {
    var lead := Entries(leader);
    var n := |m.oplog|;
    if n == |lead| {
      var k := PrepareKeeps(m, lead, n, e, 0, outcomes);
      assert Prepare(m, id, e, leader, calls, outcomes) == Prepare(m, id, e, leader, 0, outcomes) by {
        assert lead[..n] == lead;
        DenseNextId(lead);
      }
    } else {
      var k := PrepareKeeps(m, lead, n, e, calls, outcomes);
    }
    assert lead[..|lead|] == lead;
  }

  /** After a successful prepare the commit appends exactly the prepared entry, or fails
      and changes nothing. The registers stay as they are. */
  lemma CommitAfterPrepare(m: Master, log: seq<LogEntry>, e: LogEntry, outcome: StoreOutcome)
    requires Holds(m, log) && |log| + 1 < ID_COUNT && e.opType == UPLOAD_FILE
    requires Armed(m, ToId(|log|), e)
    ensures var (m', reply) := Commit(m, ToId(|log|), outcome);
            reply == StoreReply(outcome) && Holds(m', AfterStore(log, e, outcome)) && SameRegisters(m, m')
  {
    StoreAtEnd(m, log, e, outcome);
  }

  /** Whatever the registers hold, a sound master's commit of its next id stores the pending
      entry exactly when it is answered with success; any other answer changes nothing. */
  lemma CommitAnswers(m: Master, log: seq<LogEntry>, id: Id, outcome: StoreOutcome)
    requires Holds(m, log) && |log| + 1 < ID_COUNT && id == ToId(|log|)
    ensures var (m', reply) := Commit(m, id, outcome);
            && SameRegisters(m, m')
            && (reply == StoreReply(Stored) <==> Armed(m, id, m.pending) && m.pending.opType == UPLOAD_FILE && outcome == Stored)
            && (if reply == StoreReply(Stored) then Holds(m', log + [m.pending]) else m' == m)
  {
    if m.pending.opType == UPLOAD_FILE {
      StoreAtEnd(m, log, m.pending, outcome);
    }
  }
}
