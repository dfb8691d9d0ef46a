/** The masters and slavenodes as one state machine, and what every run of it keeps.

    The upload handler runs on one thread, so one upload is in flight at a time; between any
    two of its calls slavenodes may pull from any master. A catch-up is one step: what a
    slavenode could see in the middle of one is what an interrupted one leaves behind. */
module Replication {
  import opened Ids
  import opened Oplog
  import opened MasterState
  import opened Slavenode
  import opened Sets

  datatype Phase = Idle | Preparing | Committing | Storing

  /** The upload in flight, and which followers' prepare succeeded, whose "ok" arrived and
      who stored the entry while the leader has not. */
  datatype Upload = Upload(
    phase: Phase,
    next: nat,
    id: Id,
    entry: LogEntry,
    tpCnt: nat,
    prepared: set<nat>,
    acked: set<nat>,
    committed: set<nat>
  )

  datatype UploadReply = NoReply | Existed | Rejected | PutFailed | UploadOk

  /** Master i of the cluster has the kbid i + 1. */
  datatype Cluster = Cluster(
    masters: seq<Master>,
    leader: nat,
    upload: Upload,
    reply: UploadReply,
    slaves: seq<Slave>
  )

  datatype Event =
    | Begin(key: string, data: FileInfo)
    | PrepareNext(delivered: bool, answered: bool, calls: nat, outcomes: seq<StoreOutcome>)
    | Decide
    | CommitNext(delivered: bool, outcome: StoreOutcome)
    | LeaderStore(outcome: StoreOutcome)
    | PullAt(slave: nat, master: nat, answered: bool, sets: seq<SetOutcome>)

  predicate WellFormed(s: Cluster) {
    s.leader < |s.masters|
  }

  /** One step; an event that is not enabled leaves the cluster as it is. */
  function Apply(s: Cluster, ev: Event): (s': Cluster)
    requires WellFormed(s)
    ensures WellFormed(s') && s'.leader == s.leader && |s'.masters| == |s.masters| && |s'.slaves| == |s.slaves|
  {
    var u := s.upload;
    match ev
    case Begin(key, data) =>
      if u.phase != Idle then s
      else if key in s.masters[s.leader].userdata then s.(reply := Existed)
      else
        var id, entry := NextId(s.masters[s.leader].oplog), LogEntry(UPLOAD_FILE, key, data);
        s.(upload := Upload(Preparing, 0, id, entry, 1, {}, {}, {}), reply := NoReply)
    case PrepareNext(delivered, answered, calls, outcomes) =>
      if u.phase != Preparing || u.next >= |s.masters| then s
      else if u.next == s.leader || !delivered then s.(upload := u.(next := u.next + 1))
      else
        var (m, ok) := Prepare(s.masters[u.next], u.id, u.entry, s.masters[s.leader].oplog, calls, outcomes);
        s.(masters := s.masters[u.next := m],
           upload := u.(next := u.next + 1,
                        tpCnt := if ok && answered then u.tpCnt + 1 else u.tpCnt,
                        prepared := if ok then u.prepared + {u.next} else u.prepared,
                        acked := if ok && answered then u.acked + {u.next} else u.acked))
    case Decide =>
      if u.phase != Preparing || u.next < |s.masters| then s
      else if u.tpCnt <= |s.masters| / 2 then s.(upload := u.(phase := Idle), reply := Rejected)
      else s.(upload := u.(phase := Committing, next := 0))
    case CommitNext(delivered, outcome) =>
      if u.phase != Committing then s
      else if u.next >= |s.masters| then s.(upload := u.(phase := Storing))
      else if u.next == s.leader || !delivered then s.(upload := u.(next := u.next + 1))
      else
        var (m, reply) := Commit(s.masters[u.next], u.id, outcome);
        s.(masters := s.masters[u.next := m],
           upload := u.(next := u.next + 1,
                        committed := if reply == StoreReply(Stored) then u.committed + {u.next} else u.committed))
    case LeaderStore(outcome) =>
      if u.phase != Storing then s
      else
        var m := StoreEntry(s.masters[s.leader], u.id, u.entry, outcome);
        s.(masters := s.masters[s.leader := m],
           upload := u.(phase := Idle, committed := {}),
           reply := if outcome == Stored then UploadOk else PutFailed)
    case PullAt(slave, master, answered, sets) =>
      if slave >= |s.slaves| || master >= |s.masters| then s
      else s.(slaves := s.slaves[slave := Pull(s.slaves[slave], s.masters[master].oplog, answered, sets)])
  }

  /** The state after a sequence of events. */
  function Run(s: Cluster, events: seq<Event>): (s': Cluster)
    requires WellFormed(s)
    ensures WellFormed(s') && s'.leader == s.leader && |s'.masters| == |s.masters| && |s'.slaves| == |s.slaves|
    decreases events
  {
    if events == [] then s else Run(Apply(s, events[0]), events[1..])
  }

  /** What the claims need of the environment: a delivered prepare reaches a follower at most
      a page behind (or its catch-up gets at most one page), a delivered commit follows a
      successful prepare of the same upload, the leader's own put does not fail once a
      follower has stored, and no SET is lost on its way to the store (its reply may be).
      Every other loss and every other storage failure is allowed. */
  predicate Legal(s: Cluster, ev: Event)
    requires WellFormed(s)
  {
    var u := s.upload;
    match ev
    case Begin(_, _) => |s.masters[s.leader].oplog| + 1 < ID_COUNT
    case PrepareNext(delivered, _, calls, _) =>
      delivered && u.phase == Preparing && u.next < |s.masters| ==>
        calls <= 1 || |s.masters[s.leader].oplog| - |s.masters[u.next].oplog| <= MAX_GET_OPLOG_SIZE
    case Decide => true
    case CommitNext(delivered, _) =>
      delivered && u.phase == Committing && u.next < |s.masters| && u.next != s.leader ==> u.next in u.prepared
    case LeaderStore(outcome) => u.phase == Storing ==> outcome == Stored || u.committed == {}
    case PullAt(_, _, _, sets) => AllDelivered(sets)
  }

  predicate LegalRun(s: Cluster, events: seq<Event>)
    requires WellFormed(s)
    decreases events
  {
    events == [] || (Legal(s, events[0]) && LegalRun(Apply(s, events[0]), events[1..]))
  }

  /** Every store empty, no upload in flight. */
  predicate Init(s: Cluster) {
    && WellFormed(s)
    && s.upload.phase == Idle && s.upload.committed == {}
    && s.reply == NoReply
    && (forall i :: 0 <= i < |s.masters| ==> s.masters[i].oplog == [] && s.masters[i].userdata == map[] && !s.masters[i].ready)
    && (forall i :: 0 <= i < |s.slaves| ==> s.slaves[i] == Slave(ToId(0), map[]))
  }

  // ---- The invariant ----

  function LeaderLog(s: Cluster): seq<LogEntry>
    requires WellFormed(s)
  {
    LogOf(s.masters[s.leader])
  }

  /** The log everyone agrees on: the leader's, plus the entry in flight once a follower
      holds it. */
  function Agreed(s: Cluster): (log: seq<LogEntry>)
    requires WellFormed(s)
    ensures LeaderLog(s) <= log
  {
    if s.upload.committed == {} then LeaderLog(s) else LeaderLog(s) + [s.upload.entry]
  }

  /** Master i holds the first n entries of the log. */
  predicate Prefix(m: Master, log: seq<LogEntry>, n: nat) {
    n <= |log| && Holds(m, log[..n])
  }

  /** A follower with the leader's log and the registers of the upload in flight. */
  predicate IsCopy(s: Cluster, i: nat, lead: seq<LogEntry>) {
    && i < |s.masters| && i != s.leader
    && Holds(s.masters[i], lead) && Armed(s.masters[i], s.upload.id, s.upload.entry)
  }

  /** The upload in flight: its id is the leader's next one, its key is new, each follower
      whose prepare succeeded is a copy of the leader until its commit, and past the vote
      the "ok"s and the leader are a majority. */
  predicate UploadInv(s: Cluster, lead: seq<LogEntry>)
    requires WellFormed(s)
  {
    var u := s.upload;
    if u.phase == Idle then u.committed == {}
    else
      && |lead| + 1 < ID_COUNT
      && u.id == ToId(|lead|)
      && u.entry.opType == UPLOAD_FILE
      && u.entry.key !in Replay(lead)
      && s.leader !in u.acked
      && u.tpCnt == 1 + |u.acked|
      && u.acked <= u.prepared
      && u.next <= |s.masters|
      && (forall i :: i in u.committed ==> i < u.next && i != s.leader)
      && (u.phase == Preparing ==> u.committed == {} && forall i :: i in u.prepared ==> i < u.next && IsCopy(s, i, lead))
      && (u.phase == Committing ==> forall i :: i in u.prepared && u.next <= i ==> IsCopy(s, i, lead))
      && (u.phase != Preparing ==> |s.masters| / 2 < u.tpCnt)
  }

  /** Every master is an initial part of the leader's log, except that a follower that stored
      the entry in flight has one more. */
  predicate MastersInv(s: Cluster, lead: seq<LogEntry>)
    requires WellFormed(s)
  {
    && AllUploads(lead) && DistinctKeys(lead)
    && Holds(s.masters[s.leader], lead)
    && (forall i {:trigger s.masters[i]} :: 0 <= i < |s.masters| ==>
          if i in s.upload.committed then Holds(s.masters[i], lead + [s.upload.entry])
          else Prefix(s.masters[i], lead, |s.masters[i].oplog|))
  }

  /** The slavenode's store is the in-order replay of the log up to its position. */
  ghost predicate ExactReplay(slave: Slave, agreed: seq<LogEntry>) {
    exists n :: AtPosition(slave, agreed, n)
  }

  ghost predicate SlavesInv(s: Cluster)
    requires WellFormed(s)
  {
    forall j :: 0 <= j < |s.slaves| ==> ExactReplay(s.slaves[j], Agreed(s))
  }

  ghost predicate Inv(s: Cluster) {
    WellFormed(s) && UploadInv(s, LeaderLog(s)) && MastersInv(s, LeaderLog(s)) && SlavesInv(s)
  }

  predicate NoLogShrinks(s: Cluster, s': Cluster) {
    |s.masters| == |s'.masters| && forall i :: 0 <= i < |s.masters| ==> |s.masters[i].oplog| <= |s'.masters[i].oplog|
  }

  // ---- The invariant is kept, event by event ----

  lemma AtPositionExtends(s: Slave, a: seq<LogEntry>, b: seq<LogEntry>, n: nat)
    requires AtPosition(s, a, n) && a <= b && |b| < ID_COUNT
    ensures AtPosition(s, b, n)
  {
    assert a[..n] == b[..n];
  }

  lemma SlavesExtend(s: Cluster, s': Cluster)
    requires WellFormed(s) && WellFormed(s') && SlavesInv(s) && s'.slaves == s.slaves
    requires Agreed(s) <= Agreed(s') && |Agreed(s')| < ID_COUNT
    ensures SlavesInv(s')
  {
    hide Agreed;
    forall j | 0 <= j < |s'.slaves| ensures ExactReplay(s'.slaves[j], Agreed(s')) {
      assert ExactReplay(s.slaves[j], Agreed(s));
      var n :| AtPosition(s.slaves[j], Agreed(s), n);
      AtPositionExtends(s.slaves[j], Agreed(s), Agreed(s'), n);
    }
  }

  lemma PrefixExtends(m: Master, lead: seq<LogEntry>, e: LogEntry, n: nat)
    requires Prefix(m, lead, n)
    ensures Prefix(m, lead + [e], n)
  {
    assert (lead + [e])[..n] == lead[..n];
  }

  lemma BeginKeeps(s: Cluster, ev: Event)
    requires ev.Begin? && Inv(s) && Legal(s, ev)
    ensures Inv(Apply(s, ev)) && Agreed(s) == Agreed(Apply(s, ev))
  {
    hide Replay, TableOf, ToId;
    DenseNextId(LeaderLog(s));
    SlavesExtend(s, Apply(s, ev));
  }

  lemma PrepareNextKeeps(s: Cluster, ev: Event)
    requires ev.PrepareNext? && Inv(s) && Legal(s, ev)
    ensures Inv(Apply(s, ev)) && Agreed(s) == Agreed(Apply(s, ev))
    ensures NoLogShrinks(s, Apply(s, ev))
  {
    hide Replay, TableOf, ToId, Prepare;
    var lead, u := LeaderLog(s), s.upload;
    var s' := Apply(s, ev);
    if u.phase == Preparing && u.next < |s.masters| && u.next != s.leader && ev.delivered {
      var m := s.masters[u.next];
      var k := PrepareKeeps(m, lead, |m.oplog|, u.entry, ev.calls, ev.outcomes);
      assert lead[..|lead|] == lead;
      assert s'.masters[s.leader] == s.masters[s.leader];
    }
    SlavesExtend(s, s');
  }

  lemma DecideKeeps(s: Cluster, ev: Event)
    requires ev.Decide? && Inv(s)
    ensures Inv(Apply(s, ev)) && Agreed(s) == Agreed(Apply(s, ev))
  {
    hide Replay, TableOf, ToId;
    SlavesExtend(s, Apply(s, ev));
  }

  lemma CommitNextKeeps(s: Cluster, ev: Event)
    requires ev.CommitNext? && Inv(s) && Legal(s, ev)
    ensures Inv(Apply(s, ev)) && Agreed(s) <= Agreed(Apply(s, ev))
    ensures NoLogShrinks(s, Apply(s, ev))
  {
    hide Replay, TableOf, ToId, Commit;
    var lead, u := LeaderLog(s), s.upload;
    var s' := Apply(s, ev);
    if u.phase == Committing && u.next < |s.masters| && u.next != s.leader && ev.delivered {
      CommitAfterPrepare(s.masters[u.next], lead, u.entry, ev.outcome);
      assert lead[..|lead|] == lead;
      assert s'.masters[s.leader] == s.masters[s.leader];
    }
    SlavesExtend(s, s');
  }

  lemma LeaderStoreKeeps(s: Cluster, ev: Event)
    requires ev.LeaderStore? && Inv(s) && Legal(s, ev)
    ensures Inv(Apply(s, ev)) && Agreed(s) <= Agreed(Apply(s, ev))
    ensures NoLogShrinks(s, Apply(s, ev))
  {
    hide TableOf, ToId, Replay;
    var lead, e := LeaderLog(s), s.upload.entry;
    var s' := Apply(s, ev);
    if s.upload.phase == Storing {
      StoreAtEnd(s.masters[s.leader], lead, e, ev.outcome);
      HoldsIsSound(s'.masters[s.leader], AfterStore(lead, e, ev.outcome));
      if ev.outcome == Stored {
        ReplayKeys(lead);
        forall i {:trigger s.masters[i]} | 0 <= i < |s.masters| ensures Prefix(s'.masters[i], lead + [e], |s'.masters[i].oplog|) {
          assert (lead + [e])[..|lead + [e]|] == lead + [e];
          if i != s.leader && i !in s.upload.committed {
            PrefixExtends(s.masters[i], lead, e, |s.masters[i].oplog|);
          }
        }
      }
    }
    SlavesExtend(s, s');
  }

  lemma PullKeeps(s: Cluster, ev: Event)
    requires ev.PullAt? && Inv(s) && Legal(s, ev)
    ensures Inv(Apply(s, ev)) && Agreed(s) == Agreed(Apply(s, ev))
    ensures ev.slave < |s.slaves| ==> Value(s.slaves[ev.slave].currentId) <= Value(Apply(s, ev).slaves[ev.slave].currentId)
  {
    hide TableOf, Replay, Pull, Reached;
    var s', agreed := Apply(s, ev), Agreed(s);
    if ev.slave < |s.slaves| && ev.master < |s.masters| {
      assert ExactReplay(s.slaves[ev.slave], agreed);
      var n :| AtPosition(s.slaves[ev.slave], agreed, n);
      var have := |s.masters[ev.master].oplog|;
      MasterWithinAgreed(s, ev.master);
      PullReplays(s.slaves[ev.slave], s.masters[ev.master].oplog, agreed, n, have, ev.answered, ev.sets);
      var n' := Reached(n, have, ev.answered, ev.sets);
      assert ExactReplay(s'.slaves[ev.slave], agreed);
      PowerOfIdLength();
      ValueOfEncode(n, ID_LENGTH);
      ValueOfEncode(n', ID_LENGTH);
    }
  }

  /** Every master is an initial part of the agreed log. */
  lemma MasterWithinAgreed(s: Cluster, i: nat)
    requires Inv(s) && i < |s.masters|
    ensures Prefix(s.masters[i], Agreed(s), |s.masters[i].oplog|) && AllUploads(Agreed(s)) && |Agreed(s)| < ID_COUNT
  {
    hide TableOf, ToId, Replay;
    var lead := LeaderLog(s);
    if s.upload.committed != {} {
      var all := lead + [s.upload.entry];
      assert all[..|all|] == all;
      if i !in s.upload.committed {
        PrefixExtends(s.masters[i], lead, s.upload.entry, |s.masters[i].oplog|);
      }
    }
  }

  // ---- What holds over every run ----

  lemma StepKeeps(s: Cluster, ev: Event)
    requires Inv(s) && Legal(s, ev)
    ensures Inv(Apply(s, ev)) && Agreed(s) <= Agreed(Apply(s, ev)) && NoLogShrinks(s, Apply(s, ev))
  {
    hide UploadInv, MastersInv, SlavesInv, Agreed, Apply, Legal;
    match ev
    case Begin(_, _) => BeginKeeps(s, ev); MovesNoLog(s, ev);
    case PrepareNext(_, _, _, _) => PrepareNextKeeps(s, ev);
    case Decide => DecideKeeps(s, ev); MovesNoLog(s, ev);
    case CommitNext(_, _) => CommitNextKeeps(s, ev);
    case LeaderStore(_) => LeaderStoreKeeps(s, ev);
    case PullAt(_, _, _, _) => PullKeeps(s, ev); MovesNoLog(s, ev);
  }

  lemma MovesNoLog(s: Cluster, ev: Event)
    requires WellFormed(s) && (ev.Begin? || ev.Decide? || ev.PullAt?)
    ensures NoLogShrinks(s, Apply(s, ev))
  {
  }

  lemma {:induction false} RunKeeps(s: Cluster, events: seq<Event>)
    requires Inv(s) && LegalRun(s, events)
    ensures Inv(Run(s, events)) && Agreed(s) <= Agreed(Run(s, events)) && NoLogShrinks(s, Run(s, events))
    decreases events
  {
    hide Inv, Apply, Agreed, Legal;
    if events != [] {
      StepKeeps(s, events[0]);
      RunKeeps(Apply(s, events[0]), events[1..]);
    }
  }

  lemma InitInv(s: Cluster)
    requires Init(s)
    ensures Inv(s)
  {
    forall j | 0 <= j < |s.slaves| ensures ExactReplay(s.slaves[j], Agreed(s)) {
      assert AtPosition(s.slaves[j], Agreed(s), 0);
    }
  }

  /** Replication agreement: in every run from empty stores, no two masters hold different
      entries under one id; a follower has an initial part of the leader's log, plus at most
      the entry in flight, and none ahead of the leader between uploads. */
  lemma ReplicationAgreement(s0: Cluster, events: seq<Event>)
    requires Init(s0) && LegalRun(s0, events)
    ensures var s := Run(s0, events);
            && (forall i, j, a, b ::
                  0 <= i < |s.masters| && 0 <= j < |s.masters| && a in s.masters[i].oplog && b in s.masters[j].oplog && a.id == b.id
                  ==> a == b)
            && (forall i :: 0 <= i < |s.masters| ==>
                  || LogOf(s.masters[i]) <= LeaderLog(s)
                  || (s.upload.phase != Idle && LogOf(s.masters[i]) == LeaderLog(s) + [s.upload.entry]))
  {
    InitInv(s0);
    RunKeeps(s0, events);
    var s := Run(s0, events);
    hide Run, LegalRun, Replay, ToId;
    forall i | 0 <= i < |s.masters|
      ensures || LogOf(s.masters[i]) <= LeaderLog(s)
              || (s.upload.phase != Idle && LogOf(s.masters[i]) == LeaderLog(s) + [s.upload.entry])
    {
      var log := if i in s.upload.committed then LeaderLog(s) + [s.upload.entry] else LeaderLog(s)[..|s.masters[i].oplog|];
      HoldsIsSound(s.masters[i], log);
    }
    forall i, j, a, b | 0 <= i < |s.masters| && 0 <= j < |s.masters| && a in s.masters[i].oplog && b in s.masters[j].oplog && a.id == b.id
      ensures a == b
    {
      SameRow(s, i, j, a, b);
    }
  }

  lemma SameRow(s: Cluster, i: nat, j: nat, a: Row, b: Row)
    requires Inv(s) && i < |s.masters| && j < |s.masters|
    requires a in s.masters[i].oplog && b in s.masters[j].oplog && a.id == b.id
    ensures a == b
  {
    MasterWithinAgreed(s, i);
    MasterWithinAgreed(s, j);
    hide Inv, Agreed, Replay, ToId;
    var x :| 0 <= x < |s.masters[i].oplog| && s.masters[i].oplog[x] == a;
    var y :| 0 <= y < |s.masters[j].oplog| && s.masters[j].oplog[y] == b;
    ToIdOrder(x, y);
  }

  /** Per-master consistency: in every run, each master's userdata is the in-order replay of
      its own dense oplog, and on the leader no key occurs twice, so both have one size. */
  lemma MastersConsistent(s0: Cluster, events: seq<Event>)
    requires Init(s0) && LegalRun(s0, events)
    ensures var s := Run(s0, events);
            && (forall i :: 0 <= i < |s.masters| ==> Sound(s.masters[i]))
            && DistinctKeys(LeaderLog(s))
            && |s.masters[s.leader].userdata| == |s.masters[s.leader].oplog|
  {
    InitInv(s0);
    RunKeeps(s0, events);
    var s := Run(s0, events);
    hide Run, LegalRun, Replay, ToId, TableOf;
    forall i | 0 <= i < |s.masters| ensures Sound(s.masters[i]) {
      MasterWithinAgreed(s, i);
      HoldsIsSound(s.masters[i], Agreed(s)[..|s.masters[i].oplog|]);
    }
    ReplaySize(LeaderLog(s));
  }

  /** Slave refinement, end to end: in every run, whichever masters are pulled from and
      whichever SETs fail, each slavenode's store is the in-order replay of the agreed log up
      to its position, the position never goes back and the agreed log is never rewritten. */
  lemma SlavesRefine(s0: Cluster, before: seq<Event>, after: seq<Event>, j: nat)
    requires Init(s0) && LegalRun(s0, before) && LegalRun(Run(s0, before), after) && j < |s0.slaves|
    ensures var s, s' := Run(s0, before), Run(Run(s0, before), after);
            && ExactReplay(s.slaves[j], Agreed(s))
            && ExactReplay(s'.slaves[j], Agreed(s'))
            && Agreed(s) <= Agreed(s')
            && Value(s.slaves[j].currentId) <= Value(s'.slaves[j].currentId)
  {
    InitInv(s0);
    RunKeeps(s0, before);
    hide Apply, Agreed, Legal;
    var s := Run(s0, before);
    RunKeeps(s, after);
    PositionsAdvance(s, after, j);
  }

  lemma {:induction false} PositionsAdvance(s: Cluster, events: seq<Event>, j: nat)
    requires Inv(s) && LegalRun(s, events) && j < |s.slaves|
    ensures Value(s.slaves[j].currentId) <= Value(Run(s, events).slaves[j].currentId)
    decreases events
  {
    hide Inv, Legal, Value;
    if events != [] {
      var ev := events[0];
      StepKeeps(s, ev);
      if ev.PullAt? {
        PullKeeps(s, ev);
      }
      PositionsAdvance(Apply(s, ev), events[1..], j);
    }
  }

  // ---- Majority durability ----

  /** The masters that hold an entry under an id. */
  function Holders(s: Cluster, row: Row): set<nat> {
    set i: nat | i < |s.masters| && row in s.masters[i].oplog
  }

  lemma {:induction false} RowStays(s: Cluster, events: seq<Event>, i: nat, row: Row)
    requires Inv(s) && LegalRun(s, events) && i < |s.masters| && row in s.masters[i].oplog
    ensures row in Run(s, events).masters[i].oplog
  {
    var s' := Run(s, events);
    RunKeeps(s, events);
    MasterWithinAgreed(s, i);
    MasterWithinAgreed(s', i);
    hide Inv, Run, LegalRun, Agreed, Replay, ToId;
    var x :| 0 <= x < |s.masters[i].oplog| && s.masters[i].oplog[x] == row;
    assert s'.masters[i].oplog[x] == row;
  }

  /** When the leader's put answers the upload OK and every master whose "ok" was counted has
      stored the entry, strictly more than half of all masters hold it under the upload's id,
      the leader among them, now and after every later run. */
  lemma MajorityDurability(s0: Cluster, before: seq<Event>, after: seq<Event>)
    requires Init(s0) && LegalRun(s0, before)
    requires var s := Run(s0, before); s.upload.phase == Storing && s.upload.acked <= s.upload.committed
    requires LegalRun(Apply(Run(s0, before), LeaderStore(Stored)), after)
    ensures var s := Run(s0, before);
            var row := Row(s.upload.id, s.upload.entry);
            var stored := Apply(s, LeaderStore(Stored));
            && stored.reply == UploadOk
            && s.leader in Holders(stored, row)
            && |Holders(stored, row)| * 2 > |s.masters|
            && |Holders(Run(stored, after), row)| * 2 > |s.masters|
  {
    var s := Run(s0, before);
    InitInv(s0);
    RunKeeps(s0, before);
    var row, stored := Row(s.upload.id, s.upload.entry), Apply(s, LeaderStore(Stored));
    LeaderStoreKeeps(s, LeaderStore(Stored));
    var sure := s.upload.acked + {s.leader};
    LastRow(s, stored);
    SubsetSize(sure, Holders(stored, row));
    forall i | i in sure ensures i in Holders(Run(stored, after), row) {
      RowStays(stored, after, i, row);
    }
    SubsetSize(sure, Holders(Run(stored, after), row));
  }

  lemma LastRow(s: Cluster, stored: Cluster)
    requires Inv(s) && s.upload.phase == Storing && stored == Apply(s, LeaderStore(Stored))
    ensures forall i :: i in s.upload.committed + {s.leader} ==> i in Holders(stored, Row(s.upload.id, s.upload.entry))
  {
    hide Replay;
    var lead, e := LeaderLog(s), s.upload.entry;
    StoreAtEnd(s.masters[s.leader], lead, e, Stored);
    forall i | i in s.upload.committed + {s.leader} ensures i in Holders(stored, Row(s.upload.id, e)) {
      assert Holds(stored.masters[i], lead + [e]);
      assert stored.masters[i].oplog[|lead|] == Row(s.upload.id, e);
    }
  }

  // ---- Runs that break agreement ----

  lemma FollowerStaysAhead(s: Cluster, outcome: StoreOutcome) returns (i: nat)
    requires Inv(s) && s.upload.phase == Storing && outcome != Stored && s.upload.committed != {}
    ensures var s' := Apply(s, LeaderStore(outcome));
            i < |s'.masters| && LogOf(s'.masters[i]) == LeaderLog(s') + [s.upload.entry]
  {
    hide Replay, ToId, TableOf;
    i :| i in s.upload.committed;
    StoreAtEnd(s.masters[s.leader], LeaderLog(s), s.upload.entry, outcome);
    HoldsIsSound(s.masters[i], LeaderLog(s) + [s.upload.entry]);
  }

  lemma NobodyAhead(s: Cluster)
    requires Inv(s) && s.upload.phase == Idle
    ensures forall i :: 0 <= i < |s.masters| ==> LogOf(s.masters[i]) <= LeaderLog(s)
  {
    hide Replay, ToId, TableOf;
    forall i | 0 <= i < |s.masters| ensures LogOf(s.masters[i]) <= LeaderLog(s) {
      HoldsIsSound(s.masters[i], LeaderLog(s)[..|s.masters[i].oplog|]);
    }
  }

  /** When the leader's own put is due, the logs end up with every follower behind or level
      exactly when that put succeeds or no follower has stored the entry. */
  lemma LeaderStoreExactly(s: Cluster, outcome: StoreOutcome)
    requires Inv(s) && s.upload.phase == Storing
    ensures var s' := Apply(s, LeaderStore(outcome));
            (forall i :: 0 <= i < |s.masters| ==> LogOf(s'.masters[i]) <= LeaderLog(s'))
            <==> outcome == Stored || s.upload.committed == {}
  {
    var s' := Apply(s, LeaderStore(outcome));
    if outcome == Stored || s.upload.committed == {} {
      LeaderStoreKeeps(s, LeaderStore(outcome));
      assert s'.upload.phase == Idle;
      hide Inv, Apply;
      NobodyAhead(s');
    } else {
      var i := FollowerStaysAhead(s, outcome);
    }
  }

  const THREE_EMPTY := Cluster(
    [EMPTY, EMPTY, EMPTY], 0, Upload(Idle, 0, ToId(0), NOTHING, 0, {}, {}, {}), NoReply, [])

  const NOTHING := LogEntry(0, "", FileInfo([], 0, ""))

  lemma {:induction false} RunThen(s: Cluster, events: seq<Event>, ev: Event)
    requires WellFormed(s)
    ensures Run(s, events + [ev]) == Apply(Run(s, events), ev)
    decreases events
  {
    var all := events + [ev];
    if events != [] {
      assert all[1..] == events[1..] + [ev];
      RunThen(Apply(s, events[0]), events[1..], ev);
    }
  }

  const SKIP := PrepareNext(false, false, 0, [])

  const EMPTY := Master([], map[], false, [], NOTHING)

  lemma FirstPrepare(e: LogEntry)
    ensures Prepare(EMPTY, ToId(0), e, [], 0, []) == (Master([], map[], true, ToId(0), e), true)
  {
  }

  /** The first upload: master 1 prepares, its "ok" is lost, the upload is rejected. */
  lemma RejectedUpload(f: FileInfo) returns (events: seq<Event>, s: Cluster)
    ensures WellFormed(THREE_EMPTY) && s == Run(THREE_EMPTY, events)
    ensures s.leader == 0 && s.upload.phase == Idle
    ensures s.masters == [EMPTY, Master([], map[], true, ToId(0), LogEntry(UPLOAD_FILE, "a", f)), EMPTY]
  {
    assert Run(THREE_EMPTY, []) == THREE_EMPTY;
    FirstPrepare(LogEntry(UPLOAD_FILE, "a", f));
    hide Run, ToId, Prepare;
    events, s := Extend([], THREE_EMPTY, Begin("a", f));
    events, s := Extend(events, s, SKIP);
    events, s := Extend(events, s, PrepareNext(true, false, 0, []));
    events, s := Extend(events, s, SKIP);
    events, s := Extend(events, s, Decide);
  }

  /** The second upload: its prepare misses master 1, and the vote passes with master 2. */
  lemma AcceptedUpload(f: FileInfo) returns (events: seq<Event>, s: Cluster)
    ensures WellFormed(THREE_EMPTY) && s == Run(THREE_EMPTY, events)
    ensures s.leader == 0 && s.upload.phase == Committing && s.upload.next == 0 && s.upload.id == ToId(0)
    ensures s.upload.entry == LogEntry(UPLOAD_FILE, "b", f)
    ensures s.masters == [EMPTY, Master([], map[], true, ToId(0), LogEntry(UPLOAD_FILE, "a", f)),
                                 Master([], map[], true, ToId(0), LogEntry(UPLOAD_FILE, "b", f))]
  {
    FirstPrepare(LogEntry(UPLOAD_FILE, "b", f));
    hide Run, ToId, Prepare;
    events, s := RejectedUpload(f);
    events, s := Extend(events, s, Begin("b", f));
    events, s := Extend(events, s, SKIP);
    events, s := Extend(events, s, SKIP);
    events, s := Extend(events, s, PrepareNext(true, true, 0, []));
    events, s := Extend(events, s, Decide);
  }

  /** An upload is rejected after master 1 prepared it; the next one's prepare misses master
      1 but its commit arrives: master 1 stores the rejected file under the id that holds the
      accepted one everywhere else. */
  lemma LatePrepareBreaksAgreement(f: FileInfo) returns (events: seq<Event>)
    ensures var s := Run(THREE_EMPTY, events);
            && Init(THREE_EMPTY)
            && s.reply == UploadOk
            && s.masters[0].oplog == s.masters[2].oplog == [Row(ToId(0), LogEntry(UPLOAD_FILE, "b", f))]
            && s.masters[1].oplog == [Row(ToId(0), LogEntry(UPLOAD_FILE, "a", f))]
  {
    hide Run, ToId;
    var s;
    events, s := AcceptedUpload(f);
    events, s := Extend(events, s, CommitNext(false, Stored));
    events, s := Extend(events, s, CommitNext(true, Stored));
    events, s := Extend(events, s, CommitNext(true, Stored));
    events, s := Extend(events, s, CommitNext(false, Stored));
    events, s := Extend(events, s, LeaderStore(Stored));
  }

  lemma Extend(events: seq<Event>, s: Cluster, ev: Event) returns (events': seq<Event>, s': Cluster)
    requires WellFormed(THREE_EMPTY) && s == Run(THREE_EMPTY, events)
    ensures WellFormed(s) && s' == Apply(s, ev) == Run(THREE_EMPTY, events') && events' == events + [ev]
  {
    events', s' := events + [ev], Apply(s, ev);
    RunThen(THREE_EMPTY, events, ev);
  }

  lemma {:induction false} LegalThen(s: Cluster, events: seq<Event>, ev: Event)
    requires WellFormed(s) && LegalRun(s, events) && Legal(Run(s, events), ev)
    ensures LegalRun(s, events + [ev])
    decreases events
  {
    var all := events + [ev];
    assert all[0] == if events == [] then ev else events[0];
    if events != [] {
      assert all[1..] == events[1..] + [ev];
      LegalThen(Apply(s, events[0]), events[1..], ev);
    }
  }

  lemma ExtendLegally(events: seq<Event>, s: Cluster, ev: Event) returns (events': seq<Event>, s': Cluster)
    requires WellFormed(THREE_EMPTY) && s == Run(THREE_EMPTY, events) && LegalRun(THREE_EMPTY, events) && Legal(s, ev)
    ensures WellFormed(s) && s' == Apply(s, ev) == Run(THREE_EMPTY, events') && LegalRun(THREE_EMPTY, events')
  {
    LegalThen(THREE_EMPTY, events, ev);
    events', s' := Extend(events, s, ev);
  }

  /** A legal run in which master 1 has prepared an upload. */
  lemma PreparedAtOne(f: FileInfo) returns (events: seq<Event>, s: Cluster)
    ensures WellFormed(THREE_EMPTY) && s == Run(THREE_EMPTY, events) && LegalRun(THREE_EMPTY, events)
    ensures s == Cluster(
                   [EMPTY, Master([], map[], true, ToId(0), LogEntry(UPLOAD_FILE, "a", f)), EMPTY], 0,
                   Upload(Preparing, 2, ToId(0), LogEntry(UPLOAD_FILE, "a", f), 2, {1}, {1}, {}), NoReply, [])
  {
    FirstPrepare(LogEntry(UPLOAD_FILE, "a", f));
    assert LegalRun(THREE_EMPTY, []) && Run(THREE_EMPTY, []) == THREE_EMPTY;
    hide Run, LegalRun, ToId, Prepare;
    events, s := ExtendLegally([], THREE_EMPTY, Begin("a", f));
    events, s := ExtendLegally(events, s, SKIP);
    events, s := ExtendLegally(events, s, PrepareNext(true, true, 0, []));
  }

  /** A legal run in which master 1 has stored the entry and the leader's own put is due. */
  lemma OwnPutDue(f: FileInfo) returns (events: seq<Event>, s: Cluster)
    ensures WellFormed(THREE_EMPTY) && s == Run(THREE_EMPTY, events) && LegalRun(THREE_EMPTY, events)
    ensures Init(THREE_EMPTY) && s.leader == 0 && s.upload.phase == Storing && s.upload.committed == {1}
    ensures s.upload.id == ToId(0) && s.upload.entry == LogEntry(UPLOAD_FILE, "a", f)
    ensures |s.masters| == 3 && s.masters[0] == EMPTY && s.masters[2] == EMPTY
    ensures s.masters[1].oplog == [Row(ToId(0), LogEntry(UPLOAD_FILE, "a", f))]
  {
    hide Run, LegalRun, ToId;
    events, s := PreparedAtOne(f);
    events, s := ExtendLegally(events, s, SKIP);
    events, s := ExtendLegally(events, s, Decide);
    events, s := ExtendLegally(events, s, CommitNext(false, Stored));
    events, s := ExtendLegally(events, s, CommitNext(true, Stored));
    events, s := ExtendLegally(events, s, CommitNext(false, Stored));
    events, s := ExtendLegally(events, s, CommitNext(false, Stored));
  }

  /** From there the leader's own put fails: the upload is answered with an error, and master 1
      is ahead. */
  lemma OwnPutFails(f: FileInfo) returns (legal: seq<Event>, s: Cluster)
    ensures Init(THREE_EMPTY) && LegalRun(THREE_EMPTY, legal)
    ensures s == Run(THREE_EMPTY, legal + [LeaderStore(OplogPutFails)])
    ensures s.reply == PutFailed && s.leader == 0 && s.upload.phase == Idle
    ensures |s.masters| == 3 && s.masters[0] == EMPTY && s.masters[2] == EMPTY
    ensures s.masters[1].oplog == [Row(ToId(0), LogEntry(UPLOAD_FILE, "a", f))]
  {
    hide Run, LegalRun, ToId;
    var before;
    legal, before := OwnPutDue(f);
    RunThen(THREE_EMPTY, legal, LeaderStore(OplogPutFails));
    s := Apply(before, LeaderStore(OplogPutFails));
  }

  /** The next upload is voted in without master 1, under the same id. */
  lemma VotedInAgain(f: FileInfo) returns (legal: seq<Event>, all: seq<Event>, s: Cluster)
    ensures Init(THREE_EMPTY) && LegalRun(THREE_EMPTY, legal)
    ensures legal + [LeaderStore(OplogPutFails)] <= all && WellFormed(THREE_EMPTY) && s == Run(THREE_EMPTY, all)
    ensures var first := Run(THREE_EMPTY, legal + [LeaderStore(OplogPutFails)]);
            && first.reply == PutFailed && first.leader == 0 && |first.masters| == 3 && first.masters[0] == EMPTY
            && first.masters[1].oplog == [Row(ToId(0), LogEntry(UPLOAD_FILE, "a", f))] && first.masters[1] == s.masters[1]
    ensures s.leader == 0 && s.upload.phase == Committing && s.upload.next == 0 && s.upload.id == ToId(0)
    ensures s.upload.entry == LogEntry(UPLOAD_FILE, "b", f) && |s.masters| == 3 && s.masters[0] == EMPTY
    ensures s.masters[2] == Master([], map[], true, ToId(0), LogEntry(UPLOAD_FILE, "b", f))
  {
    FirstPrepare(LogEntry(UPLOAD_FILE, "b", f));
    hide Run, LegalRun, ToId, Prepare;
    legal, s := OwnPutFails(f);
    all, s := Extend(legal + [LeaderStore(OplogPutFails)], s, Begin("b", f));
    all, s := Extend(all, s, SKIP);
    all, s := Extend(all, s, SKIP);
    all, s := Extend(all, s, PrepareNext(true, true, 0, []));
    all, s := Extend(all, s, Decide);
  }

  /** And accepted: two masters hold another file under the id of the one that master 1 holds. */
  lemma FailedOwnPutBreaksAgreement(f: FileInfo) returns (legal: seq<Event>, events: seq<Event>)
    ensures Init(THREE_EMPTY) && LegalRun(THREE_EMPTY, legal)
    ensures var s := Run(THREE_EMPTY, legal + [LeaderStore(OplogPutFails)]);
            && s.reply == PutFailed
            && LogOf(s.masters[1]) == LeaderLog(s) + [LogEntry(UPLOAD_FILE, "a", f)]
    ensures var s := Run(THREE_EMPTY, legal + [LeaderStore(OplogPutFails)] + events);
            && s.reply == UploadOk
            && s.masters[0].oplog == s.masters[2].oplog == [Row(ToId(0), LogEntry(UPLOAD_FILE, "b", f))]
            && s.masters[1].oplog == [Row(ToId(0), LogEntry(UPLOAD_FILE, "a", f))]
  {
    hide Run, LegalRun, ToId;
    var all, s;
    legal, all, s := VotedInAgain(f);
    var ahead := legal + [LeaderStore(OplogPutFails)];
    assert s.masters[1].oplog[0] == Row(ToId(0), LogEntry(UPLOAD_FILE, "a", f));
    all, s := Extend(all, s, CommitNext(false, Stored));
    all, s := Extend(all, s, CommitNext(false, Stored));
    all, s := Extend(all, s, CommitNext(true, Stored));
    all, s := Extend(all, s, CommitNext(false, Stored));
    all, s := Extend(all, s, LeaderStore(Stored));
    events := all[|ahead|..];
    assert all == ahead + events;
  }
}
