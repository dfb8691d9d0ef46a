/** One master server: the handlers for GetOplog, ConfirmOplog and UploadFile over the two
    stores they share. Each handler does what the step functions of the cluster say. */
module MasterServer {
  import opened Ids
  import opened Oplog
  import opened MasterState
  import opened Replication
  import opened Uploads

  datatype OperationLogMessage = OperationLogMessage(state: int, opId: Id, opLog: LogEntry)

  datatype ConfirmReply = SystemError | PrepareOk | PrepareFailed | CommitReplied(reply: CommitReply)

  class Server {
    var oplog: Table
    var userdata: map<string, FileInfo>
    var state: bool
    var stateId: seq<byte>
    var stateData: LogEntry

    constructor ()
      ensures View() == Master([], map[], false, [], stateData)
    {
      oplog, userdata, state, stateId := [], map[], false, [];
    }

    function View(): Master
      reads this
    {
      Master(oplog, userdata, state, stateId, stateData)
    }

    /** The seek-and-page loop. */
    method HandleGetOplog(id: Id) returns (reply: GetOplogReply)
      ensures LogData(reply) == PageAt(oplog, id)
      ensures reply.NoSuchOpId? <==> !Exists(oplog, id)
      ensures reply.Page? <==> Exists(oplog, id)
      ensures reply.Page? ==>
                var last := Seek(oplog, id) + |reply.logData| - 1;
                last < |oplog| && reply.lastId == oplog[last].id
    {
      PageOfTable(oplog, id);
      hide Seek, Less, Exists, PageAt, Entries;
      if !Exists(oplog, id) {
        return NoSuchOpId;
      }
      var it := Seek(oplog, id);
      SeekFinds(oplog, id);
      if it >= |oplog| {
        return InvalidStatus;
      }
      ghost var start := it;
      var data: seq<LogEntry> := [];
      var cnt := 0;
      NoEntries(oplog, start);
      while true
        invariant start <= it < |oplog|
        invariant cnt == |data| == it - start
        invariant cnt < MAX_GET_OPLOG_SIZE
        invariant data == Entries(oplog[start..it])
        decreases |oplog| - it
      {
        var key := oplog[it].id;
        NextEntry(oplog, start, it);
        data := data + [oplog[it].entry];
        cnt := cnt + 1;
        it := it + 1;
        if it >= |oplog| || cnt == MAX_GET_OPLOG_SIZE {
          assert it == Min(start + MAX_GET_OPLOG_SIZE, |oplog|);
          return Page(key, data);
        }
      }
    }

    /** Put in the oplog, then in the userdata, with the removal when the second put fails. */
    method Store(id: Id, e: LogEntry, outcome: StoreOutcome) returns (ok: bool)
      modifies this
      ensures View() == StoreEntry(old(View()), id, e, outcome) && ok == (outcome == Stored)
    {
      if outcome == OplogPutFails {
        return false;
      }
      oplog := Insert(oplog, id, e);
      if outcome == UserdataPutFails {
        oplog := Delete(oplog, id);
        return false;
      }
      userdata := userdata[e.key := e.data];
      return true;
    }

    /** The catch-up loop; `calls` of its requests are answered before one fails. */
    method UpdateOplog(lastId: Id, targetId: Id, leader: Server, calls: nat, outcomes: seq<StoreOutcome>)
      returns (ok: bool)
      requires leader != this
      modifies this
      ensures (View(), ok) == CatchUp(old(View()), lastId, lastId, targetId, leader.oplog, calls, outcomes)
    {
      var current, answers, rest := lastId, calls, outcomes;
      while true
        invariant CatchUp(old(View()), lastId, lastId, targetId, leader.oplog, calls, outcomes)
               == CatchUp(View(), current, lastId, targetId, leader.oplog, answers, rest)
        decreases answers
      {
        if answers == 0 {
          return false;
        }
        var data := leader.HandleGetOplog(lastId);
        answers := answers - 1;
        var page := LogData(data);
        ghost var m, at, left := View(), current, rest;
        var i := 0;
        while i < |page|
          invariant 0 <= i <= |page|
          invariant ApplyPage(m, at, page, left) == ApplyPage(View(), current, page[i..], rest)
        {
          if page[i].opType == UPLOAD_FILE {
            var stored := Store(current, page[i], Head(rest));
            rest := Tail(rest);
            if !stored {
              return false;
            }
            current := Next(current);
          }
          i := i + 1;
        }
        if current == targetId {
          return true;
        }
      }
    }

    /** The follower side of both phases. */
    method HandleConfirm(isLeader: bool, message: OperationLogMessage, leader: Server,
                         calls: nat, outcomes: seq<StoreOutcome>, outcome: StoreOutcome)
      returns (reply: ConfirmReply)
      requires leader != this
      modifies this
      ensures isLeader || message.state !in {1, 2} ==> View() == old(View()) && reply == SystemError
      ensures !isLeader && message.state == 1 ==>
                var (m, ok) := Prepare(old(View()), message.opId, message.opLog, leader.oplog, calls, outcomes);
                View() == m && reply == if ok then PrepareOk else PrepareFailed
      ensures !isLeader && message.state == 2 ==>
                var (m, r) := Commit(old(View()), message.opId, outcome);
                View() == m && reply == CommitReplied(r)
      // An answered prepare of the leader's next id, without failures.
      ensures !isLeader && message.state == 1 && message.opId == ToId(|leader.oplog|)
              && leader.oplog == TableOf(Entries(leader.oplog)) && Behind(old(View()), Entries(leader.oplog))
              && (|old(oplog)| == |leader.oplog| || NothingFails(|leader.oplog| - |old(oplog)|, calls, outcomes)) ==>
                reply == PrepareOk && Armed(View(), message.opId, message.opLog) && Holds(View(), Entries(leader.oplog))
      // "ok" to a prepare means that the registers hold the entry; otherwise only the id moved.
      ensures !isLeader && message.state == 1 ==>
                && reply in {PrepareOk, PrepareFailed} && stateId == message.opId
                && (state, stateData) == if reply == PrepareOk then (true, message.opLog) else old((state, stateData))
      // Success of a commit of the next id means that the entry is stored, anything else that nothing is.
      ensures !isLeader && message.state == 2 && Sound(old(View())) && message.opId == ToId(|old(oplog)|)
              && |old(oplog)| + 1 < ID_COUNT ==>
                && (reply == CommitReplied(StoreReply(Stored)) <==>
                      old(state) && old(stateId) == message.opId && old(stateData).opType == UPLOAD_FILE && outcome == Stored)
                && if reply == CommitReplied(StoreReply(Stored)) then Holds(View(), LogOf(old(View())) + [old(stateData)])
                   else View() == old(View())
    {
      Answers(message, leader, calls, outcomes, outcome);
      hide Behind, Sound, Holds, NothingFails, CatchUp, StoreEntry;
      if isLeader {
        return SystemError;
      }
      if message.state == 1 {
        stateId := message.opId;
        var lastId := NextId(oplog);
        if lastId == stateId {
          state, stateData := true, message.opLog;
          return PrepareOk;
        }
        var ok := UpdateOplog(lastId, message.opId, leader, calls, outcomes);
        if ok {
          state, stateData := true, message.opLog;
          return PrepareOk;
        }
        return PrepareFailed;
      } else if message.state == 2 {
        if !state {
          return CommitReplied(NotReady);
        }
        if message.opId != stateId {
          return CommitReplied(NoSuchId);
        }
        if stateData.opType != UPLOAD_FILE {
          return CommitReplied(NoSuchType);
        }
        var ok := Store(message.opId, stateData, outcome);
        return CommitReplied(StoreReply(outcome));
      }
      return SystemError;
    }

    /** What the two phases come to in this state, whatever the handler does then. */
    lemma Answers(message: OperationLogMessage, leader: Server, calls: nat, outcomes: seq<StoreOutcome>, outcome: StoreOutcome)
      ensures message.opId == ToId(|leader.oplog|)
              && leader.oplog == TableOf(Entries(leader.oplog)) && Behind(View(), Entries(leader.oplog))
              && (|oplog| == |leader.oplog| || NothingFails(|leader.oplog| - |oplog|, calls, outcomes)) ==>
                var (m, ok) := Prepare(View(), message.opId, message.opLog, leader.oplog, calls, outcomes);
                ok && Armed(m, message.opId, message.opLog) && Holds(m, Entries(leader.oplog))
      ensures var (m, ok) := Prepare(View(), message.opId, message.opLog, leader.oplog, calls, outcomes);
              m.opId == message.opId && (m.ready, m.pending) == if ok then (true, message.opLog) else (state, stateData)
      ensures Sound(View()) && message.opId == ToId(|oplog|) && |oplog| + 1 < ID_COUNT ==>
                var (m, r) := Commit(View(), message.opId, outcome);
                && (r == StoreReply(Stored) <==>
                      state && stateId == message.opId && stateData.opType == UPLOAD_FILE && outcome == Stored)
                && if r == StoreReply(Stored) then Holds(m, LogOf(View()) + [stateData]) else m == View()
    {
      hide Holds, NothingFails, CatchUp, StoreEntry, TableOf, ToId;
      if message.opId == ToId(|leader.oplog|)
         && leader.oplog == TableOf(Entries(leader.oplog)) && Behind(View(), Entries(leader.oplog))
         && (|oplog| == |leader.oplog| || NothingFails(|leader.oplog| - |oplog|, calls, outcomes)) {
        PrepareSucceeds(View(), leader.oplog, message.opId, message.opLog, calls, outcomes);
      }
      PrepareRegisters(View(), message.opId, message.opLog, leader.oplog, calls, outcomes);
      if Sound(View()) && message.opId == ToId(|oplog|) && |oplog| + 1 < ID_COUNT {
        CommitAnswers(View(), LogOf(View()), message.opId, outcome);
      }
    }

    /** The first round of calls: prepare at every other master, counting the "ok"s. */
    method PrepareAll(masters: seq<Server>, me: nat, lastKey: Id, opLog: LogEntry, prepares: seq<PrepareCall>,
                      ghost s0: Cluster, ghost all: seq<Event>, ghost start: Cluster)
      returns (tpCnt: nat, ghost s: Cluster)
      requires OneOf(masters, me, this) && |prepares| == |masters| && WellFormed(s0) && s0.leader == me
      requires 1 + |masters| <= |all| && forall i :: 0 <= i < |masters| ==> all[1 + i] == PrepareEvent(prepares[i])
      requires start == Run(s0, all[..1]) && Mirrors(masters, start)
      requires start.upload.phase == Preparing && start.upload.next == 0 && start.upload.tpCnt == 1
      requires start.upload.id == lastKey && start.upload.entry == opLog
      modifies masters
      ensures s == Run(s0, all[..1 + |masters|]) && Mirrors(masters, s) && View() == old(View())
      ensures s.upload.phase == Preparing && s.upload.next == |masters| && s.upload.tpCnt == tpCnt
      ensures s.upload.id == lastKey && s.upload.entry == opLog
    {
      hide Run, ToId, Prepare;
      s := start;
      var message := OperationLogMessage(1, lastKey, opLog);
      tpCnt := 1;
      for i := 0 to |masters|
        invariant s == Run(s0, all[..1 + i]) && Mirrors(masters, s) && View() == old(View())
        invariant s.upload.phase == Preparing && s.upload.next == i && s.upload.tpCnt == tpCnt
        invariant s.upload.id == lastKey && s.upload.entry == opLog
      {
        assert all[1 + i] == PrepareEvent(prepares[i]);
        s := Advance(s0, s, all, 1 + i);
        if i != me && prepares[i].delivered {
          var tpRes := masters[i].HandleConfirm(false, message, this, prepares[i].calls, prepares[i].outcomes, Stored);
          if prepares[i].answered && tpRes == PrepareOk {
            tpCnt := tpCnt + 1;
          }
        }
      }
    }

    /** The second round: commit at every other master, whatever they answer. */
    method CommitAll(masters: seq<Server>, me: nat, lastKey: Id, opLog: LogEntry, commits: seq<CommitCall>,
                     ghost s0: Cluster, ghost all: seq<Event>, ghost base: nat, ghost start: Cluster)
      returns (ghost s: Cluster)
      requires OneOf(masters, me, this) && |commits| == |masters| && WellFormed(s0) && s0.leader == me
      requires base + |masters| <= |all|
      requires forall i :: 0 <= i < |masters| ==> all[base + i] == CommitEvent(commits[i])
      requires start == Run(s0, all[..base]) && Mirrors(masters, start)
      requires start.upload.phase == Committing && start.upload.next == 0
      requires start.upload.id == lastKey && start.upload.entry == opLog
      modifies masters
      ensures s == Run(s0, all[..base + |masters|]) && Mirrors(masters, s) && View() == old(View())
      ensures s.upload.phase == Committing && s.upload.next == |masters|
      ensures s.upload.id == lastKey && s.upload.entry == opLog
    {
      hide Run, ToId, Commit;
      s := start;
      var confirm := OperationLogMessage(2, lastKey, NOTHING);
      for i := 0 to |masters|
        invariant s == Run(s0, all[..base + i]) && Mirrors(masters, s) && View() == old(View())
        invariant s.upload.phase == Committing && s.upload.next == i
        invariant s.upload.id == lastKey && s.upload.entry == opLog
      {
        assert all[base + i] == CommitEvent(commits[i]);
        s := Advance(s0, s, all, base + i);
        if i != me && commits[i].delivered {
          var tpRes := masters[i].HandleConfirm(false, confirm, this, 0, [], commits[i].outcome);
        }
      }
    }

    /** The leader's own put, after the last commit. */
    method StoreOwn(masters: seq<Server>, me: nat, lastKey: Id, opLog: LogEntry, outcome: StoreOutcome,
                    ghost s0: Cluster, ghost all: seq<Event>, ghost start: Cluster)
      returns (reply: UploadReply)
      requires OneOf(masters, me, this) && WellFormed(s0) && s0.leader == me
      requires |all| >= 2 && all[|all| - 2] == CommitNext(false, Stored) && all[|all| - 1] == LeaderStore(outcome)
      requires start == Run(s0, all[..|all| - 2]) && Mirrors(masters, start)
      requires start.upload.phase == Committing && start.upload.next == |masters|
      requires start.upload.id == lastKey && start.upload.entry == opLog
      modifies this
      ensures Mirrors(masters, Run(s0, all)) && reply == Run(s0, all).reply
    {
      hide Run, ToId, StoreEntry;
      ghost var s := Advance(s0, start, all, |all| - 2);
      s := Advance(s0, s, all, |all| - 1);
      assert all[..|all|] == all;
      var stored := Store(lastKey, opLog, outcome);
      return if stored then UploadOk else PutFailed;
    }

    /** Two phases for a new key: allocate the id, prepare, vote, commit and store. */
    method TwoPhase(masters: seq<Server>, me: nat, opLog: LogEntry, prepares: seq<PrepareCall>, commits: seq<CommitCall>,
                    outcome: StoreOutcome, ghost s0: Cluster, ghost all: seq<Event>, ghost start: Cluster)
      returns (reply: UploadReply)
      requires OneOf(masters, me, this) && |prepares| == |commits| == |masters| && WellFormed(s0) && s0.leader == me
      requires all == UploadEvents(opLog.key, opLog.data, prepares, commits, outcome)
      requires start == Run(s0, all[..1]) && Mirrors(masters, start)
      requires start.upload.phase == Preparing && start.upload.next == 0 && start.upload.tpCnt == 1
      requires start.upload.id == NextId(oplog) && start.upload.entry == opLog
      modifies masters
      ensures Mirrors(masters, Run(s0, all)) && reply == Run(s0, all).reply
    {
      hide Run, ToId, StoreEntry, UploadEvents, PrepareEvent, CommitEvent;
      ghost var s := start;
      var lastKey := NextId(oplog);
      var masterCount := |masters|;
      var tpCnt;
      tpCnt, s := PrepareAll(masters, me, lastKey, opLog, prepares, s0, all, s);
      s := Advance(s0, s, all, 1 + masterCount);
      if tpCnt <= masterCount / 2 {
        RestIgnored(s0, s, all, 2 + masterCount);
        return Rejected;
      }
      s := CommitAll(masters, me, lastKey, opLog, commits, s0, all, 2 + masterCount, s);
      reply := StoreOwn(masters, me, lastKey, opLog, outcome, s0, all, s);
    }

    /** The leader's upload handler from the existence check on: two rounds of calls to all
        other masters and the local put. It drives the cluster exactly through the events
        of one upload. */
    method HandleUpload(masters: seq<Server>, me: nat, key: string, data: FileInfo, prepares: seq<PrepareCall>,
                        commits: seq<CommitCall>, outcome: StoreOutcome, ghost s0: Cluster)
      returns (reply: UploadReply)
      requires OneOf(masters, me, this) && |prepares| == |commits| == |masters|
      requires WellFormed(s0) && s0.leader == me && s0.upload.phase == Idle && Mirrors(masters, s0)
      modifies masters
      ensures Mirrors(masters, Run(s0, UploadEvents(key, data, prepares, commits, outcome)))
      ensures reply == Run(s0, UploadEvents(key, data, prepares, commits, outcome)).reply
      // What the reply means, for a leader whose userdata is the replay of its dense log.
      ensures Sound(old(View())) && |old(oplog)| + 1 < ID_COUNT ==>
                var e, log := LogEntry(UPLOAD_FILE, key, data), LogOf(old(View()));
                && (reply == UploadOk <==> Holds(View(), log + [e]))
                && (reply == Existed <==> key in Replay(log))
                && (reply == Rejected <==> key !in Replay(log) && !VotedIn(s0, e, prepares))
                && (reply != UploadOk ==> View() == old(View()))
      ensures Sound(old(View())) && |old(oplog)| + 1 < ID_COUNT && reply != UploadOk
              && Inv(s0) && LegalRun(s0, UploadEvents(key, data, prepares, commits, outcome)) ==>
                forall i :: 0 <= i < |masters| ==> !Exists(masters[i].oplog, NextId(old(oplog)))
    {
      UploadMeans(s0, key, data, prepares, commits, outcome);
      hide Run, ToId, StoreEntry, UploadEvents, PrepareEvent, CommitEvent, Sound, Holds, VotedIn, Inv, LegalRun, Exists, Replay;
      ghost var all := UploadEvents(key, data, prepares, commits, outcome);
      RunNone(s0);
      ghost var s := Advance(s0, s0, all, 0);
      if key in userdata {
        RestIgnored(s0, s, all, 1);
        return Existed;
      }
      reply := TwoPhase(masters, me, LogEntry(UPLOAD_FILE, key, data), prepares, commits, outcome, s0, all, s);
    }
  }

  lemma PageOfTable(t: Table, id: Id)
    ensures PageAt(t, id) ==
            if !Exists(t, id) then []
            else Entries(t[Seek(t, id)..Min(Seek(t, id) + MAX_GET_OPLOG_SIZE, |t|)])
  {
  }

  lemma NoEntries(t: Table, start: nat)
    requires start <= |t|
    ensures Entries(t[start..start]) == []
  {
  }

  lemma NextEntry(t: Table, start: nat, it: nat)
    requires start <= it < |t|
    ensures Entries(t[start..it + 1]) == Entries(t[start..it]) + [t[it].entry]
  {
  }

  lemma {:induction false} SeekFinds(t: Table, id: Id)
    requires Exists(t, id)
    ensures Seek(t, id) < |t|
  {
    OrderIsNumeric(id, id);
    if Less(t[0].id, id) {
      assert forall i :: 0 < i < |t| ==> t[i] == t[1..][i - 1];
      SeekFinds(t[1..], id);
    }
  }

  /** The servers are in the states that the cluster's masters describe. */
  predicate Mirrors(masters: seq<Server>, s: Cluster)
    reads masters
  {
    |s.masters| == |masters| && forall i :: 0 <= i < |masters| ==> s.masters[i] == masters[i].View()
  }

  predicate OneOf(masters: seq<Server>, me: nat, server: Server) {
    && me < |masters| && masters[me] == server
    && forall i, j :: 0 <= i < j < |masters| ==> masters[i] != masters[j]
  }
}
