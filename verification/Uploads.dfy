/** One whole upload as a run of the cluster, and what its reply means. */
module Uploads {
  import opened Ids
  import opened Oplog
  import opened MasterState
  import opened Replication

  /** What the network and the storage do during one upload: for each master in turn, the
      prepare and the commit it is sent, and the leader's own put. */
  datatype PrepareCall = PrepareCall(delivered: bool, answered: bool, calls: nat, outcomes: seq<StoreOutcome>)

  datatype CommitCall = CommitCall(delivered: bool, outcome: StoreOutcome)

  function PrepareEvent(c: PrepareCall): Event {
    PrepareNext(c.delivered, c.answered, c.calls, c.outcomes)
  }

  function CommitEvent(c: CommitCall): Event {
    CommitNext(c.delivered, c.outcome)
  }

  /** The events of one upload, when nothing else happens in between. */
  function UploadEvents(key: string, data: FileInfo, prepares: seq<PrepareCall>, commits: seq<CommitCall>,
                        outcome: StoreOutcome): (events: seq<Event>)
    ensures |events| == 4 + |prepares| + |commits|
    ensures events[0] == Begin(key, data)
    ensures forall i :: 0 <= i < |prepares| ==> events[1 + i] == PrepareEvent(prepares[i])
    ensures events[1 + |prepares|] == Decide
    ensures forall i :: 0 <= i < |commits| ==> events[2 + |prepares| + i] == CommitEvent(commits[i])
    ensures events[2 + |prepares| + |commits|] == CommitNext(false, Stored)
    ensures events[3 + |prepares| + |commits|] == LeaderStore(outcome)
    ensures forall i :: 1 <= i < |events| ==> !events[i].Begin? && !events[i].PullAt?
  {
    [Begin(key, data)]
    + seq(|prepares|, i requires 0 <= i < |prepares| => PrepareEvent(prepares[i]))
    + [Decide]
    + seq(|commits|, i requires 0 <= i < |commits| => CommitEvent(commits[i]))
    + [CommitNext(false, Stored), LeaderStore(outcome)]
  }

  lemma RunNone(s: Cluster)
    requires WellFormed(s)
    ensures Run(s, []) == s
  {
  }

  ghost function Advance(s0: Cluster, s: Cluster, all: seq<Event>, k: nat): (s': Cluster)
    requires WellFormed(s0) && k < |all| && s == Run(s0, all[..k])
    ensures WellFormed(s) && s' == Apply(s, all[k]) == Run(s0, all[..k + 1])
  {
    RunThen(s0, all[..k], all[k]);
    assert all[..k] + [all[k]] == all[..k + 1];
    Apply(s, all[k])
  }

  /** Once the upload has ended, its remaining events change nothing. */
  lemma {:induction false} RestIgnored(s0: Cluster, s: Cluster, all: seq<Event>, k: nat)
    requires WellFormed(s0) && k <= |all| && s == Run(s0, all[..k]) && s.upload.phase == Idle
    requires forall i :: k <= i < |all| ==> !all[i].Begin? && !all[i].PullAt?
    ensures Run(s0, all) == s
    decreases |all| - k
  {
    hide Run;
    if k < |all| {
      var s' := Advance(s0, s, all, k);
      RestIgnored(s0, s', all, k + 1);
    } else {
      assert all[..k] == all;
    }
  }

  // ---- What a reply means, whatever happens besides ----

  predicate NoBegin(events: seq<Event>) {
    forall k :: 0 <= k < |events| ==> !events[k].Begin?
  }

  /** An upload of entry e that found the leader as `was`: while it runs, the leader is as it
      was; afterwards, only the success reply means that the entry went in, and only a key that
      had been there is answered so. */
  predicate Uploading(s: Cluster, was: Master, e: LogEntry)
    requires WellFormed(s)
  {
    var known := e.key in Replay(LogOf(was));
    if s.upload.phase != Idle then
      s.reply == NoReply && s.masters[s.leader] == was && !known && s.upload.entry == e && s.upload.id == ToId(|was.oplog|)
    else
      && s.reply in {Existed, Rejected, PutFailed, UploadOk}
      && (s.reply == Existed <==> known)
      && if s.reply == UploadOk then Holds(s.masters[s.leader], LogOf(was) + [e]) else s.masters[s.leader] == was
  }

  lemma UploadBegins(s: Cluster, key: string, data: FileInfo)
    requires WellFormed(s) && s.upload.phase == Idle && Sound(s.masters[s.leader])
    requires |s.masters[s.leader].oplog| + 1 < ID_COUNT
    ensures Uploading(Apply(s, Begin(key, data)), s.masters[s.leader], LogEntry(UPLOAD_FILE, key, data))
  {
    DenseNextId(LeaderLog(s));
    hide ToId, Replay, TableOf;
  }

  lemma UploadStep(s: Cluster, ev: Event, was: Master, e: LogEntry)
    requires WellFormed(s) && Sound(was) && |was.oplog| + 1 < ID_COUNT && e.opType == UPLOAD_FILE
    requires Uploading(s, was, e) && !ev.Begin?
    ensures Uploading(Apply(s, ev), was, e)
  {
    hide ToId, Holds, Replay, Prepare, Commit, StoreEntry;
    if ev.LeaderStore? && s.upload.phase == Storing {
      StoreAtEnd(was, LogOf(was), e, ev.outcome);
    }
  }

  lemma {:induction false} UploadRuns(s: Cluster, events: seq<Event>, was: Master, e: LogEntry)
    requires WellFormed(s) && Sound(was) && |was.oplog| + 1 < ID_COUNT && e.opType == UPLOAD_FILE
    requires Uploading(s, was, e) && NoBegin(events)
    ensures Uploading(Run(s, events), was, e)
    decreases events
  {
    if events != [] {
      UploadStep(s, events[0], was, e);
      hide Uploading, Apply, Sound;
      UploadRuns(Apply(s, events[0]), events[1..], was, e);
    }
  }

  /** In every run from the beginning of an upload to the next one, with any interleaving, loss
      and storage failure: once the upload is over, its reply is UploadOk if and only if the
      leader has gained exactly this entry, and Existed if and only if the key was in the replay
      of the leader's log; with any other reply than UploadOk the leader is as it was. */
  lemma ReplyMeans(s0: Cluster, key: string, data: FileInfo, rest: seq<Event>)
    requires WellFormed(s0) && s0.upload.phase == Idle && Sound(s0.masters[s0.leader]) && NoBegin(rest)
    requires |s0.masters[s0.leader].oplog| + 1 < ID_COUNT
    ensures var s, was := Run(s0, [Begin(key, data)] + rest), s0.masters[s0.leader];
            s.upload.phase == Idle ==>
              && s.reply in {Existed, Rejected, PutFailed, UploadOk}
              && (s.reply == UploadOk <==> Holds(s.masters[s.leader], LogOf(was) + [LogEntry(UPLOAD_FILE, key, data)]))
              && (s.reply == Existed <==> key in Replay(LogOf(was)))
              && (s.reply != UploadOk ==> s.masters[s.leader] == was)
  {
    var was, e := s0.masters[s0.leader], LogEntry(UPLOAD_FILE, key, data);
    var all := [Begin(key, data)] + rest;
    assert all[1..] == rest;
    UploadBegins(s0, key, data);
    UploadRuns(Apply(s0, all[0]), rest, was, e);
    hide Apply, Replay, ToId;
    assert |LogOf(was) + [e]| == |was.oplog| + 1;
  }

  /** And in a legal run nobody holds an entry under the id of an upload that was not answered
      with UploadOk. */
  lemma RefusedLeavesNoRow(s0: Cluster, key: string, data: FileInfo, rest: seq<Event>)
    requires Inv(s0) && s0.upload.phase == Idle && NoBegin(rest) && LegalRun(s0, [Begin(key, data)] + rest)
    ensures var s, id := Run(s0, [Begin(key, data)] + rest), NextId(s0.masters[s0.leader].oplog);
            s.upload.phase == Idle && s.reply != UploadOk ==>
              forall i :: 0 <= i < |s.masters| ==> !Exists(s.masters[i].oplog, id)
  {
    var all := [Begin(key, data)] + rest;
    var s, was := Run(s0, all), s0.masters[s0.leader];
    RunKeeps(s0, all);
    MasterWithinAgreed(s0, s0.leader);
    HoldsIsSound(was, LeaderLog(s0));
    ReplyMeans(s0, key, data, rest);
    if s.upload.phase == Idle && s.reply != UploadOk {
      DenseNextId(LeaderLog(s0));
      forall i | 0 <= i < |s.masters| ensures !Exists(s.masters[i].oplog, ToId(|was.oplog|)) {
        NoRowAbove(s, i);
      }
    }
  }

  lemma NoRowAbove(s: Cluster, i: nat)
    requires Inv(s) && s.upload.phase == Idle && i < |s.masters| && |s.masters[s.leader].oplog| < ID_COUNT
    ensures !Exists(s.masters[i].oplog, ToId(|s.masters[s.leader].oplog|))
  {
    MasterWithinAgreed(s, i);
    hide ToId, Replay, Inv;
    var t, n := s.masters[i].oplog, |s.masters[s.leader].oplog|;
    forall k | 0 <= k < |t| ensures t[k].id != ToId(n) {
      ToIdOrder(k, n);
    }
  }

  // ---- The vote ----

  /** Master i is not the leader, its prepare succeeds in the state it has at the beginning, and
      its "ok" arrives. */
  predicate Acknowledges(s0: Cluster, e: LogEntry, i: nat, c: PrepareCall)
    requires WellFormed(s0) && i < |s0.masters|
  {
    var leader := s0.masters[s0.leader].oplog;
    i != s0.leader && c.delivered && c.answered
    && Prepare(s0.masters[i], NextId(leader), e, leader, c.calls, c.outcomes).1
  }

  function Acknowledging(s0: Cluster, e: LogEntry, prepares: seq<PrepareCall>, k: nat): set<nat>
    requires WellFormed(s0) && k <= |prepares| == |s0.masters|
  {
    set i: nat | i < k && Acknowledges(s0, e, i, prepares[i])
  }

  lemma OneMoreAcknowledging(s0: Cluster, e: LogEntry, prepares: seq<PrepareCall>, k: nat)
    requires WellFormed(s0) && k < |prepares| == |s0.masters|
    ensures |Acknowledging(s0, e, prepares, k + 1)|
            == |Acknowledging(s0, e, prepares, k)| + if Acknowledges(s0, e, k, prepares[k]) then 1 else 0
  {
    hide Acknowledges;
    var now, next := Acknowledging(s0, e, prepares, k), Acknowledging(s0, e, prepares, k + 1);
    if Acknowledges(s0, e, k, prepares[k]) {
      assert next == now + {k};
    } else {
      assert next == now;
    }
  }

  /** After the prepares of the masters below k. */
  predicate Asked(s0: Cluster, s: Cluster, e: LogEntry, prepares: seq<PrepareCall>, k: nat)
    requires WellFormed(s0) && k <= |prepares| == |s0.masters|
  {
    && WellFormed(s) && s.leader == s0.leader && |s.masters| == |s0.masters|
    && s.upload.phase == Preparing && s.upload.next == k
    && s.upload.id == NextId(s0.masters[s0.leader].oplog) && s.upload.entry == e
    && s.upload.tpCnt == 1 + |Acknowledging(s0, e, prepares, k)|
    && s.masters[s.leader] == s0.masters[s0.leader]
    && forall i :: k <= i < |s.masters| ==> s.masters[i] == s0.masters[i]
  }

  lemma AskNext(s0: Cluster, s: Cluster, e: LogEntry, prepares: seq<PrepareCall>, k: nat)
    requires WellFormed(s0) && k < |prepares| == |s0.masters| && Asked(s0, s, e, prepares, k)
    ensures Asked(s0, Apply(s, PrepareEvent(prepares[k])), e, prepares, k + 1)
  {
    OneMoreAcknowledging(s0, e, prepares, k);
    hide Acknowledging, NextId;
  }

  /** These prepares are sent right after the beginning. */
  predicate PreparesAt(all: seq<Event>, prepares: seq<PrepareCall>) {
    1 + |prepares| <= |all| && forall i :: 0 <= i < |prepares| ==> all[1 + i] == PrepareEvent(prepares[i])
  }

  lemma AskedNext(s0: Cluster, all: seq<Event>, e: LogEntry, prepares: seq<PrepareCall>, k: nat)
    requires WellFormed(s0) && k < |prepares| == |s0.masters| && 1 + |prepares| <= |all|
    requires all[1 + k] == PrepareEvent(prepares[k]) && Asked(s0, Run(s0, all[..1 + k]), e, prepares, k)
    ensures Asked(s0, Run(s0, all[..1 + k + 1]), e, prepares, k + 1)
  {
    hide Run, Asked, PrepareEvent, Apply;
    AskNext(s0, Run(s0, all[..1 + k]), e, prepares, k);
    var s := Advance(s0, Run(s0, all[..1 + k]), all, 1 + k);
  }

  lemma {:induction false} AskUpTo(s0: Cluster, all: seq<Event>, e: LogEntry, prepares: seq<PrepareCall>, k: nat)
    requires WellFormed(s0) && k <= |prepares| == |s0.masters| && PreparesAt(all, prepares)
    requires Asked(s0, Run(s0, all[..1]), e, prepares, 0)
    ensures Asked(s0, Run(s0, all[..1 + k]), e, prepares, k)
  {
    hide Run, Asked, PrepareEvent;
    if k > 0 {
      AskUpTo(s0, all, e, prepares, k - 1);
      assert all[1 + (k - 1)] == PrepareEvent(prepares[k - 1]);
      AskedNext(s0, all, e, prepares, k - 1);
    }
  }

  lemma {:induction false} CommitUpTo(s0: Cluster, all: seq<Event>, base: nat, commits: seq<CommitCall>, k: nat)
    requires WellFormed(s0) && k <= |commits| == |s0.masters| && base + |commits| <= |all|
    requires forall i :: 0 <= i < |commits| ==> all[base + i] == CommitEvent(commits[i])
    requires var s := Run(s0, all[..base]); s.upload.phase == Committing && s.upload.next == 0
    ensures var s := Run(s0, all[..base + k]); s.upload.phase == Committing && s.upload.next == k
  {
    if k > 0 {
      hide Run, Commit;
      CommitUpTo(s0, all, base, commits, k - 1);
      assert all[base + (k - 1)] == CommitEvent(commits[k - 1]);
      var s := Advance(s0, Run(s0, all[..base + k - 1]), all, base + k - 1);
    }
  }

  /** Is the upload voted in: more than half of all masters, the leader included. */
  predicate VotedIn(s0: Cluster, e: LogEntry, prepares: seq<PrepareCall>)
    requires WellFormed(s0) && |prepares| == |s0.masters|
  {
    2 * (1 + |Acknowledging(s0, e, prepares, |prepares|)|) > |s0.masters|
  }

  /** After the vote on a new key. */
  lemma VoteDecides(s0: Cluster, s: Cluster, e: LogEntry, prepares: seq<PrepareCall>)
    requires WellFormed(s0) && |prepares| == |s0.masters| && Asked(s0, s, e, prepares, |prepares|)
    ensures var s' := Apply(s, Decide);
            if VotedIn(s0, e, prepares) then s'.upload.phase == Committing && s'.upload.next == 0
            else s'.upload.phase == Idle && s'.reply == Rejected
  {
    hide Acknowledging;
  }

  /** What an uninterrupted upload answers: Existed for a known key, else Rejected unless the
      leader and the masters that acknowledge are a majority, else what the leader's put says. */
  lemma ReplyOfUpload(s0: Cluster, key: string, data: FileInfo, prepares: seq<PrepareCall>, commits: seq<CommitCall>,
                      outcome: StoreOutcome)
    requires WellFormed(s0) && s0.upload.phase == Idle && |prepares| == |commits| == |s0.masters|
    ensures var s := Run(s0, UploadEvents(key, data, prepares, commits, outcome));
            && s.upload.phase == Idle
            && s.reply == if key in s0.masters[s0.leader].userdata then Existed
                          else if !VotedIn(s0, LogEntry(UPLOAD_FILE, key, data), prepares) then Rejected
                          else if outcome == Stored then UploadOk else PutFailed
  {
    hide Run, UploadEvents, NextId, VotedIn, Asked;
    var all := UploadEvents(key, data, prepares, commits, outcome);
    RunNone(s0);
    var s := Advance(s0, s0, all, 0);
    if key in s0.masters[s0.leader].userdata {
      RestIgnored(s0, s, all, 1);
    } else {
      NobodyYet(s0, s, LogEntry(UPLOAD_FILE, key, data), prepares);
      hide Apply;
      ReplyForNewKey(s0, all, LogEntry(UPLOAD_FILE, key, data), prepares, commits, outcome);
    }
  }

  lemma ReplyForNewKey(s0: Cluster, all: seq<Event>, e: LogEntry, prepares: seq<PrepareCall>, commits: seq<CommitCall>,
                       outcome: StoreOutcome)
    requires WellFormed(s0) && |prepares| == |commits| == |s0.masters| && |all| >= 1
    requires all == UploadEvents(e.key, e.data, prepares, commits, outcome) && Asked(s0, Run(s0, all[..1]), e, prepares, 0)
    ensures var s := Run(s0, all);
            && s.upload.phase == Idle
            && s.reply == if !VotedIn(s0, e, prepares) then Rejected else if outcome == Stored then UploadOk else PutFailed
  {
    hide Run, UploadEvents, VotedIn, Asked, Apply;
    var n := |s0.masters|;
    AskUpTo(s0, all, e, prepares, n);
    AfterVote(s0, all, e, prepares, n);
    if VotedIn(s0, e, prepares) {
      CommitUpTo(s0, all, 2 + n, commits, n);
      Finish(s0, all, outcome);
    } else {
      RestIgnored(s0, Run(s0, all[..2 + n]), all, 2 + n);
    }
  }

  lemma AfterVote(s0: Cluster, all: seq<Event>, e: LogEntry, prepares: seq<PrepareCall>, n: nat)
    requires WellFormed(s0) && n == |prepares| == |s0.masters| && 2 + n <= |all| && all[1 + n] == Decide
    requires Asked(s0, Run(s0, all[..1 + n]), e, prepares, n)
    ensures var s := Run(s0, all[..2 + n]);
            if VotedIn(s0, e, prepares) then s.upload.phase == Committing && s.upload.next == 0
            else s.upload.phase == Idle && s.reply == Rejected
  {
    hide Run, VotedIn, Asked, Apply;
    VoteDecides(s0, Run(s0, all[..1 + n]), e, prepares);
    var s := Advance(s0, Run(s0, all[..1 + n]), all, 1 + n);
  }

  /** The last two events, when all commits are sent. */
  lemma Finish(s0: Cluster, all: seq<Event>, outcome: StoreOutcome)
    requires WellFormed(s0) && |all| >= 2
    requires all[|all| - 2] == CommitNext(false, Stored) && all[|all| - 1] == LeaderStore(outcome)
    requires var s := Run(s0, all[..|all| - 2]); s.upload.phase == Committing && s.upload.next == |s0.masters|
    ensures var s := Run(s0, all);
            s.upload.phase == Idle && s.reply == if outcome == Stored then UploadOk else PutFailed
  {
    hide Run, StoreEntry;
    var s := Advance(s0, Run(s0, all[..|all| - 2]), all, |all| - 2);
    s := Advance(s0, s, all, |all| - 1);
    assert all[..|all|] == all;
  }

  lemma NobodyYet(s0: Cluster, s: Cluster, e: LogEntry, prepares: seq<PrepareCall>)
    requires WellFormed(s0) && s0.upload.phase == Idle && |prepares| == |s0.masters| && e.opType == UPLOAD_FILE
    requires e.key !in s0.masters[s0.leader].userdata && s == Apply(s0, Begin(e.key, e.data))
    ensures Asked(s0, s, e, prepares, 0)
  {
    assert Acknowledging(s0, e, prepares, 0) == {};
    hide Acknowledging, NextId;
  }

  /** All of it for one uninterrupted upload. */
  lemma UploadMeans(s0: Cluster, key: string, data: FileInfo, prepares: seq<PrepareCall>, commits: seq<CommitCall>,
                    outcome: StoreOutcome)
    requires WellFormed(s0) && s0.upload.phase == Idle && |prepares| == |commits| == |s0.masters|
    ensures var all, e := UploadEvents(key, data, prepares, commits, outcome), LogEntry(UPLOAD_FILE, key, data);
            var s, was := Run(s0, all), s0.masters[s0.leader];
            Sound(was) && |was.oplog| + 1 < ID_COUNT ==>
              && (s.reply == UploadOk <==> Holds(s.masters[s.leader], LogOf(was) + [e]))
              && (s.reply == Existed <==> key in Replay(LogOf(was)))
              && (s.reply == Rejected <==> key !in Replay(LogOf(was)) && !VotedIn(s0, e, prepares))
              && (s.reply != UploadOk ==> s.masters[s.leader] == was)
              && (s.reply != UploadOk && Inv(s0) && LegalRun(s0, all) ==>
                    forall i :: 0 <= i < |s.masters| ==> !Exists(s.masters[i].oplog, NextId(was.oplog)))
  {
    var all, was := UploadEvents(key, data, prepares, commits, outcome), s0.masters[s0.leader];
    ReplyOfUpload(s0, key, data, prepares, commits, outcome);
    if Sound(was) && |was.oplog| + 1 < ID_COUNT {
      assert all == [Begin(key, data)] + all[1..];
      assert NoBegin(all[1..]);
      hide Run, UploadEvents, Inv, LegalRun, Exists, VotedIn, ToId, Replay;
      ReplyMeans(s0, key, data, all[1..]);
      if Inv(s0) && LegalRun(s0, all) {
        RefusedLeavesNoRow(s0, key, data, all[1..]);
      }
    }
  }

  // ---- Where an upload ends at each master ----

  lemma {:induction false} LegalAt(s: Cluster, events: seq<Event>, k: nat)
    requires WellFormed(s) && LegalRun(s, events) && k <= |events|
    ensures LegalRun(s, events[..k])
    ensures k < |events| ==> Legal(Run(s, events[..k]), events[k])
    decreases events
  {
    if k > 0 {
      assert events[..k][1..] == events[1..][..k - 1];
      LegalAt(Apply(s, events[0]), events[1..], k - 1);
    }
  }

  lemma InvAt(s: Cluster, events: seq<Event>, k: nat)
    requires Inv(s) && LegalRun(s, events) && k <= |events|
    ensures Inv(Run(s, events[..k]))
    ensures k < |events| ==> Legal(Run(s, events[..k]), events[k])
  {
    LegalAt(s, events, k);
    hide Run, LegalRun, Inv, Legal;
    RunKeeps(s, events[..k]);
  }

  lemma InvAfter(s: Cluster, events: seq<Event>, k: nat)
    requires Inv(s) && LegalRun(s, events) && k <= |events|
    ensures Inv(Run(s, events[..k]))
  {
    hide Run, LegalRun, Inv, Legal;
    InvAt(s, events, k);
  }

  /** The other masters below k that get the commit and store the entry. */
  function Storers(commits: seq<CommitCall>, leader: nat, k: nat): set<nat>
    requires k <= |commits|
  {
    set i: nat | i < k && i != leader && commits[i].delivered && commits[i].outcome == Stored
  }

  lemma StoresOneMore(commits: seq<CommitCall>, leader: nat, k: nat)
    requires k < |commits|
    ensures Storers(commits, leader, k + 1) == Storers(commits, leader, k)
              + if k != leader && commits[k].delivered && commits[k].outcome == Stored then {k} else {}
  {
  }

  /** In the middle of the commits of a legal run. */
  predicate Committed(s: Cluster, commits: seq<CommitCall>, k: nat)
    requires WellFormed(s) && k <= |commits|
  {
    s.upload.phase == Committing && s.upload.next == k && s.upload.committed == Storers(commits, s.leader, k)
  }

  lemma CommitStep(s: Cluster, commits: seq<CommitCall>, k: nat)
    requires Inv(s) && k < |commits| == |s.masters| && Committed(s, commits, k) && Legal(s, CommitEvent(commits[k]))
    ensures Committed(Apply(s, CommitEvent(commits[k])), commits, k + 1)
  {
    StoresOneMore(commits, s.leader, k);
    if k != s.leader && commits[k].delivered {
      assert IsCopy(s, k, LeaderLog(s));
      CommitAfterPrepare(s.masters[k], LeaderLog(s), s.upload.entry, commits[k].outcome);
    }
    hide Inv, Holds, Commit, Storers, ToId;
  }

  /** These commits are sent from event `base` on. */
  predicate CommitsAt(all: seq<Event>, base: nat, commits: seq<CommitCall>) {
    base + |commits| <= |all| && forall i :: 0 <= i < |commits| ==> all[base + i] == CommitEvent(commits[i])
  }

  lemma CommitAt(all: seq<Event>, base: nat, commits: seq<CommitCall>, k: nat)
    requires CommitsAt(all, base, commits) && k < |commits|
    ensures base + k < |all| && all[base + k] == CommitEvent(commits[k])
  {
  }

  lemma CommittedNext(s0: Cluster, all: seq<Event>, base: nat, commits: seq<CommitCall>, k: nat)
    requires Inv(s0) && LegalRun(s0, all) && k < |commits| == |s0.masters| && CommitsAt(all, base, commits)
    requires Committed(Run(s0, all[..base + k]), commits, k)
    ensures Committed(Run(s0, all[..base + k + 1]), commits, k + 1)
  {
    CommitAt(all, base, commits, k);
    hide Run, LegalRun, Committed, CommitEvent, Inv, Legal, Apply, CommitsAt;
    InvAt(s0, all, base + k);
    var s := Run(s0, all[..base + k]);
    CommitStep(s, commits, k);
    var s' := Advance(s0, s, all, base + k);
  }

  lemma {:induction false} CommittedUpTo(s0: Cluster, all: seq<Event>, base: nat, commits: seq<CommitCall>, k: nat)
    requires Inv(s0) && LegalRun(s0, all) && k <= |commits| == |s0.masters| && CommitsAt(all, base, commits)
    requires Committed(Run(s0, all[..base]), commits, 0)
    ensures Committed(Run(s0, all[..base + k]), commits, k)
  {
    hide Run, LegalRun, Committed, Inv;
    assert |all| >= base + |commits|;
    hide CommitsAt;
    if k > 0 {
      CommittedUpTo(s0, all, base, commits, k - 1);
      CommittedNext(s0, all, base, commits, k - 1);
    }
  }

  /** The leader and the entry are what they were at the beginning, until the leader's put. */
  lemma LeaderWaits(s0: Cluster, key: string, data: FileInfo, all: seq<Event>, k: nat)
    requires Inv(s0) && s0.upload.phase == Idle && 1 <= k <= |all| && all[0] == Begin(key, data) && NoBegin(all[1..])
    requires |s0.masters[s0.leader].oplog| + 1 < ID_COUNT && Run(s0, all[..k]).upload.phase != Idle
    ensures var s := Run(s0, all[..k]);
            s.leader == s0.leader && s.masters[s.leader] == s0.masters[s0.leader] && s.upload.entry == LogEntry(UPLOAD_FILE, key, data)
  {
    var part := all[..k];
    assert part[1..] == all[1..][..k - 1];
    HoldsIsSound(s0.masters[s0.leader], LeaderLog(s0));
    UploadBegins(s0, key, data);
    UploadRuns(Apply(s0, part[0]), part[1..], s0.masters[s0.leader], LogEntry(UPLOAD_FILE, key, data));
  }

  /** The shape of one upload's events. */
  predicate OneUpload(all: seq<Event>, e: LogEntry, prepares: seq<PrepareCall>, commits: seq<CommitCall>) {
    && |all| == 4 + |prepares| + |commits| && e.opType == UPLOAD_FILE
    && all[0] == Begin(e.key, e.data) && NoBegin(all[1..])
    && PreparesAt(all, prepares) && all[1 + |prepares|] == Decide && CommitsAt(all, 2 + |prepares|, commits)
  }

  lemma IsOneUpload(e: LogEntry, prepares: seq<PrepareCall>, commits: seq<CommitCall>, outcome: StoreOutcome)
    requires e.opType == UPLOAD_FILE
    ensures OneUpload(UploadEvents(e.key, e.data, prepares, commits, outcome), e, prepares, commits)
  {
    hide UploadEvents, PrepareEvent, CommitEvent;
  }

  /** When all commits of a legal run are sent. */
  lemma CommitsSent(s0: Cluster, all: seq<Event>, e: LogEntry, prepares: seq<PrepareCall>, commits: seq<CommitCall>)
    requires Inv(s0) && s0.upload.phase == Idle && |prepares| == |commits| == |s0.masters|
    requires LegalRun(s0, all) && OneUpload(all, e, prepares, commits)
    requires e.key !in s0.masters[s0.leader].userdata && VotedIn(s0, e, prepares)
    ensures Committed(Run(s0, all[..2 + |prepares| + |commits|]), commits, |commits|)
  {
    hide Run, LegalRun, VotedIn, NoBegin, Inv, Committed, PreparesAt, CommitsAt;
    VotePassed(s0, all, e, prepares, commits);
    CommittedUpTo(s0, all, 2 + |prepares|, commits, |commits|);
  }

  /** Then, before the leader's own put, the leader has waited, and the invariant holds. */
  lemma LeaderWaited(s0: Cluster, all: seq<Event>, e: LogEntry, prepares: seq<PrepareCall>, commits: seq<CommitCall>, at: nat)
    requires Inv(s0) && s0.upload.phase == Idle && LegalRun(s0, all) && OneUpload(all, e, prepares, commits)
    requires at == 2 + |prepares| + |commits| && |commits| == |s0.masters|
    requires Committed(Run(s0, all[..at]), commits, |commits|)
    ensures var s := Run(s0, all[..at]);
            s.leader == s0.leader && s.masters[s.leader] == s0.masters[s0.leader] && s.upload.entry == e
  {
    RoomLeft(s0, all);
    hide Run, LegalRun, NoBegin, Inv, Committed, PreparesAt, CommitsAt, LeaderLog;
    StillRunning(s0, Run(s0, all[..at]), commits);
    LeaderWaits(s0, e.key, e.data, all, at);
  }

  lemma AllSent(s0: Cluster, all: seq<Event>, e: LogEntry, prepares: seq<PrepareCall>, commits: seq<CommitCall>, at: nat)
    requires Inv(s0) && s0.upload.phase == Idle && |prepares| == |commits| == |s0.masters|
    requires LegalRun(s0, all) && OneUpload(all, e, prepares, commits) && at == 2 + |prepares| + |commits| <= |all|
    requires e.key !in s0.masters[s0.leader].userdata && VotedIn(s0, e, prepares)
    ensures var s := Run(s0, all[..at]);
            && Inv(s) && Committed(s, commits, |commits|)
            && s.leader == s0.leader && s.masters[s.leader] == s0.masters[s0.leader] && s.upload.entry == e
  {
    hide Run, LegalRun, VotedIn, Inv, Committed, OneUpload;
    CommitsSent(s0, all, e, prepares, commits);
    LeaderWaited(s0, all, e, prepares, commits, at);
    InvAfter(s0, all, at);
  }

  lemma StillRunning(s0: Cluster, s: Cluster, commits: seq<CommitCall>)
    requires Inv(s0) && WellFormed(s) && Committed(s, commits, |commits|)
    ensures s.upload.phase != Idle && |s0.masters[s0.leader].oplog| == |LeaderLog(s0)|
  {
  }

  lemma Begun(s0: Cluster, all: seq<Event>, e: LogEntry, prepares: seq<PrepareCall>)
    requires WellFormed(s0) && s0.upload.phase == Idle && |prepares| == |s0.masters| && e.opType == UPLOAD_FILE
    requires 1 <= |all| && all[0] == Begin(e.key, e.data) && e.key !in s0.masters[s0.leader].userdata
    ensures Asked(s0, Run(s0, all[..1]), e, prepares, 0)
  {
    hide Run, Asked;
    RunNone(s0);
    var s1 := Advance(s0, s0, all, 0);
    NobodyYet(s0, s1, e, prepares);
  }

  lemma VotePassed(s0: Cluster, all: seq<Event>, e: LogEntry, prepares: seq<PrepareCall>, commits: seq<CommitCall>)
    requires Inv(s0) && s0.upload.phase == Idle && |prepares| == |commits| == |s0.masters| && e.opType == UPLOAD_FILE
    requires LegalRun(s0, all) && PreparesAt(all, prepares) && 2 + |prepares| <= |all|
    requires all[0] == Begin(e.key, e.data) && all[1 + |prepares|] == Decide
    requires e.key !in s0.masters[s0.leader].userdata && VotedIn(s0, e, prepares)
    ensures Committed(Run(s0, all[..2 + |prepares|]), commits, 0)
  {
    assert WellFormed(s0);
    hide Run, LegalRun, PreparesAt, Asked, VotedIn, Inv, Committed;
    VotedFor(s0, all, e, prepares);
    InvAfter(s0, all, 2 + |prepares|);
    NothingCommitted(Run(s0, all[..2 + |prepares|]), commits);
  }

  lemma VotedFor(s0: Cluster, all: seq<Event>, e: LogEntry, prepares: seq<PrepareCall>)
    requires WellFormed(s0) && s0.upload.phase == Idle && |prepares| == |s0.masters| && e.opType == UPLOAD_FILE
    requires PreparesAt(all, prepares) && 2 + |prepares| <= |all|
    requires all[0] == Begin(e.key, e.data) && all[1 + |prepares|] == Decide
    requires e.key !in s0.masters[s0.leader].userdata && VotedIn(s0, e, prepares)
    ensures var s := Run(s0, all[..2 + |prepares|]); s.upload.phase == Committing && s.upload.next == 0
  {
    hide Run, PreparesAt, Asked, VotedIn;
    Begun(s0, all, e, prepares);
    AskUpTo(s0, all, e, prepares, |prepares|);
    AfterVote(s0, all, e, prepares, |prepares|);
  }

  lemma RoomLeft(s0: Cluster, all: seq<Event>)
    requires WellFormed(s0) && all != [] && all[0].Begin? && LegalRun(s0, all)
    ensures |s0.masters[s0.leader].oplog| + 1 < ID_COUNT
  {
  }

  lemma NothingCommitted(s: Cluster, commits: seq<CommitCall>)
    requires Inv(s) && s.upload.phase == Committing && s.upload.next == 0
    ensures Committed(s, commits, 0)
  {
    assert Storers(commits, s.leader, 0) == {};
    hide Holds, ToId, Replay;
  }

  /** After a legal upload that was answered UploadOk, exactly the leader and the masters that
      got the commit and stored it have gained the entry; all others have an initial part of
      what the leader had before. */
  lemma WhoGainsTheEntry(s0: Cluster, key: string, data: FileInfo, prepares: seq<PrepareCall>, commits: seq<CommitCall>,
                         outcome: StoreOutcome, i: nat)
    requires Inv(s0) && s0.upload.phase == Idle && |prepares| == |commits| == |s0.masters| && i < |s0.masters|
    requires LegalRun(s0, UploadEvents(key, data, prepares, commits, outcome))
    requires Run(s0, UploadEvents(key, data, prepares, commits, outcome)).reply == UploadOk
    ensures var s, log := Run(s0, UploadEvents(key, data, prepares, commits, outcome)), LeaderLog(s0);
            if i == s0.leader || i in Storers(commits, s0.leader, |commits|)
            then Holds(s.masters[i], log + [LogEntry(UPLOAD_FILE, key, data)])
            else Prefix(s.masters[i], log, |s.masters[i].oplog|)
  {
    var all, n := UploadEvents(key, data, prepares, commits, outcome), |s0.masters|;
    ReplyOfUpload(s0, key, data, prepares, commits, outcome);
    IsOneUpload(LogEntry(UPLOAD_FILE, key, data), prepares, commits, outcome);
    hide OneUpload, UploadEvents;
    AllSent(s0, all, LogEntry(UPLOAD_FILE, key, data), prepares, commits, 2 + n + n);
    var s := Run(s0, all[..2 + n + n]);
    hide Run, LegalRun, UploadEvents, VotedIn, Apply, Inv, Committed, Holds, Prefix, Storers;
    LastSteps(s, commits, i);
    LastTwo(s0, all);
    assert all[|all| - 2] == CommitNext(false, Stored) && all[|all| - 1] == LeaderStore(Stored);
  }

  lemma LastTwo(s0: Cluster, all: seq<Event>)
    requires WellFormed(s0) && |all| >= 2
    ensures Run(s0, all) == Apply(Apply(Run(s0, all[..|all| - 2]), all[|all| - 2]), all[|all| - 1])
  {
    hide Run, Apply;
    var s := Advance(s0, Run(s0, all[..|all| - 2]), all, |all| - 2);
    s := Advance(s0, s, all, |all| - 1);
    assert all[..|all|] == all;
  }

  lemma LastChanges(s: Cluster)
    requires WellFormed(s) && s.upload.phase == Committing && s.upload.next == |s.masters|
    ensures Apply(Apply(s, CommitNext(false, Stored)), LeaderStore(Stored)).masters ==
            s.masters[s.leader := StoreEntry(s.masters[s.leader], s.upload.id, s.upload.entry, Stored)]
  {
    hide StoreEntry;
  }

  lemma LastSteps(s: Cluster, commits: seq<CommitCall>, i: nat)
    requires Inv(s) && i < |s.masters| == |commits| && Committed(s, commits, |commits|)
    ensures var s' := Apply(Apply(s, CommitNext(false, Stored)), LeaderStore(Stored));
            if i == s.leader || i in Storers(commits, s.leader, |commits|)
            then Holds(s'.masters[i], LeaderLog(s) + [s.upload.entry])
            else Prefix(s'.masters[i], LeaderLog(s), |s'.masters[i].oplog|)
  {
    AtEachMaster(s, i);
    LastChanges(s);
    StoreAtEnd(s.masters[s.leader], LeaderLog(s), s.upload.entry, Stored);
    hide Inv, Holds, Storers, StoreEntry, ToId, Apply, LeaderLog;
  }

  lemma AtEachMaster(s: Cluster, i: nat)
    requires Inv(s) && s.upload.phase == Committing && i < |s.masters|
    ensures Holds(s.masters[s.leader], LeaderLog(s)) && |LeaderLog(s)| + 1 < ID_COUNT && s.upload.entry.opType == UPLOAD_FILE
    ensures s.leader !in s.upload.committed && s.upload.id == ToId(|LeaderLog(s)|)
    ensures if i in s.upload.committed then Holds(s.masters[i], LeaderLog(s) + [s.upload.entry])
            else Prefix(s.masters[i], LeaderLog(s), |s.masters[i].oplog|)
  {
    hide Holds, ToId, Replay;
  }
}
