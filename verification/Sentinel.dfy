/** The sentinel of one master: the consensus loop of its sync thread and the handler that
    answers other masters' polls. Its rounds are the polls and tallies of the election. */
module Sentinel {
  import opened Election

  /** What a poll brought back: nothing, or the epoch and vote of the polled master. */
  datatype Reply = Lost | Answer(epoch: nat, vote: nat)

  /** The recorded votes of masters 1 .. n, as the election sees them. */
  function RecTo(votes: seq<nat>, voted: seq<bool>, n: nat): map<nat, nat>
    requires n < |votes| == |voted|
  {
    map j | j in Kbids(n) && voted[j] :: votes[j]
  }

  /** The votes that answered polls of masters 1 .. n report. */
  function HeardTo(replies: seq<Reply>, n: nat): map<nat, nat>
    requires n < |replies|
  {
    map j | j in Kbids(n) && replies[j].Answer? :: replies[j].vote
  }

  /** How far a round of polls gets: up to the first answer from another epoch. */
  function SameEpoch(replies: seq<Reply>, epoch: nat, from: nat): (k: nat)
    requires 1 <= from <= |replies|
    ensures from <= k <= |replies|
    ensures forall j :: from <= j < k && replies[j].Answer? ==> replies[j].epoch == epoch
    ensures k < |replies| ==> replies[k].Answer? && replies[k].epoch != epoch
    decreases |replies| - from
  {
    if from == |replies| || (replies[from].Answer? && replies[from].epoch != epoch) then from
    else SameEpoch(replies, epoch, from + 1)
  }

  /** The loop's "none found" is -1. */
  function OrMinusOne(c: nat): int {
    if c == 0 then -1 else c
  }

  // ---- Polls in a run of the election ----

  /** A node of the election as its sentinel shows it: the leader it names while it is looking
      for one does not matter. */
  predicate Shows(node: Node, seen: Node) {
    node == seen || (node.status == Consensus && node == seen.(leader := node.leader))
  }

  /** Within these events master i only polls; the others do anything. */
  predicate OnlyPolls(events: seq<Event>, i: nat) {
    forall k :: 0 <= k < |events| && events[k].i == i ==> events[k].Poll?
  }

  /** What the next poll of master i gets. */
  function ReplyTo(s: State, i: nat, answered: bool, epoch: nat): Reply
    requires IsMaster(s, i) && IsMaster(s, s[i].next)
  {
    var j := s[i].next;
    if s[j].started && (answered || j == i) then Answer(epoch, s[j].vote) else Lost
  }

  /** What the polls of master i in a run have got so far; it starts with master 1. */
  function Replies(s: State, events: seq<Event>, i: nat, epoch: nat): (replies: seq<Reply>)
    ensures |replies| >= 1
  {
    if events == [] then [Lost]
    else
      var front, ev := events[..|events| - 1], events[|events| - 1];
      var now, before := Run(s, front), Replies(s, front, i, epoch);
      if ev.Poll? && ev.i == i && Running(now, i) && IsMaster(now, now[i].next)
      then before + [ReplyTo(now, i, ev.answered, epoch)]
      else before
  }

  /** All replies are of the epoch and name masters, and the own vote is answered. */
  predicate GoodReplies(replies: seq<Reply>, n: nat, i: nat, epoch: nat, vote: nat) {
    && (forall j :: 0 <= j < |replies| && replies[j].Answer? ==> replies[j].epoch == epoch && 1 <= replies[j].vote <= n)
    && (i < |replies| ==> replies[i] == Answer(epoch, vote))
  }

  class KyrinMasterSentinel {
    const kbid: nat
    const masterCount: nat
    var status: Status
    var leader: nat
    var vote: nat
    var epoch: nat

    constructor (kbid: nat, masterCount: nat)
      ensures this.kbid == kbid && this.masterCount == masterCount
      ensures status == Consensus && leader == kbid && epoch == 0
    {
      this.kbid, this.masterCount := kbid, masterCount;
      epoch, leader, status := 0, kbid, Consensus;
    }

    /** What other masters can see of this one in the election. */
    function Visible(rec: map<nat, nat>, next: nat): Node
      reads this
    {
      Node(true, vote, rec, next, status, leader)
    }

    /** Entering the consensus block, the first time or after a lost leader: vote for oneself,
        with nothing recorded. */
    method EnterConsensus() returns (votes: seq<nat>, voted: seq<bool>)
      requires status == Consensus
      modifies this`vote
      ensures |votes| == |voted| == masterCount + 1
      ensures Visible(RecTo(votes, voted, masterCount), 1) == Entered(kbid).(leader := leader)
    {
      vote := kbid;
      votes := seq(masterCount + 1, _ => 0);
      voted := seq(masterCount + 1, _ => false);
    }

    /** One round of polls. Replies of this epoch are recorded; the first one of another
        epoch ends the round and is taken over. */
    method PollAll(votes0: seq<nat>, voted0: seq<bool>, replies: seq<Reply>) returns (votes: seq<nat>, voted: seq<bool>)
      requires |votes0| == |voted0| == |replies| == masterCount + 1
      modifies this`leader, this`epoch
      ensures |votes| == |voted| == masterCount + 1
      ensures var k := SameEpoch(replies, old(epoch), 1);
              && RecTo(votes, voted, masterCount) == RecTo(votes0, voted0, masterCount) + HeardTo(replies, k - 1)
              && (k > masterCount ==> epoch == old(epoch) && leader == old(leader))
              && (k <= masterCount ==> epoch == replies[k].epoch && leader == kbid)
    {
      hide RecTo, HeardTo, SameEpoch;
      ghost var rec0 := RecTo(votes0, voted0, masterCount);
      NothingHeard(rec0, replies);
      votes, voted := votes0, voted0;
      var i := 1;
      SameEpochStep(replies, epoch, masterCount + 1);
      while i <= masterCount
        invariant 1 <= i <= masterCount + 1 == |votes| == |voted|
        invariant SameEpoch(replies, old(epoch), 1) == SameEpoch(replies, epoch, i)
        invariant epoch == old(epoch) && leader == old(leader)
        invariant RecTo(votes, voted, masterCount) == rec0 + HeardTo(replies, i - 1)
      {
        SameEpochStep(replies, epoch, i);
        if replies[i].Answer? {
          if replies[i].epoch != epoch {
            leader := kbid;
            epoch := replies[i].epoch;
            break;
          }
          RecordAnswer(votes, voted, masterCount, i, replies[i].vote);
          OverAnswers(rec0, HeardTo(replies, i - 1), i, replies[i].vote);
          votes := votes[i := replies[i].vote];
          voted := voted[i := true];
        }
        HearOne(replies, i);
        i := i + 1;
      }
    }

    /** How many recorded votes each candidate has. */
    method CountVotes(votes: seq<nat>, voted: seq<bool>) returns (voteResult: seq<nat>)
      requires |votes| == |voted| == masterCount + 1
      requires forall j :: 1 <= j <= masterCount && voted[j] ==> votes[j] <= masterCount
      ensures |voteResult| == masterCount + 1
      ensures forall c :: 0 <= c <= masterCount ==> voteResult[c] == Count(RecTo(votes, voted, masterCount), c)
    {
      CountEmpty(RecTo(votes, voted, 0));
      hide Count, RecTo;
      voteResult := seq(masterCount + 1, _ => 0);
      for i := 1 to masterCount + 1
        invariant |voteResult| == masterCount + 1
        invariant forall c :: 0 <= c <= masterCount ==> voteResult[c] == Count(RecTo(votes, voted, i - 1), c)
      {
        ghost var rec := RecTo(votes, voted, i - 1);
        RecordOne(votes, voted, i);
        if voted[i] {
          ghost var was := voteResult;
          voteResult := voteResult[votes[i] := voteResult[votes[i]] + 1];
          forall c | 0 <= c <= masterCount ensures voteResult[c] == Count(rec[i := votes[i]], c) {
            assert was[c] == Count(rec, c);
            CountAdd(rec, i, votes[i], c);
          }
        }
      }
    }

    /** The last candidate with a majority, and the last with any vote. */
    method TallyVotes(votes: seq<nat>, voted: seq<bool>) returns (elected: int, maxCandidate: int)
      requires |votes| == |voted| == masterCount + 1
      requires forall j :: 1 <= j <= masterCount && voted[j] ==> votes[j] <= masterCount
      ensures elected == OrMinusOne(Elected(RecTo(votes, voted, masterCount), masterCount))
      ensures maxCandidate == OrMinusOne(MaxCandidate(RecTo(votes, voted, masterCount), masterCount))
    {
      hide Count, LastWith, RecTo;
      var voteResult := CountVotes(votes, voted);
      ghost var rec := RecTo(votes, voted, masterCount);
      LastStep(rec, 0, Majority(masterCount));
      LastStep(rec, 0, 1);
      elected, maxCandidate := -1, -1;
      for i := 1 to masterCount + 1
        invariant elected == OrMinusOne(LastWith(rec, i - 1, Majority(masterCount)))
        invariant maxCandidate == OrMinusOne(LastWith(rec, i - 1, 1))
      {
        LastStep(rec, i, Majority(masterCount));
        LastStep(rec, i, 1);
        if voteResult[i] >= masterCount / 2 + 1 {
          elected := i;
        }
        if voteResult[i] != 0 {
          maxCandidate := i;
        }
      }
    }

    /** The end of a round: move the vote, or settle on a leader. */
    method Settle(votes: seq<nat>, voted: seq<bool>) returns (again: bool)
      requires status == Consensus && |votes| == |voted| == masterCount + 1
      requires forall j :: 1 <= j <= masterCount && voted[j] ==> votes[j] <= masterCount
      modifies this`vote, this`leader, this`status
      ensures again ==> status == Consensus && leader == old(leader)
      ensures !again && MaxCandidate(RecTo(votes, voted, masterCount), masterCount) > 0 ==> status != Consensus
      ensures status != Consensus ==>
                && Count(RecTo(votes, voted, masterCount), leader) >= masterCount / 2 + 1
                && status == (if leader == kbid then Leader else Follower) && vote == old(vote)
      ensures var rec := RecTo(votes, voted, masterCount);
              var node := old(Visible(rec, masterCount + 1));
              if MaxCandidate(rec, masterCount) == 0 then !again && Visible(rec, masterCount + 1) == node
              else Visible(rec, if again then 1 else masterCount + 1) == Decide(node, kbid, masterCount)
    {
      var elected, maxCandidate := TallyVotes(votes, voted);
      if maxCandidate == -1 {
        return false;
      }
      if elected == -1 {
        vote := maxCandidate;
        return true;
      }
      leader := elected;
      status := if elected != kbid then Follower else Leader;
      return false;
    }

    /** The polls of a round within one epoch. Whatever the other masters do in between, if the
        replies are those that these polls get in a run of the election, they record what that
        run records. */
    method PollInEpoch(votes0: seq<nat>, voted0: seq<bool>, replies: seq<Reply>, ghost s: State, ghost events: seq<Event>)
      returns (votes: seq<nat>, voted: seq<bool>)
      requires |votes0| == |voted0| == masterCount + 1 == |s|
      requires RoundOfRun(s, events, kbid) && replies == Replies(s, events, kbid, epoch)
      requires Shows(s[kbid], Visible(RecTo(votes0, voted0, masterCount), 1)) && status == Consensus
      modifies this`leader, this`epoch
      ensures epoch == old(epoch) && leader == old(leader) && |votes| == |voted| == masterCount + 1
      ensures Shows(Run(s, events)[kbid], Visible(RecTo(votes, voted, masterCount), masterCount + 1))
    {
      RoundDone(s, events, kbid, epoch);
      hide RoundOfRun, Run, Replies, HeardTo, RecTo;
      SameEpochAll(replies, epoch, 1);
      votes, voted := PollAll(votes0, voted0, replies);
    }

    /** A whole round of such polls and the end of the round: it leaves the master where the run
        and its tally take it. */
    method Round(votes0: seq<nat>, voted0: seq<bool>, replies: seq<Reply>, ghost s: State, ghost events: seq<Event>)
      returns (votes: seq<nat>, voted: seq<bool>, again: bool)
      requires |votes0| == |voted0| == masterCount + 1 == |s|
      requires RoundOfRun(s, events, kbid) && replies == Replies(s, events, kbid, epoch)
      requires Shows(s[kbid], Visible(RecTo(votes0, voted0, masterCount), 1)) && status == Consensus
      modifies this`vote, this`leader, this`status, this`epoch
      ensures epoch == old(epoch) && |votes| == |voted| == masterCount + 1
      ensures Shows(Run(s, events + [Tally(kbid)])[kbid],
                    Visible(RecTo(votes, voted, masterCount), if again then 1 else masterCount + 1))
      ensures again <==> status == Consensus
    {
      TallyOfRun(s, events, kbid);
      ghost var node := Run(s, events)[kbid];
      hide RoundOfRun, Run, Replies, RecTo, Decide;
      votes, voted := PollInEpoch(votes0, voted0, replies, s, events);
      RecordedVotes(votes, voted, masterCount);
      DecideShows(node, Visible(RecTo(votes, voted, masterCount), masterCount + 1), kbid, masterCount);
      again := Settle(votes, voted);
    }

    /** Answering another master's poll. Only a higher epoch changes anything: then this
        master joins it and votes for itself again. */
    method GetVote(askedEpoch: nat, askedVote: nat) returns (reply: Reply)
      modifies this
      ensures reply == Answer(epoch, vote)
      ensures askedEpoch <= old(epoch) ==> epoch == old(epoch) && vote == old(vote) && status == old(status)
      ensures askedEpoch > old(epoch) ==> epoch == askedEpoch && vote == kbid && status == Consensus
      ensures leader == old(leader)
    {
      if askedEpoch > epoch {
        epoch := askedEpoch;
        vote := kbid;
        status := Consensus;
      }
      return Answer(epoch, vote);
    }
  }

  lemma RecordedVotes(votes: seq<nat>, voted: seq<bool>, n: nat)
    requires n < |votes| == |voted|
    ensures forall j :: 1 <= j <= n && voted[j] ==> j in RecTo(votes, voted, n) && RecTo(votes, voted, n)[j] == votes[j]
  {
  }

  /** When all answers are of the epoch, the round goes through to the last master. */
  lemma {:induction false} SameEpochAll(replies: seq<Reply>, epoch: nat, from: nat)
    requires 1 <= from <= |replies| && forall j :: from <= j < |replies| && replies[j].Answer? ==> replies[j].epoch == epoch
    ensures SameEpoch(replies, epoch, from) == |replies|
    decreases |replies| - from
  {
    if from < |replies| {
      SameEpochAll(replies, epoch, from + 1);
    }
  }

  lemma RecordAnswer(votes: seq<nat>, voted: seq<bool>, n: nat, i: nat, v: nat)
    requires 1 <= i <= n < |votes| == |voted|
    ensures RecTo(votes[i := v], voted[i := true], n) == RecTo(votes, voted, n)[i := v]
  {
  }

  lemma RecordOne(votes: seq<nat>, voted: seq<bool>, i: nat)
    requires 1 <= i < |votes| == |voted|
    ensures i !in RecTo(votes, voted, i - 1)
    ensures RecTo(votes, voted, i) ==
            if voted[i] then RecTo(votes, voted, i - 1)[i := votes[i]] else RecTo(votes, voted, i - 1)
  {
  }

  lemma NothingHeard(rec: map<nat, nat>, replies: seq<Reply>)
    requires replies != []
    ensures rec + HeardTo(replies, 0) == rec
  {
  }

  lemma HearOne(replies: seq<Reply>, i: nat)
    requires 1 <= i < |replies|
    ensures HeardTo(replies, i) ==
            if replies[i].Answer? then HeardTo(replies, i - 1)[i := replies[i].vote] else HeardTo(replies, i - 1)
  {
  }

  lemma OverAnswers(rec: map<nat, nat>, heard: map<nat, nat>, i: nat, v: nat)
    ensures (rec + heard)[i := v] == rec + heard[i := v]
  {
  }

  lemma SameEpochStep(replies: seq<Reply>, epoch: nat, i: nat)
    requires 1 <= i <= |replies|
    ensures SameEpoch(replies, epoch, i) ==
            if i == |replies| || (replies[i].Answer? && replies[i].epoch != epoch) then i
            else SameEpoch(replies, epoch, i + 1)
  {
  }

  lemma LastStep(rec: map<nat, nat>, n: nat, least: nat)
    ensures LastWith(rec, n, least) == if n == 0 || Count(rec, n) >= least then n else LastWith(rec, n - 1, least)
  {
  }

  lemma CountEmpty(rec: map<nat, nat>)
    requires rec == map[]
    ensures forall c :: Count(rec, c) == 0
  {
    assert forall c :: Voters(rec, c) == {};
  }

  /** One more voter adds one vote to its candidate and to nobody else. */
  lemma CountAdd(rec: map<nat, nat>, j: nat, v: nat, c: nat)
    requires j !in rec
    ensures Count(rec[j := v], c) == if c == v then Count(rec, c) + 1 else Count(rec, c)
  {
    hide Voters;
    VotersAdd(rec, j, v, c);
  }

  lemma VotersAdd(rec: map<nat, nat>, j: nat, v: nat, c: nat)
    requires j !in rec
    ensures j !in Voters(rec, c)
    ensures Voters(rec[j := v], c) == if c == v then Voters(rec, c) + {j} else Voters(rec, c)
  {
  }

  lemma HeardPrefix(replies: seq<Reply>, more: seq<Reply>, n: nat)
    requires n < |replies| && replies <= more
    ensures HeardTo(more, n) == HeardTo(replies, n)
  {
  }

  lemma AppendedRun(s: State, events: seq<Event>)
    requires events != []
    ensures var n := |events| - 1; Run(s, events) == Apply(Run(s, events[..n]), events[n])
  {
    var n := |events| - 1;
    RunThen(s, events[..n], events[n]);
    assert events == events[..n] + [events[n]];
  }

  /** One more event of the run: a poll of master i records what it gets, and anything else
      leaves master i as it is. */
  lemma PollRecords(s: State, ev: Event, i: nat, epoch: nat)
    requires IsMaster(s, i) && (ev.i == i ==> ev.Poll?)
    ensures var s' := Apply(s, ev);
            if ev.Poll? && ev.i == i && Running(s, i) && IsMaster(s, s[i].next) then
              var r := ReplyTo(s, i, ev.answered, epoch);
              s'[i] == s[i].(rec := if r.Answer? then s[i].rec[s[i].next := r.vote] else s[i].rec, next := s[i].next + 1)
            else s'[i] == s[i]
  {
  }

  lemma ReplyIsGood(s: State, i: nat, answered: bool, epoch: nat)
    requires Inv(s) && Running(s, i) && IsMaster(s, s[i].next)
    ensures var r := ReplyTo(s, i, answered, epoch);
            && (r.Answer? ==> r.epoch == epoch && 1 <= r.vote <= MasterCount(s))
            && (s[i].next == i ==> r == Answer(epoch, s[i].vote))
  {
    var j := s[i].next;
    assert NodeInv(s, j, s[j]);
  }

  lemma HearLast(rec: map<nat, nat>, before: seq<Reply>, r: Reply)
    requires |before| >= 1
    ensures var replies, so_far := before + [r], rec + HeardTo(before, |before| - 1);
            rec + HeardTo(replies, |before|) == if r.Answer? then so_far[|before| := r.vote] else so_far
  {
    hide HeardTo;
    var n, replies := |before|, before + [r];
    assert replies[n] == r;
    HeardPrefix(before, replies, n - 1);
    HearOne(replies, n);
    if r.Answer? {
      OverAnswers(rec, HeardTo(before, n - 1), n, r.vote);
    }
  }

  lemma GoodLast(before: seq<Reply>, r: Reply, n: nat, i: nat, epoch: nat, vote: nat)
    requires GoodReplies(before, n, i, epoch, vote)
    requires r.Answer? ==> r.epoch == epoch && 1 <= r.vote <= n
    requires |before| == i ==> r == Answer(epoch, vote)
    ensures GoodReplies(before + [r], n, i, epoch, vote)
  {
  }

  /** What is known of master i in the middle of a round that started in state s. */
  predicate RoundSoFar(s: State, now: State, replies: seq<Reply>, i: nat, epoch: nat) {
    && IsMaster(s, i) && |now| == |s| && 1 <= |replies| <= |s|
    && now[i] == s[i].(rec := s[i].rec + HeardTo(replies, |replies| - 1), next := |replies|)
    && GoodReplies(replies, MasterCount(s), i, epoch, s[i].vote)
  }

  lemma RoundStep(s: State, now: State, before: seq<Reply>, ev: Event, i: nat, epoch: nat)
    requires RoundSoFar(s, now, before, i, epoch) && Inv(now) && Running(s, i) && (ev.i == i ==> ev.Poll?)
    ensures RoundSoFar(s, Apply(now, ev),
                       if ev.i == i && IsMaster(now, now[i].next) then before + [ReplyTo(now, i, ev.answered, epoch)] else before,
                       i, epoch)
  {
    hide Inv, Apply, HeardTo, GoodReplies;
    PollRecords(now, ev, i, epoch);
    if ev.i == i && IsMaster(now, now[i].next) {
      ReplyIsGood(now, i, ev.answered, epoch);
      HearLast(s[i].rec, before, ReplyTo(now, i, ev.answered, epoch));
      GoodLast(before, ReplyTo(now, i, ev.answered, epoch), MasterCount(s), i, epoch, s[i].vote);
    }
  }

  /** Interleaved with any steps of the others, the polls of a round record exactly their
      replies. */
  lemma {:induction false} PollsRecord(s: State, events: seq<Event>, i: nat, epoch: nat)
    requires Inv(s) && Running(s, i) && s[i].next == 1 && OnlyPolls(events, i)
    ensures RoundSoFar(s, Run(s, events), Replies(s, events, i, epoch), i, epoch)
  {
    if events == [] {
      assert s[i].rec + HeardTo([Lost], 0) == s[i].rec;
    } else {
      var front, ev := events[..|events| - 1], events[|events| - 1];
      PollsRecord(s, front, i, epoch);
      RunKeeps(s, front);
      AppendedRun(s, events);
      var now, before := Run(s, front), Replies(s, front, i, epoch);
      RoundStep(s, now, before, ev, i, epoch);
      hide Run, Inv, Apply, HeardTo, GoodReplies, OnlyPolls;
      assert Running(now, i);
    }
  }

  /** The tally of a node does to what its sentinel shows what it does to the node. */
  lemma DecideShows(node: Node, seen: Node, i: nat, n: nat)
    requires Shows(node, seen) && node.status == Consensus && MaxCandidate(node.rec, n) != 0
    ensures Shows(Decide(node, i, n), Decide(seen, i, n))
  {
  }

  /** A run in which master i, looking for a leader, finishes a round of polls. */
  predicate RoundOfRun(s: State, events: seq<Event>, i: nat) {
    Inv(s) && Running(s, i) && s[i].next == 1 && OnlyPolls(events, i) && Run(s, events)[i].next == |s|
  }

  lemma RoundDone(s: State, events: seq<Event>, i: nat, epoch: nat)
    requires RoundOfRun(s, events, i)
    ensures var replies, n := Replies(s, events, i, epoch), MasterCount(s);
            && |replies| == |s|
            && (forall j :: 0 <= j <= n && replies[j].Answer? ==> replies[j].epoch == epoch)
            && Run(s, events)[i] == s[i].(rec := s[i].rec + HeardTo(replies, n), next := |s|)
  {
    PollsRecord(s, events, i, epoch);
    hide Run, HeardTo, Replies, Inv;
  }

  /** What the tally finds on record after a finished round. */
  lemma TallyOfRun(s: State, events: seq<Event>, i: nat)
    requires RoundOfRun(s, events, i)
    ensures var s', n := Run(s, events), MasterCount(s);
            && s'[i].status == Consensus && MaxCandidate(s'[i].rec, n) > 0
            && (forall j :: j in s'[i].rec ==> 1 <= s'[i].rec[j] <= n)
            && Run(s, events + [Tally(i)])[i] == Decide(s'[i], i, n)
  {
    RoundDone(s, events, i, 0);
    RunKeeps(s, events);
    RunThen(s, events, Tally(i));
    hide RoundOfRun, Run, HeardTo, LastWith, Count, Replies, Decide, NodeInv;
    var s' := Run(s, events);
    assert NodeInv(s', i, s'[i]);
    VotesNameMasters(s', i);
    var j := TallyMovesUp(s', i);
  }

  lemma VotesNameMasters(s: State, i: nat)
    requires IsMaster(s, i) && NodeInv(s, i, s[i]) && s[i].started
    ensures forall j :: j in s[i].rec ==> 1 <= s[i].rec[j] <= MasterCount(s)
  {
    hide Count;
    forall j | j in s[i].rec ensures 1 <= s[i].rec[j] <= MasterCount(s) {
      assert Given(s, j, s[i].rec[j]);
    }
  }
}
