/** The election among N masters within one epoch.

    Every master polls all masters in turn, remembers the last vote each one answered with
    (also across rounds), and tallies. Without a majority it moves its own vote to the
    highest candidate it knows of and polls again. Polls of different masters interleave
    freely and any reply may be lost, except that a master always answers itself. A reply is
    recorded where it is served: nothing but the poller's own next tally reads the record. */
module Election {
  import opened Sets

  datatype Status = Leader | Follower | Consensus

  /** `rec` holds the recorded votes; `next` is the master to poll next, one past the last
      when the tally is due. */
  datatype Node = Node(started: bool, vote: nat, rec: map<nat, nat>, next: nat, status: Status, leader: nat)

  /** The masters by kbid: index 0 is not used. */
  type State = s: seq<Node> | |s| >= 1 witness [Node(false, 0, map[], 1, Consensus, 0)]

  datatype Event = Start(i: nat) | Poll(i: nat, answered: bool) | Tally(i: nat)

  function MasterCount(s: State): nat {
    |s| - 1
  }

  function Majority(n: nat): nat {
    n / 2 + 1
  }

  // ---- The tally ----

  function Voters(rec: map<nat, nat>, c: nat): set<nat> {
    set j | j in rec && rec[j] == c
  }

  function Count(rec: map<nat, nat>, c: nat): nat {
    |Voters(rec, c)|
  }

  /** The last of the candidates 1 .. n with at least `least` recorded votes, or 0. */
  function LastWith(rec: map<nat, nat>, n: nat, least: nat): (c: nat)
    ensures c <= n
    ensures c > 0 ==> Count(rec, c) >= least
    ensures forall d :: c < d <= n ==> Count(rec, d) < least
  {
    if n == 0 || Count(rec, n) >= least then n else LastWith(rec, n - 1, least)
  }

  function Elected(rec: map<nat, nat>, n: nat): nat {
    LastWith(rec, n, Majority(n))
  }

  function MaxCandidate(rec: map<nat, nat>, n: nat): nat {
    LastWith(rec, n, 1)
  }

  // ---- Steps ----

  predicate IsMaster(s: State, i: nat) {
    1 <= i < |s|
  }

  predicate Running(s: State, i: nat) {
    IsMaster(s, i) && s[i].started && s[i].status == Consensus
  }

  function Entered(i: nat): Node {
    Node(true, i, map[], 1, Consensus, i)
  }

  /** What a master does with a finished round of polls. */
  function Decide(node: Node, i: nat, n: nat): Node {
    var c, e := MaxCandidate(node.rec, n), Elected(node.rec, n);
    if c == 0 then Entered(i)
    else if e == 0 then node.(vote := c, next := 1)
    else node.(leader := e, status := if e == i then Leader else Follower)
  }

  /** What a tally with some vote on record comes to: it settles exactly when somebody has a
      majority, on one who has it, as the leader exactly if that is the master itself; and
      otherwise it votes for the highest master that anybody voted for, and polls again. */
  lemma TallyMeans(node: Node, i: nat, n: nat)
    requires node.status == Consensus && exists c :: 1 <= c <= n && Count(node.rec, c) >= 1
    ensures var node' := Decide(node, i, n);
            && (node'.status != Consensus <==> exists c :: 1 <= c <= n && Count(node.rec, c) >= Majority(n))
            && (node'.status != Consensus ==>
                  && Count(node.rec, node'.leader) >= Majority(n) && 1 <= node'.leader <= n
                  && (node'.status == Leader <==> node'.leader == i) && node'.vote == node.vote)
            && (node'.status == Consensus ==>
                  && 1 <= node'.vote <= n && Count(node.rec, node'.vote) >= 1 && node'.next == 1
                  && forall d :: node'.vote < d <= n ==> Count(node.rec, d) == 0)
            && node'.rec == node.rec && node'.started == node.started
  {
    hide Count;
    var c :| 1 <= c <= n && Count(node.rec, c) >= 1;
  }

  function Apply(s: State, ev: Event): (s': State)
    ensures |s'| == |s|
  {
    match ev
    case Start(i) =>
      if !IsMaster(s, i) || s[i].started then s else s[i := Entered(i)]
    case Poll(i, answered) =>
      if !Running(s, i) || !IsMaster(s, s[i].next) then s
      else
        var j := s[i].next;
        var rec := if s[j].started && (answered || j == i) then s[i].rec[j := s[j].vote] else s[i].rec;
        s[i := s[i].(rec := rec, next := j + 1)]
    case Tally(i) =>
      if !Running(s, i) || s[i].next != |s| then s
      else s[i := Decide(s[i], i, MasterCount(s))]
  }

  function Init(n: nat): State {
    seq(n + 1, i => Node(false, 0, map[], 1, Consensus, 0))
  }

  function Run(s: State, events: seq<Event>): (s': State)
    ensures |s'| == |s|
    decreases events
  {
    if events == [] then s else Run(Apply(s, events[0]), events[1..])
  }

  lemma {:induction false} RunThen(s: State, events: seq<Event>, ev: Event)
    ensures Run(s, events + [ev]) == Apply(Run(s, events), ev)
    decreases events
  {
    var all := events + [ev];
    if events != [] {
      assert all[1..] == events[1..] + [ev];
      RunThen(Apply(s, events[0]), events[1..], ev);
    } else {
      assert Run(Apply(s, ev), all[1..]) == Apply(s, ev);
    }
  }

  // ---- Counting votes ----

  function Kbids(n: nat): (r: set<nat>)
    ensures |r| == n
    ensures forall k :: k in r <==> 1 <= k <= n
  {
    if n == 0 then {} else Kbids(n - 1) + {n}
  }

  lemma CountOne(rec: map<nat, nat>, j: nat)
    requires j in rec
    ensures Count(rec, rec[j]) >= 1
  {
    SubsetSize({j}, Voters(rec, rec[j]));
  }

  lemma CountTwo(rec: map<nat, nat>, i: nat, j: nat)
    requires i in rec && j in rec && i != j && rec[i] == rec[j]
    ensures Count(rec, rec[i]) >= 2
  {
    SubsetSize({i, j}, Voters(rec, rec[i]));
  }

  lemma VoterExists(rec: map<nat, nat>, c: nat) returns (j: nat)
    requires Count(rec, c) >= 1
    ensures j in rec && rec[j] == c
  {
    assert Voters(rec, c) != {};
    j :| j in Voters(rec, c);
  }

  /** A tally finds at most one candidate with a majority. */
  lemma MajorityUnique(rec: map<nat, nat>, n: nat, c: nat, d: nat)
    requires forall j :: j in rec ==> 1 <= j <= n
    requires Count(rec, c) >= Majority(n) && Count(rec, d) >= Majority(n)
    ensures c == d
  {
    if c != d {
      assert Voters(rec, c) !! Voters(rec, d);
      SubsetSize(Voters(rec, c) + Voters(rec, d), Kbids(n));
    }
  }

  /** Votes only move up, so a candidate's voters are among the masters up to it. */
  lemma VotersBelow(rec: map<nat, nat>, c: nat)
    requires forall j :: j in rec ==> 1 <= j <= rec[j]
    ensures Count(rec, c) <= c
  {
    SubsetSize(Voters(rec, c), Kbids(c));
  }

  // ---- The invariant, for any number of masters ----

  /** A vote v that master j has given at some time. */
  predicate Given(s: State, j: nat, v: nat) {
    1 <= j <= v < |s| && s[j].started && s[v].started && v <= s[j].vote
  }

  predicate RecordOk(s: State, rec: map<nat, nat>) {
    forall j :: j in rec ==> Given(s, j, rec[j])
  }

  predicate NodeInv(s: State, i: nat, node: Node) {
    if !node.started then node.status == Consensus
    else
      && Given(s, i, node.vote)
      && 1 <= node.next <= |s|
      && RecordOk(s, node.rec)
      && (i < node.next ==> i in node.rec && node.rec[i] == node.vote)
      && (node.status != Consensus ==> node.next == |s| && Count(node.rec, node.leader) >= Majority(MasterCount(s)))
      && (node.status != Consensus ==> (node.status == Leader <==> node.leader == i))
  }

  predicate Inv(s: State) {
    forall i {:trigger NodeInv(s, i, s[i])} :: 1 <= i < |s| ==> NodeInv(s, i, s[i])
  }

  predicate VotesKept(s: State, s': State) {
    |s'| == |s| && forall i :: 1 <= i < |s| && s[i].started ==> s'[i].started && s[i].vote <= s'[i].vote
  }

  /** What one master knows stays right when the others move on. */
  lemma KnowledgeStays(s: State, s': State, i: nat, node: Node)
    requires NodeInv(s, i, node) && VotesKept(s, s') && (node.started ==> s'[i].started && node.vote <= s'[i].vote)
    ensures NodeInv(s', i, node)
  {
    hide Count;
    if node.started {
      forall j | j in node.rec ensures Given(s', j, node.rec[j]) {
        assert Given(s, j, node.rec[j]);
      }
    }
  }

  lemma RecordKeys(s: State, rec: map<nat, nat>)
    requires RecordOk(s, rec)
    ensures forall j :: j in rec ==> 1 <= j <= rec[j] && j <= MasterCount(s)
  {
    forall j | j in rec ensures 1 <= j <= rec[j] && j <= MasterCount(s) {
      assert Given(s, j, rec[j]);
    }
  }

  /** A tally without a majority moves the vote to one that some master had given, and not
      down: the own vote is on record. */
  lemma TallyMovesUp(s: State, i: nat) returns (j: nat)
    requires IsMaster(s, i) && NodeInv(s, i, s[i]) && Running(s, i) && s[i].next == |s|
    ensures var c := MaxCandidate(s[i].rec, MasterCount(s));
            c >= s[i].vote > 0 && j in s[i].rec && s[i].rec[j] == c && Given(s, j, c)
  {
    hide Count;
    CountOne(s[i].rec, i);
    j := VoterExists(s[i].rec, MaxCandidate(s[i].rec, MasterCount(s)));
  }

  lemma ActorKeeps(s: State, ev: Event)
    requires IsMaster(s, ev.i) && NodeInv(s, ev.i, s[ev.i])
    requires ev.Poll? && IsMaster(s, s[ev.i].next) ==> NodeInv(s, s[ev.i].next, s[s[ev.i].next])
    ensures VotesKept(s, Apply(s, ev)) && NodeInv(Apply(s, ev), ev.i, Apply(s, ev)[ev.i])
  {
    hide Count, LastWith;
    var s', i := Apply(s, ev), ev.i;
    if ev.Poll? && Running(s, i) && IsMaster(s, s[i].next) {
      KnowledgeStays(s, s', i, s[i]);
    } else if ev.Tally? && Running(s, i) && s[i].next == |s| {
      var j := TallyMovesUp(s, i);
      KnowledgeStays(s, s', i, s[i]);
    }
  }

  lemma StepKeeps(s: State, ev: Event)
    requires Inv(s)
    ensures Inv(Apply(s, ev)) && VotesKept(s, Apply(s, ev))
  {
    var s', i := Apply(s, ev), ev.i;
    if IsMaster(s, i) {
      assert NodeInv(s, i, s[i]);
      if IsMaster(s, s[i].next) {
        assert NodeInv(s, s[i].next, s[s[i].next]);
      }
      ActorKeeps(s, ev);
      forall k | 1 <= k < |s| ensures NodeInv(s', k, s'[k]) {
        if k != i {
          hide NodeInv;
          assert NodeInv(s, k, s[k]);
          KnowledgeStays(s, s', k, s[k]);
        }
      }
    }
  }

  lemma {:induction false} RunKeeps(s: State, events: seq<Event>)
    requires Inv(s)
    ensures Inv(Run(s, events)) && VotesKept(s, Run(s, events))
    decreases events
  {
    hide Inv, Apply;
    if events != [] {
      StepKeeps(s, events[0]);
      RunKeeps(Apply(s, events[0]), events[1..]);
    }
  }

  /** In every run with any number of masters: a vote never goes down and is at least its
      owner's kbid; every vote in circulation names a master that had voted for itself; whoever
      is taken for the leader has a kbid above half the number of masters; and a master that has
      settled has a majority for that one on record, and leads itself exactly if it is the one. */
  lemma ElectionFacts(n: nat, before: seq<Event>, after: seq<Event>, i: nat)
    requires 1 <= i <= n && Run(Init(n), before)[i].started
    ensures var s, s' := Run(Init(n), before), Run(Run(Init(n), before), after);
            && i <= s[i].vote <= s'[i].vote <= n
            && s[s[i].vote].started
            && (forall j :: j in s[i].rec ==> 1 <= s[i].rec[j] <= n && s[s[i].rec[j]].started)
            && (s[i].status != Consensus ==> s[i].leader >= Majority(n) && Count(s[i].rec, s[i].leader) >= Majority(n))
            && (s[i].status == Leader <==> s[i].status != Consensus && s[i].leader == i)
            && (s[i].status == Follower <==> s[i].status != Consensus && s[i].leader != i)
  {
    RunKeeps(Init(n), before);
    var s := Run(Init(n), before);
    RunKeeps(s, after);
    var s' := Run(s, after);
    hide Run, Count, Init;
    assert NodeInv(s, i, s[i]) && NodeInv(s', i, s'[i]);
    forall j | j in s[i].rec ensures 1 <= s[i].rec[j] <= n && s[s[i].rec[j]].started {
      assert Given(s, j, s[i].rec[j]);
    }
    RecordKeys(s, s[i].rec);
    VotersBelow(s[i].rec, s[i].leader);
  }

  // ---- Safety with up to three masters ----

  /** What the recorded votes of earlier rounds keep, with three masters: once master 2 has
      recorded a vote of master 1 for it, master 1 leaves that vote only after master 2 did. */
  predicate ThreeInv(s: State) {
    |s| == 4 ==>
      && (s[1].started && s[1].vote == 2 ==> 2 in s[1].rec)
      && (s[2].started && 1 in s[2].rec && s[2].rec[1] == 2 && s[1].vote == 3 ==> s[2].vote == 3)
  }

  /** Master 1 leaves a vote for 2 only for 3, and only if master 2 votes 3 by then. */
  lemma MasterOneMoves(s: State)
    requires Inv(s) && ThreeInv(s) && |s| == 4 && Running(s, 1) && s[1].next == |s|
    ensures var s' := Apply(s, Tally(1));
            && (s'[1].vote == 2 ==> 2 in s'[1].rec)
            && (s[1].vote == 2 && s'[1].vote == 3 ==> s[2].vote == 3)
  {
    hide LastWith, Count;
    assert NodeInv(s, 1, s[1]);
    var rec := s[1].rec;
    var j := TallyMovesUp(s, 1);
    if s[1].vote == 2 {
      assert Given(s, 2, rec[2]) && NodeInv(s, 2, s[2]);
      if rec[2] == 2 {
        CountTwo(rec, 1, 2);
        assert Elected(rec, 3) != 0;
      }
    }
  }

  lemma ThreeStepKeeps(s: State, ev: Event)
    requires Inv(s) && ThreeInv(s)
    ensures ThreeInv(Apply(s, ev))
  {
    if |s| == 4 {
      hide LastWith, Count;
      assert NodeInv(s, 1, s[1]) && NodeInv(s, 2, s[2]);
      if s[2].started && 1 in s[2].rec {
        assert Given(s, 1, s[2].rec[1]);
      }
      if ev.i == 1 && ev.Tally? {
        if Running(s, 1) && s[1].next == |s| {
          MasterOneMoves(s);
        }
      } else if ev.i == 2 && ev.Tally? {
        StepKeeps(s, ev);
        assert NodeInv(Apply(s, ev), 2, Apply(s, ev)[2]);
      }
    }
  }

  lemma {:induction false} ThreeRunKeeps(s: State, events: seq<Event>)
    requires Inv(s) && ThreeInv(s)
    ensures Inv(Run(s, events)) && ThreeInv(Run(s, events))
    decreases events
  {
    hide Inv, ThreeInv, Apply;
    if events != [] {
      StepKeeps(s, events[0]);
      ThreeStepKeeps(s, events[0]);
      ThreeRunKeeps(Apply(s, events[0]), events[1..]);
    }
  }

  predicate IsLeader(s: State, i: nat) {
    IsMaster(s, i) && s[i].status == Leader
  }

  ghost predicate OneLeader(s: State) {
    forall i, j :: IsLeader(s, i) && IsLeader(s, j) ==> i == j
  }

  /** Whoever leads has its own kbid counted by a majority of masters not above it. */
  lemma LeaderKbid(s: State, i: nat)
    requires Inv(s) && IsLeader(s, i)
    ensures Majority(MasterCount(s)) <= Count(s[i].rec, i) <= i
    ensures s[i].started && s[i].rec.Keys >= {i} && s[i].rec[i] == s[i].vote
  {
    hide Count;
    assert NodeInv(s, i, s[i]);
    RecordKeys(s, s[i].rec);
    VotersBelow(s[i].rec, i);
  }

  /** Of three masters, the second leads only with the votes of the first and its own, the
      third only if another master came to vote for it. */
  lemma LeaderOfThree(s: State, i: nat)
    requires Inv(s) && |s| == 4 && IsLeader(s, i)
    ensures i == 2 || i == 3
    ensures i == 2 ==> s[2].vote == 2 && 1 in s[2].rec && s[2].rec[1] == 2
    ensures i == 3 ==> s[1].vote == 3 || s[2].vote == 3
  {
    LeaderKbid(s, i);
    assert NodeInv(s, i, s[i]);
    var rec := s[i].rec;
    var voters := Voters(rec, i);
    RecordKeys(s, rec);
    if i == 2 {
      if 1 !in voters || 2 !in voters {
        SubsetSize(voters, if 1 !in voters then {2} else {1});
      }
    } else {
      if 1 !in voters && 2 !in voters {
        SubsetSize(voters, {3});
      }
      var j := if 1 in voters then 1 else 2;
      assert Given(s, j, rec[j]);
      assert NodeInv(s, j, s[j]);
    }
  }

  lemma AtMostThreeSafe(n: nat, events: seq<Event>)
    requires n <= 3
    ensures OneLeader(Run(Init(n), events))
  {
    var s := Run(Init(n), events);
    ThreeRunKeeps(Init(n), events);
    hide Run, Inv, Count;
    forall i, j | IsLeader(s, i) && IsLeader(s, j) ensures i == j {
      LeaderKbid(s, i);
      LeaderKbid(s, j);
      if n == 3 {
        LeaderOfThree(s, i);
        LeaderOfThree(s, j);
      }
    }
  }
}
