/** When the election settles, once no more replies are lost. */
module ElectionProgress {
  import opened Sets
  import opened Election
  import opened ElectionLimits

  predicate AllAnswered(events: seq<Event>) {
    forall k :: 0 <= k < |events| && events[k].Poll? ==> events[k].answered
  }

  predicate Settled(s: State, i: nat) {
    IsMaster(s, i) && s[i].status != Consensus
  }

  predicate EndsRound(s: State, ev: Event, i: nat) {
    ev == Tally(i) && Running(s, i) && s[i].next == |s|
  }

  /** How many rounds master i ends in a run. */
  function Tallies(s: State, events: seq<Event>, i: nat): nat
    decreases events
  {
    if events == [] then 0
    else (if EndsRound(s, events[0], i) then 1 else 0) + Tallies(Apply(s, events[0]), events[1..], i)
  }

  // ---- A majority that cannot change any more ----

  /** Master j votes for c and will not move. */
  predicate Firm(s: State, j: nat, c: nat) {
    IsMaster(s, j) && s[j].started && s[j].vote == c && (c == MasterCount(s) || Settled(s, j))
  }

  predicate Quorum(s: State, firm: set<nat>, c: nat) {
    IsMaster(s, c) && |firm| >= Majority(MasterCount(s)) && forall j :: j in firm ==> Firm(s, j, c)
  }

  /** All that master i has heard from these masters in this round is a vote for c. */
  predicate Fresh(s: State, i: nat, firm: set<nat>, c: nat) {
    IsMaster(s, i) && forall j :: j in firm && j < s[i].next ==> j in s[i].rec && s[i].rec[j] == c
  }

  lemma FirmStays(s: State, ev: Event, j: nat, c: nat)
    requires Inv(s) && Firm(s, j, c)
    ensures Firm(Apply(s, ev), j, c)
  {
    StepKeeps(s, ev);
    var s' := Apply(s, ev);
    assert NodeInv(s', j, s'[j]);
    hide Decide;
  }

  lemma StartedStay(s: State, ev: Event)
    requires Inv(s) && AllStarted(s)
    ensures Inv(Apply(s, ev)) && AllStarted(Apply(s, ev))
  {
    StepKeeps(s, ev);
  }

  /** A tally that finds a majority for c settles. */
  lemma MajoritySettles(node: Node, i: nat, n: nat, c: nat)
    requires 1 <= c <= n && Count(node.rec, c) >= Majority(n)
    ensures var node' := Decide(node, i, n); node'.status != Consensus && node'.vote == node.vote && node'.started == node.started
  {
    hide Count;
  }

  /** What one step does to a master that may have heard the firm votes of this round. */
  lemma FreshStep(s: State, ev: Event, i: nat, firm: set<nat>, c: nat)
    requires Inv(s) && AllStarted(s) && IsMaster(s, i) && IsMaster(s, c) && (ev.Poll? ==> ev.answered)
    requires forall j :: j in firm ==> Firm(s, j, c)
    ensures Settled(s, i) ==> Settled(Apply(s, ev), i) && !EndsRound(s, ev, i)
    ensures EndsRound(s, ev, i) ==> Settled(Apply(s, ev), i) || Fresh(Apply(s, ev), i, firm, c)
    ensures !EndsRound(s, ev, i) && Fresh(s, i, firm, c) ==> Fresh(Apply(s, ev), i, firm, c)
  {
    hide LastWith, Count, Inv;
  }

  lemma FreshSettles(s: State, i: nat, firm: set<nat>, c: nat)
    requires Quorum(s, firm, c) && EndsRound(s, Tally(i), i) && Fresh(s, i, firm, c)
    ensures Settled(Apply(s, Tally(i)), i)
  {
    assert firm <= Voters(s[i].rec, c);
    SubsetSize(firm, Voters(s[i].rec, c));
    MajoritySettles(s[i], i, MasterCount(s), c);
  }

  function RoundsLeft(s: State, i: nat, firm: set<nat>, c: nat): nat {
    if Settled(s, i) then 0 else if Fresh(s, i, firm, c) then 1 else 2
  }

  /** With such a majority, no master ends more than two more rounds before it settles. */
  lemma {:induction false} SettlesInTwo(s: State, events: seq<Event>, i: nat, firm: set<nat>, c: nat)
    requires Inv(s) && AllStarted(s) && IsMaster(s, i) && AllAnswered(events) && Quorum(s, firm, c)
    ensures Tallies(s, events, i) <= RoundsLeft(s, i, firm, c)
    ensures Tallies(s, events, i) == RoundsLeft(s, i, firm, c) ==> Settled(Run(s, events), i)
    decreases events
  {
    if events != [] {
      var ev := events[0];
      FreshStep(s, ev, i, firm, c);
      StartedStay(s, ev);
      forall j | j in firm ensures Firm(Apply(s, ev), j, c) {
        FirmStays(s, ev, j, c);
      }
      if EndsRound(s, ev, i) && Fresh(s, i, firm, c) {
        FreshSettles(s, i, firm, c);
      }
      hide Apply, Inv, AllStarted, Fresh, Settled, Firm;
      SettlesInTwo(Apply(s, ev), events[1..], i, firm, c);
    }
  }

  // ---- Every master hears of the highest one ----

  /** Master i has settled or votes for the highest master. */
  predicate UpToDate(s: State, i: nat) {
    Settled(s, i) || (IsMaster(s, i) && s[i].vote == MasterCount(s))
  }

  lemma HighestIsFirm(s: State)
    requires Inv(s) && AllStarted(s) && |s| >= 2
    ensures Firm(s, MasterCount(s), MasterCount(s))
  {
    assert NodeInv(s, MasterCount(s), s[MasterCount(s)]);
  }

  function RoundsBehind(s: State, i: nat): nat {
    if UpToDate(s, i) then 0 else if Fresh(s, i, {MasterCount(s)}, MasterCount(s)) then 1 else 2
  }

  lemma UpToDateStays(s: State, ev: Event, i: nat)
    requires Inv(s) && AllStarted(s) && UpToDate(s, i)
    ensures UpToDate(Apply(s, ev), i)
  {
    StepKeeps(s, ev);
    var s' := Apply(s, ev);
    assert NodeInv(s', i, s'[i]) && NodeInv(s, i, s[i]);
    hide Decide;
  }

  lemma FreshCatchesUp(s: State, i: nat)
    requires Inv(s) && EndsRound(s, Tally(i), i) && Fresh(s, i, {MasterCount(s)}, MasterCount(s))
    ensures UpToDate(Apply(s, Tally(i)), i)
  {
    var n := MasterCount(s);
    assert n in s[i].rec && s[i].rec[n] == n;
    CountOne(s[i].rec, n);
    hide Count;
  }

  /** So does every master that ended two rounds in which all its polls were answered. */
  lemma {:induction false} CatchesUpInTwo(s: State, events: seq<Event>, i: nat)
    requires Inv(s) && AllStarted(s) && IsMaster(s, i) && AllAnswered(events)
    ensures Tallies(s, events, i) >= RoundsBehind(s, i) ==> UpToDate(Run(s, events), i)
    decreases events
  {
    if events != [] {
      var ev, n := events[0], MasterCount(s);
      HighestIsFirm(s);
      FreshStep(s, ev, i, {n}, n);
      StartedStay(s, ev);
      if UpToDate(s, i) {
        UpToDateStays(s, ev, i);
      } else if EndsRound(s, ev, i) && Fresh(s, i, {n}, n) {
        FreshCatchesUp(s, i);
      }
      assert RoundsBehind(Apply(s, ev), i) <= if EndsRound(s, ev, i) && !UpToDate(s, i) then RoundsBehind(s, i) - 1 else RoundsBehind(s, i);
      hide Apply, Inv, AllStarted, Fresh, UpToDate;
      CatchesUpInTwo(Apply(s, ev), events[1..], i);
    }
  }

  // ---- Without any loss, for any number of masters ----

  predicate AllEntered(s: State) {
    forall j :: 1 <= j < |s| ==> s[j] == Entered(j)
  }

  /** A vote, own or recorded, is for its owner or for the highest master. */
  predicate PlainVote(n: nat, j: nat, v: nat) {
    v == j || v == n
  }

  predicate Plain(s: State, i: nat, node: Node) {
    && PlainVote(MasterCount(s), i, node.vote)
    && (forall j :: j in node.rec ==> PlainVote(MasterCount(s), j, node.rec[j]))
    && (forall j :: 1 <= j < node.next ==> j in node.rec)
    && (node.status != Consensus ==> node.leader == MasterCount(s))
  }

  predicate AllPlain(s: State) {
    forall i {:trigger Plain(s, i, s[i])} :: 1 <= i < |s| ==> Plain(s, i, s[i])
  }

  lemma PlainTally(s: State, i: nat)
    requires Inv(s) && AllStarted(s) && IsMaster(s, i) && EndsRound(s, Tally(i), i) && Plain(s, i, s[i])
    ensures var n, node := MasterCount(s), Apply(s, Tally(i))[i];
            && node.rec == s[i].rec && (node.vote == n || (node.vote == s[i].vote && node.status != Consensus))
            && (node.status != Consensus ==> node.leader == n)
  {
    var n, rec := MasterCount(s), s[i].rec;
    assert n in rec && rec[n] == n;
    CountOne(rec, n);
    var e := Elected(rec, n);
    if 0 < e < n {
      SubsetSize(Voters(rec, e), {e});
    }
    hide Count;
  }

  lemma PlainActor(s: State, ev: Event)
    requires Inv(s) && AllStarted(s) && AllPlain(s) && (ev.Poll? ==> ev.answered) && IsMaster(s, ev.i)
    ensures Plain(Apply(s, ev), ev.i, Apply(s, ev)[ev.i])
  {
    var i := ev.i;
    assert Plain(s, i, s[i]);
    if EndsRound(s, ev, i) {
      PlainTally(s, i);
    } else if ev.Poll? && IsMaster(s, s[i].next) {
      assert Plain(s, s[i].next, s[s[i].next]);
    }
    hide Decide, Inv;
  }

  lemma PlainStep(s: State, ev: Event)
    requires Inv(s) && AllStarted(s) && AllPlain(s) && (ev.Poll? ==> ev.answered)
    ensures AllPlain(Apply(s, ev))
  {
    if IsMaster(s, ev.i) {
      PlainActor(s, ev);
    }
    hide Inv, Plain, Decide;
    var s' := Apply(s, ev);
    forall k | 1 <= k < |s| ensures Plain(s', k, s'[k]) {
      assert Plain(s, k, s[k]);
      if k != ev.i {
        PlainElsewhere(s, s', k);
      }
    }
  }

  lemma PlainElsewhere(s: State, s': State, k: nat)
    requires IsMaster(s, k) && |s'| == |s| && s'[k] == s[k] && Plain(s, k, s[k])
    ensures Plain(s', k, s'[k])
  {
  }

  lemma {:induction false} PlainRun(s: State, events: seq<Event>)
    requires Inv(s) && AllStarted(s) && AllPlain(s) && AllAnswered(events)
    ensures var s' := Run(s, events); Inv(s') && AllStarted(s') && AllPlain(s')
    decreases events
  {
    if events != [] {
      StartedStay(s, events[0]);
      PlainStep(s, events[0]);
      hide Inv, AllStarted, AllPlain, Apply;
      PlainRun(Apply(s, events[0]), events[1..]);
    }
  }

  lemma EnteredInv(s: State)
    requires AllEntered(s)
    ensures Inv(s) && AllStarted(s) && AllPlain(s)
  {
  }

  /** When nobody misses the highest master's vote, either all vote for it or somebody has
      settled on it: it has a majority that stays. */
  lemma HighestHasQuorum(s: State) returns (firm: set<nat>)
    requires Inv(s) && AllStarted(s) && AllPlain(s) && |s| >= 2 && forall j :: 1 <= j < |s| ==> UpToDate(s, j)
    ensures Quorum(s, firm, MasterCount(s))
  {
    var n := MasterCount(s);
    firm := set j | j in Kbids(n) && s[j].vote == n;
    if i: nat :| Settled(s, i) {
      assert NodeInv(s, i, s[i]) && Plain(s, i, s[i]);
      forall j | j in Voters(s[i].rec, n) ensures j in firm {
        assert Given(s, j, s[i].rec[j]);
        assert NodeInv(s, j, s[j]);
      }
      SubsetSize(Voters(s[i].rec, n), firm);
    } else {
      forall j | j in Kbids(n) ensures j in firm {
        assert UpToDate(s, j) && !Settled(s, j);
      }
      SubsetSize(Kbids(n), firm);
    }
  }

  /** Without loss everyone who settles takes the highest master for the leader, which leads,
      and everyone else follows. */
  lemma LosslessAgreement(s0: State, events: seq<Event>, i: nat)
    requires AllEntered(s0) && AllAnswered(events) && Settled(Run(s0, events), i)
    ensures var node := Run(s0, events)[i];
            && node.leader == MasterCount(s0)
            && node.status == if i == MasterCount(s0) then Leader else Follower
  {
    EnteredInv(s0);
    PlainRun(s0, events);
    var s := Run(s0, events);
    assert Plain(s, i, s[i]) && NodeInv(s, i, s[i]);
  }

  /** And once every master has ended a round, none ends more than two more before it settles. */
  lemma LosslessProgress(s0: State, before: seq<Event>, after: seq<Event>, i: nat)
    requires AllEntered(s0) && IsMaster(s0, i) && AllAnswered(before) && AllAnswered(after)
    requires forall j :: 1 <= j < |s0| ==> Tallies(s0, before, j) >= 1
    ensures var s := Run(s0, before);
            && Tallies(s, after, i) <= 2
            && (Tallies(s, after, i) == 2 ==> Settled(Run(s, after), i))
  {
    EnteredInv(s0);
    PlainRun(s0, before);
    var s := Run(s0, before);
    forall j | 1 <= j < |s| ensures UpToDate(s, j) {
      assert Tallies(s0, before, j) >= 1;
      CatchesUpInTwo(s0, before, j);
      assert Fresh(s0, j, {MasterCount(s0)}, MasterCount(s0));
    }
    hide Run, Inv, AllPlain, AllStarted, Quorum, Fresh, UpToDate;
    var firm := HighestHasQuorum(s);
    SettlesInTwo(s, after, i, firm, MasterCount(s));
  }

  // ---- After any losses, with up to three masters ----

  /** The votes of up to three masters that are all up to date hold a majority that stays. */
  lemma FewHaveQuorum(s: State) returns (firm: set<nat>, c: nat)
    requires Inv(s) && AllStarted(s) && 2 <= |s| <= 4 && forall j :: 1 <= j < |s| ==> UpToDate(s, j)
    ensures Quorum(s, firm, c)
  {
    var n := MasterCount(s);
    HighestIsFirm(s);
    if n == 1 {
      firm, c := {1}, 1;
    } else if j :| 1 <= j < n && s[j].vote == n {
      firm, c := {j, n}, n;
    } else {
      OthersSettled(s);
      firm, c := {1, 2}, 2;
    }
  }

  lemma OthersSettled(s: State)
    requires Inv(s) && AllStarted(s) && 3 <= |s| <= 4 && forall j :: 1 <= j < |s| ==> UpToDate(s, j)
    requires forall j :: 1 <= j < MasterCount(s) ==> s[j].vote != MasterCount(s)
    ensures |s| == 4 && Firm(s, 1, 2) && Firm(s, 2, 2)
  {
    var n, rec := MasterCount(s), s[1].rec;
    assert NodeInv(s, 1, s[1]) && NodeInv(s, 2, s[2]);
    assert UpToDate(s, 1) && UpToDate(s, 2);
    if s[1].vote == 1 {
      forall j | j in rec ensures j <= rec[j] && (j == 1 ==> rec[j] == 1) && (j == 2 ==> rec[j] == 2) {
        assert Given(s, j, rec[j]);
      }
      SubsetSize(Voters(rec, s[1].leader), {s[1].leader});
      assert false;
    }
  }

  /** With up to three masters, from every state that losses can lead to: once replies are no
      longer lost and every master has ended two rounds or settled, none ends more than two more
      rounds before it settles. */
  lemma FewSettle(n: nat, s0: State, before: seq<Event>, after: seq<Event>, i: nat)
    requires 1 <= n <= 3 && Reachable(n, s0) && AllStarted(s0) && IsMaster(s0, i)
    requires AllAnswered(before) && AllAnswered(after)
    requires forall j :: 1 <= j <= n ==> Tallies(s0, before, j) >= 2 || Settled(Run(s0, before), j)
    ensures var s := Run(s0, before);
            && Tallies(s, after, i) <= 2
            && (Tallies(s, after, i) == 2 ==> Settled(Run(s, after), i))
  {
    ReachableInv(n, s0);
    StartedRun(s0, before);
    var s := Run(s0, before);
    forall j | 1 <= j < |s| ensures UpToDate(s, j) {
      CatchesUpInTwo(s0, before, j);
    }
    hide Run, Inv, AllStarted, Quorum, UpToDate;
    var firm, c := FewHaveQuorum(s);
    SettlesInTwo(s, after, i, firm, c);
  }

  lemma ReachableInv(n: nat, s: State)
    requires Reachable(n, s)
    ensures Inv(s) && |s| == n + 1
  {
    var events :| Run(Init(n), events) == s;
    assert Inv(Init(n));
    RunKeeps(Init(n), events);
  }

  lemma {:induction false} StartedRun(s: State, events: seq<Event>)
    requires Inv(s) && AllStarted(s)
    ensures Inv(Run(s, events)) && AllStarted(Run(s, events))
    decreases events
  {
    if events != [] {
      StartedStay(s, events[0]);
      hide Inv, AllStarted, Apply;
      StartedRun(Apply(s, events[0]), events[1..]);
    }
  }

  // ---- Some run without losses ends two rounds of everyone ----

  lemma {:induction false} RunAppend(s: State, a: seq<Event>, b: seq<Event>, i: nat)
    ensures Run(s, a + b) == Run(Run(s, a), b)
    ensures Tallies(s, a + b, i) == Tallies(s, a, i) + Tallies(Run(s, a), b, i)
    decreases a
  {
    if a == [] {
      assert a + b == b;
    } else {
      assert (a + b)[1..] == a[1..] + b;
      RunAppend(Apply(s, a[0]), a[1..], b, i);
    }
  }

  /** A master that has not settled can poll everyone that is left and end its round. */
  lemma {:induction false} EndRound(s: State, i: nat) returns (events: seq<Event>)
    requires Inv(s) && AllStarted(s) && IsMaster(s, i)
    ensures AllAnswered(events) && (Settled(s, i) || Tallies(s, events, i) >= 1)
    decreases if IsMaster(s, i) then |s| - s[i].next else 0
  {
    assert NodeInv(s, i, s[i]);
    if Settled(s, i) {
      events := [];
    } else if s[i].next == |s| {
      events := [Tally(i)];
    } else {
      var poll := Poll(i, true);
      StartedStay(s, poll);
      var rest := EndRound(Apply(s, poll), i);
      events := [poll] + rest;
      assert events[1..] == rest;
    }
  }

  lemma {:induction false} SettledStays(s: State, events: seq<Event>, i: nat)
    requires Inv(s) && AllStarted(s) && Settled(s, i)
    ensures Settled(Run(s, events), i)
    decreases events
  {
    if events != [] {
      StartedStay(s, events[0]);
      SettledStays(Apply(s, events[0]), events[1..], i);
    }
  }

  lemma EndTwoRounds(s: State, i: nat) returns (events: seq<Event>)
    requires Inv(s) && AllStarted(s) && IsMaster(s, i)
    ensures AllAnswered(events) && (Settled(Run(s, events), i) || Tallies(s, events, i) >= 2)
  {
    var a := EndRound(s, i);
    StartedRun(s, a);
    var b := EndRound(Run(s, a), i);
    RunAppend(s, a, b, i);
    events := a + b;
    if Settled(s, i) {
      SettledStays(s, events, i);
    } else if Settled(Run(s, a), i) {
      SettledStays(Run(s, a), b, i);
    }
  }

  lemma {:induction false} AllEndTwoRounds(s: State, k: nat) returns (events: seq<Event>)
    requires Inv(s) && AllStarted(s) && k < |s|
    ensures AllAnswered(events)
    ensures forall j :: 1 <= j <= k ==> Tallies(s, events, j) >= 2 || Settled(Run(s, events), j)
  {
    if k == 0 {
      events := [];
    } else {
      var a := AllEndTwoRounds(s, k - 1);
      StartedRun(s, a);
      var s' := Run(s, a);
      var b := EndTwoRounds(s', k);
      events := a + b;
      forall j | 1 <= j <= k ensures Tallies(s, events, j) >= 2 || Settled(Run(s, events), j) {
        RunAppend(s, a, b, j);
        if j < k && Settled(s', j) {
          SettledStays(s', b, j);
        }
      }
    }
  }

  // ---- Stuck for good, from four masters on ----

  /** Whatever happens from here on, master i never settles. */
  ghost predicate Stuck(s: State, i: nat) {
    IsMaster(s, i) && forall events :: !Settled(Run(s, events), i)
  }

  lemma FewNeverStuck(n: nat, s: State, i: nat)
    requires 1 <= n <= 3 && Reachable(n, s) && AllStarted(s) && IsMaster(s, i)
    ensures !Stuck(s, i)
  {
    ReachableInv(n, s);
    var before := AllEndTwoRounds(s, n);
    StartedRun(s, before);
    var s' := Run(s, before);
    var after := EndTwoRounds(s', i);
    FewSettle(n, s, before, after, i);
    RunAppend(s, before, after, i);
    assert Settled(Run(s, before + after), i);
  }

  /** The first master of the just sufficient group of voters for the last but one. */
  function First(n: nat): (from: nat)
    requires n >= 4
    ensures 1 <= from <= n - 3
  {
    n - Majority(n)
  }

  /** Who has settled once the last but one was elected and one voter for it learned of that. */
  predicate Early(n: nat, j: nat)
    requires n >= 4
  {
    1 <= j <= First(n) || j == n - 1
  }

  /** The votes of master j that others can have on record. */
  predicate SplitVote(n: nat, j: nat, v: nat)
    requires n >= 4
  {
    if j < First(n) then v == j else if j == First(n) then v == j || v == n - 1 else if j == n - 1 then v == n - 1 else v == n
  }

  predicate SplitNode(n: nat, j: nat, node: Node)
    requires n >= 4
  {
    if Early(n, j) then node.started && node.status != Consensus && SplitVote(n, j, node.vote)
    else
      && node.started && node.status == Consensus && node.vote == n
      && forall k :: k in node.rec ==> 1 <= k <= n && (k == j || SplitVote(n, k, node.rec[k]))
  }

  /** The early ones have settled, and neither their votes nor those of the others, all for the
      highest master, are a majority. */
  predicate Split(s: State) {
    |s| >= 5 && Inv(s) && forall j {:trigger SplitNode(MasterCount(s), j, s[j])} :: 1 <= j < |s| ==> SplitNode(MasterCount(s), j, s[j])
  }

  lemma LateCount(n: nat) returns (late: set<nat>)
    requires n >= 4
    ensures |late| < Majority(n) && forall j :: j in late <==> 1 <= j <= n && !Early(n, j)
  {
    late := Kbids(n) - Kbids(First(n)) - {n - 1};
    assert Kbids(n) == late + (Kbids(First(n)) + {n - 1});
    assert |Kbids(First(n)) + {n - 1}| == First(n) + 1;
  }

  /** On such a record nobody has a majority, and the highest master is on it. */
  lemma SplitTally(n: nat, j: nat, node: Node)
    requires n >= 4 && 1 <= j <= n && !Early(n, j) && SplitNode(n, j, node)
    requires j in node.rec && node.rec[j] == n
    ensures Elected(node.rec, n) == 0 && MaxCandidate(node.rec, n) == n
  {
    var late := LateCount(n);
    CountOne(node.rec, j);
    forall c | 1 <= c <= n ensures Count(node.rec, c) < Majority(n) {
      SubsetSize(Voters(node.rec, c), if c == n then late else if c == n - 1 then {First(n), n - 1} else {c});
    }
    hide Count;
  }

  lemma SplitActor(s: State, ev: Event)
    requires Split(s) && IsMaster(s, ev.i)
    ensures SplitNode(MasterCount(s), ev.i, Apply(s, ev)[ev.i])
  {
    var n, i := MasterCount(s), ev.i;
    assert SplitNode(n, i, s[i]) && NodeInv(s, i, s[i]);
    if !Early(n, i) {
      if EndsRound(s, ev, i) {
        SplitTally(n, i, s[i]);
      } else if ev.Poll? && IsMaster(s, s[i].next) {
        assert SplitNode(n, s[i].next, s[s[i].next]);
      }
    }
    hide Elected, MaxCandidate, Inv;
  }

  lemma SplitStep(s: State, ev: Event)
    requires Split(s)
    ensures Split(Apply(s, ev))
  {
    StepKeeps(s, ev);
    if IsMaster(s, ev.i) {
      SplitActor(s, ev);
    }
    hide Inv, SplitNode, Decide;
    forall k | 1 <= k < |s| ensures SplitNode(MasterCount(s), k, Apply(s, ev)[k]) {
      assert SplitNode(MasterCount(s), k, s[k]);
    }
  }

  lemma {:induction false} SplitForGood(s: State, events: seq<Event>)
    requires Split(s)
    ensures Split(Run(s, events))
    decreases events
  {
    if events != [] {
      SplitStep(s, events[0]);
      hide Split, Apply;
      SplitForGood(Apply(s, events[0]), events[1..]);
    }
  }

  lemma SplitIsStuck(s: State)
    requires Split(s)
    ensures Stuck(s, MasterCount(s))
  {
    var n := MasterCount(s);
    forall events ensures !Settled(Run(s, events), n) {
      SplitForGood(s, events);
      var s' := Run(s, events);
      assert SplitNode(MasterCount(s'), n, s'[n]);
    }
  }

  // ---- Such a state is reached ----

  /** A master that hears a majority for one candidate settles with the vote it has. */
  lemma Settles(n: nat, s0: State, i: nat, answers: set<nat>, c: nat) returns (s: State)
    requires Reachable(n, s0) && AllStarted(s0) && Running(s0, i) && s0[i].next == 1 && |s0| == n + 1
    requires 1 <= c <= n && |answers| >= Majority(n) && forall j :: j in answers ==> IsMaster(s0, j) && s0[j].vote == c
    ensures Reachable(n, s) && s == s0[i := s[i]]
    ensures s[i].started && s[i].status != Consensus && s[i].vote == s0[i].vote
  {
    var node := s0[i].(rec := Recorded(s0, i, answers), next := |s0|);
    assert answers <= Voters(node.rec, c);
    SubsetSize(answers, Voters(node.rec, c));
    hide Reachable, Recorded;
    MajoritySettles(node, i, n, c);
    s := Round(n, s0, i, answers);
  }

  /** On the way there: masters 1 to k have settled with their votes, so has the last but one
      if `led`, and the late ones up to l have moved on. */
  predicate Stage(n: nat, k: nat, led: bool, l: nat, j: nat, node: Node)
    requires n >= 4
  {
    if j <= k || (led && j == n - 1) then
      node.started && node.status != Consensus && node.vote == if j < First(n) then j else n - 1
    else if j < First(n) || j >= n - 1 then node == Entered(j)
    else if First(n) < j <= l then node == MovedOn(n, j)
    else node == Moved(n, j)
  }

  predicate OnTheWay(s: State, n: nat, k: nat, led: bool, l: nat)
    requires n >= 4
  {
    |s| == n + 1 && forall j {:trigger Stage(n, k, led, l, j, s[j])} :: 1 <= j <= n ==> Stage(n, k, led, l, j, s[j])
  }

  lemma Group(n: nat) returns (group: set<nat>)
    requires n >= 4
    ensures |group| == Majority(n) && forall j :: j in group <==> First(n) <= j <= n - 1
  {
    group := Kbids(n - 1) - Kbids(First(n) - 1);
    assert Kbids(n - 1) == group + Kbids(First(n) - 1);
  }

  lemma WayStarted(s: State, n: nat, k: nat, led: bool, l: nat)
    requires n >= 4 && OnTheWay(s, n, k, led, l)
    ensures AllStarted(s)
  {
    forall j | 1 <= j <= n ensures s[j].started {
      assert Stage(n, k, led, l, j, s[j]);
    }
  }

  /** While nobody has moved on, the group votes for the last but one, and one more settles. */
  lemma SettleOne(n: nat, s0: State, k: nat, i: nat, led: bool) returns (s: State)
    requires n >= 4 && Reachable(n, s0) && k <= First(n) && OnTheWay(s0, n, k, false, 0)
    requires if led then i == n - 1 && k == First(n) else i == k + 1 <= First(n)
    ensures Reachable(n, s) && OnTheWay(s, n, if led then k else k + 1, led, 0)
  {
    var group := Group(n);
    WayStarted(s0, n, k, false, 0);
    forall j | j in group ensures IsMaster(s0, j) && s0[j].vote == n - 1 {
      assert Stage(n, k, false, 0, j, s0[j]);
    }
    assert Stage(n, k, false, 0, i, s0[i]);
    hide Reachable;
    s := Settles(n, s0, i, group, n - 1);
    forall j | 1 <= j <= n ensures Stage(n, if led then k else k + 1, led, 0, j, s[j]) {
      assert Stage(n, k, false, 0, j, s0[j]);
    }
  }

  lemma {:induction false} EarlySettle(n: nat, k: nat) returns (s: State)
    requires n >= 4 && k <= First(n)
    ensures Reachable(n, s) && OnTheWay(s, n, k, false, 0)
  {
    hide Reachable;
    if k == 0 {
      s := AllMove(n, First(n), n - 2);
    } else {
      var s0 := EarlySettle(n, k - 1);
      s := SettleOne(n, s0, k - 1, k, false);
    }
  }

  lemma {:induction false} LateMoveOn(n: nat, l: nat) returns (s: State)
    requires n >= 4 && First(n) <= l <= n - 2
    ensures Reachable(n, s) && OnTheWay(s, n, First(n), true, l)
    decreases l
  {
    var k := First(n);
    hide Reachable;
    if l == k {
      var s0 := EarlySettle(n, k);
      s := SettleOne(n, s0, k, n - 1, true);
      forall j | 1 <= j <= n ensures Stage(n, k, true, l, j, s[j]) {
        assert Stage(n, k, true, 0, j, s[j]);
      }
    } else {
      var s0 := LateMoveOn(n, l - 1);
      WayStarted(s0, n, k, true, l - 1);
      assert Stage(n, k, true, l - 1, l, s0[l]) && Stage(n, k, true, l - 1, n, s0[n]);
      hide Moved, MovedOn, Entered, AllStarted;
      s := MoveOneOn(n, s0, l);
      forall j | 1 <= j <= n ensures Stage(n, k, true, l, j, s[j]) {
        assert Stage(n, k, true, l - 1, j, s0[j]);
      }
    }
  }

  lemma StuckState(n: nat) returns (s: State)
    requires n >= 4
    ensures Reachable(n, s) && AllStarted(s) && Stuck(s, n)
  {
    var k := First(n);
    s := LateMoveOn(n, n - 2);
    ReachableInv(n, s);
    WayStarted(s, n, k, true, n - 2);
    hide Reachable, Inv, Stuck, AllStarted;
    forall j | 1 <= j <= n ensures SplitNode(n, j, s[j]) {
      assert Stage(n, k, true, n - 2, j, s[j]);
    }
    SplitIsStuck(s);
  }

  /** Progress: no reachable state with all masters started leaves one of them without any
      future in which it settles, exactly when there are at most three masters. */
  lemma ElectionProgress(n: nat)
    ensures (forall s, i :: Reachable(n, s) && AllStarted(s) ==> !Stuck(s, i)) <==> n <= 3
  {
    hide Reachable, Stuck, AllStarted;
    if n <= 3 {
      forall s, i | Reachable(n, s) && AllStarted(s) ensures !Stuck(s, i) {
        NotStuck(n, s, i);
      }
    } else {
      var s := StuckState(n);
    }
  }

  lemma NotStuck(n: nat, s: State, i: nat)
    requires n <= 3 && Reachable(n, s) && AllStarted(s)
    ensures !Stuck(s, i)
  {
    ReachableInv(n, s);
    if IsMaster(s, i) {
      FewNeverStuck(n, s, i);
    }
  }
}
