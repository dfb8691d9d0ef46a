/** How many masters the election is safe for: no epoch ever has two leaders exactly when
    there are at most three masters. */
module ElectionLimits {
  import opened Election
  import opened Sets

  ghost predicate Reachable(n: nat, s: State) {
    exists events :: Run(Init(n), events) == s
  }

  lemma ReachStep(n: nat, s: State, ev: Event)
    requires Reachable(n, s)
    ensures Reachable(n, Apply(s, ev))
  {
    var events :| Run(Init(n), events) == s;
    RunThen(Init(n), events, ev);
  }

  // ---- One whole round of one master ----

  /** Master i polls the masters it has left to poll; those in `answers` answer. */
  function PollRest(s: State, i: nat, answers: set<nat>): (s': State)
    requires IsMaster(s, i) && s[i].next <= |s|
    ensures |s'| == |s|
    decreases |s| - s[i].next
  {
    if !Running(s, i) || !IsMaster(s, s[i].next) then s
    else PollRest(Apply(s, Poll(i, s[i].next in answers)), i, answers)
  }

  lemma {:induction false} PollRestReachable(n: nat, s: State, i: nat, answers: set<nat>)
    requires Reachable(n, s) && IsMaster(s, i) && s[i].next <= |s|
    ensures Reachable(n, PollRest(s, i, answers))
    decreases |s| - s[i].next
  {
    if Running(s, i) && IsMaster(s, s[i].next) {
      ReachStep(n, s, Poll(i, s[i].next in answers));
      PollRestReachable(n, Apply(s, Poll(i, s[i].next in answers)), i, answers);
    }
  }

  predicate AllStarted(s: State) {
    forall k :: 1 <= k < |s| ==> s[k].started
  }

  /** The votes that master i hears when it polls from master `from` on. */
  function Heard(s: State, i: nat, answers: set<nat>, from: nat): map<nat, nat> {
    map j | j in answers + {i} && from <= j && IsMaster(s, j) :: s[j].vote
  }

  function Recorded(s: State, i: nat, answers: set<nat>): map<nat, nat>
    requires IsMaster(s, i)
  {
    s[i].rec + Heard(s, i, answers, s[i].next)
  }

  lemma HeardSplit(s: State, i: nat, answers: set<nat>, from: nat)
    requires IsMaster(s, from)
    ensures Heard(s, i, answers, from) ==
            if from in answers + {i} then Heard(s, i, answers, from + 1)[from := s[from].vote]
            else Heard(s, i, answers, from + 1)
  {
  }

  lemma HeardSame(s: State, s': State, i: nat, answers: set<nat>, from: nat)
    requires |s| == |s'| && forall j :: 1 <= j < |s| ==> s[j].vote == s'[j].vote
    ensures Heard(s, i, answers, from) == Heard(s', i, answers, from)
  {
  }

  lemma RecordedStep(s: State, i: nat, answers: set<nat>)
    requires AllStarted(s) && Running(s, i) && 1 <= s[i].next < |s|
    ensures Recorded(Apply(s, Poll(i, s[i].next in answers)), i, answers) == Recorded(s, i, answers)
  {
    hide Heard;
    var s1, from := Apply(s, Poll(i, s[i].next in answers)), s[i].next;
    HeardSplit(s, i, answers, from);
    HeardSame(s, s1, i, answers, from + 1);
    HeardFrom(s, i, answers, from + 1);
    OverLater(s[i].rec, Heard(s, i, answers, from + 1), from, s[from].vote);
  }

  lemma OverLater(rec: map<nat, nat>, later: map<nat, nat>, k: nat, v: nat)
    requires k !in later
    ensures rec[k := v] + later == rec + later[k := v]
  {
  }

  lemma HeardFrom(s: State, i: nat, answers: set<nat>, from: nat)
    ensures forall j :: j in Heard(s, i, answers, from) ==> from <= j
  {
  }

  lemma {:induction false} PollRestRecords(s: State, i: nat, answers: set<nat>)
    requires AllStarted(s) && Running(s, i) && 1 <= s[i].next <= |s|
    ensures PollRest(s, i, answers) == s[i := s[i].(rec := Recorded(s, i, answers), next := |s|)]
    decreases |s| - s[i].next
  {
    if s[i].next < |s| {
      RecordedStep(s, i, answers);
      hide Recorded;
      var s1 := Apply(s, Poll(i, s[i].next in answers));
      PollRestRecords(s1, i, answers);
      assert s1[i := s1[i].(rec := Recorded(s, i, answers), next := |s|)]
          == s[i := s[i].(rec := Recorded(s, i, answers), next := |s|)];
    } else {
      assert Recorded(s, i, answers) == s[i].rec;
    }
  }

  /** Poll everyone that is left, then tally. */
  lemma Round(n: nat, s: State, i: nat, answers: set<nat>) returns (s': State)
    requires Reachable(n, s) && AllStarted(s) && Running(s, i) && 1 <= s[i].next <= |s|
    ensures Reachable(n, s')
    ensures s' == s[i := Decide(s[i].(rec := Recorded(s, i, answers), next := |s|), i, |s| - 1)]
  {
    hide Decide, Recorded;
    PollRestReachable(n, s, i, answers);
    PollRestRecords(s, i, answers);
    var polled := PollRest(s, i, answers);
    ReachStep(n, polled, Tally(i));
    s' := Apply(polled, Tally(i));
  }

  /** Master j after it heard only itself and the last but one master. */
  function Moved(n: nat, j: nat): Node
    requires n >= 1
  {
    Node(true, n - 1, map[j := j, n - 1 := n - 1], 1, Consensus, j)
  }

  // ---- The tallies of the run ----

  lemma CountNone(rec: map<nat, nat>, c: nat)
    requires forall j :: j in rec ==> rec[j] != c
    ensures Count(rec, c) == 0
  {
    assert Voters(rec, c) == {};
  }

  /** A candidate above all others on record, but nobody with three votes. */
  lemma NobodyWins(rec: map<nat, nat>, n: nat, top: nat, j: nat)
    requires n >= 4 && 1 <= top <= n && j in rec && rec[j] == top
    requires forall k :: k in rec ==> rec[k] <= top
    requires forall c {:trigger Count(rec, c)} :: Count(rec, c) <= 2
    ensures MaxCandidate(rec, n) == top && Elected(rec, n) == 0
  {
    hide Count;
    CountOne(rec, j);
    forall d | top < d <= n ensures Count(rec, d) == 0 {
      CountNone(rec, d);
    }
  }

  /** Everyone on record voted for the same candidate, and they are enough. */
  lemma AllForOne(rec: map<nat, nat>, n: nat, top: nat)
    requires n >= 4 && 1 <= top <= n && forall k :: k in rec ==> rec[k] == top
    requires |rec.Keys| == n - 1
    ensures MaxCandidate(rec, n) == top && Elected(rec, n) == top
  {
    assert Voters(rec, top) == rec.Keys;
    assert Count(rec, top) == n - 1 >= Majority(n);
    hide Count;
    forall d | top < d <= n ensures Count(rec, d) == 0 {
      CountNone(rec, d);
    }
  }

  /** Master k heard only itself and the last but one master. */
  lemma MoveTally(s: State, n: nat, k: nat)
    requires n >= 4 && 1 <= k <= n - 2 && |s| == n + 1 && s[k] == Entered(k) && s[n - 1].vote == n - 1
    ensures Decide(s[k].(rec := Recorded(s, k, {n - 1}), next := n + 1), k, n) == Moved(n, k)
  {
    var rec := map[k := k, n - 1 := n - 1];
    assert Recorded(s, k, {n - 1}) == rec;
    forall c ensures Count(rec, c) <= 2 {
      SubsetSize(Voters(rec, c), {k, n - 1});
    }
    hide Count;
    NobodyWins(rec, n, n - 1, n - 1);
  }

  lemma MoveOnRecord(s: State, n: nat, k: nat)
    requires n >= 4 && 1 <= k <= n - 2 && |s| == n + 1 && s[k] == Moved(n, k) && s[n].vote == n
    ensures Recorded(s, k, {n}) == map[k := n - 1, n - 1 := n - 1, n := n]
  {
    HeardLast(s, n, k);
    hide Heard;
  }

  lemma HeardLast(s: State, n: nat, k: nat)
    requires 1 <= k < n && |s| == n + 1 && s[k].vote == n - 1 && s[n].vote == n
    ensures Heard(s, k, {n}, 1) == map[k := n - 1, n := n]
  {
  }

  /** And after it later heard only itself and the last master. */
  function MovedOn(n: nat, j: nat): Node
    requires n >= 1
  {
    Node(true, n, map[j := n - 1, n - 1 := n - 1, n := n], 1, Consensus, j)
  }

  /** Later it hears itself again and the last master, the old vote still on record. */
  lemma MoveOnTally(s: State, n: nat, k: nat)
    requires n >= 4 && 1 <= k <= n - 2 && |s| == n + 1 && s[k] == Moved(n, k) && s[n].vote == n
    ensures Decide(s[k].(rec := Recorded(s, k, {n}), next := n + 1), k, n) == MovedOn(n, k)
  {
    hide Recorded, LastWith;
    var rec := map[k := n - 1, n - 1 := n - 1, n := n];
    MoveOnRecord(s, n, k);
    forall c ensures Count(rec, c) <= 2 {
      SubsetSize(Voters(rec, c), if c == n then {n} else {k, n - 1});
    }
    hide Count;
    NobodyWins(rec, n, n, n);
  }

  // ---- A run to two leaders, for any number of masters from four on ----

  lemma {:induction false} StartAll(n: nat, k: nat) returns (s: State)
    requires k <= n
    ensures Reachable(n, s) && |s| == n + 1
    ensures forall j :: 1 <= j <= k ==> s[j] == Entered(j)
    ensures forall j :: k < j <= n ==> !s[j].started
  {
    if k == 0 {
      s := Init(n);
      assert Run(Init(n), []) == s;
    } else {
      var s0 := StartAll(n, k - 1);
      ReachStep(n, s0, Start(k));
      s := Apply(s0, Start(k));
    }
  }

  /** Master k hears only itself and the last but one. */
  lemma MoveOne(n: nat, s0: State, k: nat) returns (s: State)
    requires n >= 4 && |s0| == n + 1 && Reachable(n, s0) && AllStarted(s0) && 1 <= k <= n - 2
    requires s0[k] == Entered(k) && s0[n - 1] == Entered(n - 1)
    ensures Reachable(n, s) && AllStarted(s) && s == s0[k := Moved(n, k)]
  {
    hide Decide, Recorded, Reachable;
    MoveTally(s0, n, k);
    s := Round(n, s0, k, {n - 1});
  }

  lemma {:induction false} AllMove(n: nat, from: nat, k: nat) returns (s: State)
    requires n >= 4 && 1 <= from && k <= n - 2
    ensures Reachable(n, s) && |s| == n + 1 && AllStarted(s)
    ensures forall j :: from <= j <= k ==> s[j] == Moved(n, j)
    ensures forall j :: 1 <= j <= n && !(from <= j <= k) ==> s[j] == Entered(j)
  {
    if k < from {
      s := StartAll(n, n);
    } else {
      var s0 := AllMove(n, from, k - 1);
      hide Reachable, Moved, Entered, AllStarted;
      s := MoveOne(n, s0, k);
    }
  }

  predicate Elect(s: State, n: nat) {
    |s| == n + 1 && n >= 1 && s[n - 1].started && s[n - 1].status == Leader && s[n - 1].vote == n - 1
  }

  /** Master i hears the votes of all masters in `answers`, all for itself. */
  lemma Wins(n: nat, s0: State, i: nat, answers: set<nat>) returns (s: State)
    requires n >= 4 && |s0| == n + 1 && Reachable(n, s0) && AllStarted(s0)
    requires 1 <= i <= n && s0[i] == Entered(i)
    requires |answers| == n - 1 && i in answers && forall j :: j in answers ==> 1 <= j <= n && s0[j].vote == i
    ensures Reachable(n, s) && s == s0[i := s[i]] && s[i].started && s[i].vote == i && s[i].status == Leader
  {
    var rec := Recorded(s0, i, answers);
    assert rec.Keys == answers;
    AllForOne(rec, n, i);
    hide Recorded, Reachable, LastWith;
    s := Round(n, s0, i, answers);
  }

  lemma FirstLeader(n: nat) returns (s: State)
    requires n >= 4
    ensures Reachable(n, s) && Elect(s, n) && s[n] == Entered(n)
    ensures forall j :: 1 <= j <= n - 2 ==> s[j] == Moved(n, j)
  {
    hide Reachable, Kbids;
    var s0 := AllMove(n, 1, n - 2);
    s := Wins(n, s0, n - 1, Kbids(n - 1));
  }

  /** Master k hears only itself and the last one. */
  lemma MoveOneOn(n: nat, s0: State, k: nat) returns (s: State)
    requires n >= 4 && |s0| == n + 1 && Reachable(n, s0) && AllStarted(s0) && 1 <= k <= n - 2
    requires s0[k] == Moved(n, k) && s0[n] == Entered(n)
    ensures Reachable(n, s) && AllStarted(s) && s == s0[k := MovedOn(n, k)]
  {
    hide Decide, Recorded, Reachable;
    MoveOnTally(s0, n, k);
    s := Round(n, s0, k, {n});
  }

  lemma {:induction false} AllMoveOn(n: nat, k: nat) returns (s: State)
    requires n >= 4 && k <= n - 2
    ensures Reachable(n, s) && Elect(s, n) && AllStarted(s) && s[n] == Entered(n)
    ensures forall j :: 1 <= j <= k ==> s[j] == MovedOn(n, j)
    ensures forall j :: k < j <= n - 2 ==> s[j] == Moved(n, j)
  {
    if k == 0 {
      s := FirstLeader(n);
    } else {
      var s0 := AllMoveOn(n, k - 1);
      hide Reachable, Moved, MovedOn, Entered, AllStarted;
      s := MoveOneOn(n, s0, k);
    }
  }

  lemma TwoLeaders(n: nat) returns (s: State)
    requires n >= 4
    ensures Reachable(n, s) && !OneLeader(s)
  {
    hide Reachable, Kbids;
    var s0 := AllMoveOn(n, n - 2);
    s := Wins(n, s0, n, Kbids(n) - {n - 1});
    assert IsLeader(s, n - 1) && IsLeader(s, n);
  }

  /** Election safety: within one epoch, with every own poll answered and any other replies
      lost or interleaved, no reachable state has two leaders exactly when there are at most
      three masters. */
  lemma ElectionSafety(n: nat)
    ensures (forall s :: Reachable(n, s) ==> OneLeader(s)) <==> n <= 3
  {
    if n <= 3 {
      forall s | Reachable(n, s) ensures OneLeader(s) {
        var events :| Run(Init(n), events) == s;
        AtMostThreeSafe(n, events);
      }
    } else {
      var s := TwoLeaders(n);
    }
  }
}
