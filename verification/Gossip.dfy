/** Chunk nodes gossiping their membership status, as one state machine.

    A call of node j to node i is served by i (which learns of j) and answered with a
    snapshot of i's status; the snapshot arrives at j any time later, or never, or more than
    once. Three failed calls in a row are one event. Time is one clock that never goes back. */
module Gossip {
  import opened GossipStatus

  datatype Snapshot = Snapshot(from: nat, to: nat, status: Status)

  datatype System = System(nodes: map<nat, Status>, inFlight: seq<Snapshot>, clock: nat)

  /** `kbid` is the member the event is about and `flag` the list it was picked from: 1 and 2
      for alive seeds and commons, -1 and -2 for dead ones. */
  datatype Event =
    | Tick(elapsed: nat)
    | Serve(server: nat, data: GossipData)
    | Receive(index: nat, flag: int, parsed: bool)
    | ThreeFailures(node: nat, kbid: nat, flag: int)

  function Update(s: System, node: nat, status: Status): System {
    s.(nodes := s.nodes[node := status])
  }

  function Apply(s: System, ev: Event): System {
    match ev
    case Tick(elapsed) => s.(clock := s.clock + elapsed)
    case Serve(server, data) =>
      if server !in s.nodes then s
      else
        var status := CheckCommons(s.nodes[server], data, s.clock);
        Update(s, server, status).(inFlight := s.inFlight + [Snapshot(server, data.kbid, status)])
    case Receive(index, flag, parsed) =>
      if index >= |s.inFlight| || s.inFlight[index].to !in s.nodes then s
      else
        var m := s.inFlight[index];
        var status := s.nodes[m.to];
        Update(s, m.to, if parsed then AfterReply(status, m.from, flag, m.status, s.clock)
                        else AfterGarbage(status, m.from, flag, s.clock))
    case ThreeFailures(node, kbid, flag) =>
      if node !in s.nodes then s else Update(s, node, AfterFailure(s.nodes[node], kbid, flag, s.clock))
  }

  function Run(s: System, events: seq<Event>): System {
    if events == [] then s else Apply(Run(s, events[..|events| - 1]), events[|events| - 1])
  }

  /** Every node has finished its initialization from the same configuration, each at its
      own time. */
  predicate Init(s: System, boot: Status) {
    && WellFormed(boot) && boot.deadSeeds == [] && boot.deadCommons == []
    && s.inFlight == []
    && forall k :: k in s.nodes ==> s.nodes[k] == boot.(timestamp := s.nodes[k].timestamp) && s.nodes[k].timestamp <= s.clock
  }

  /** Each chunk always announces one record, the configured one if it has been configured. */
  predicate OneRecord(events: seq<Event>, records: map<nat, Config>) {
    forall i :: 0 <= i < |events| && events[i].Serve? ==>
      events[i].data.kbid in records && records[events[i].data.kbid] == events[i].data.config
  }

  /** A node of the cluster lost three calls in a row to k, picked from an alive list. */
  predicate Lost(nodes: set<nat>, ev: Event, k: nat) {
    ev.ThreeFailures? && ev.node in nodes && ev.flag > 0 && ev.kbid == k
  }

  function Suspects(nodes: set<nat>, events: seq<Event>): set<nat> {
    set i | 0 <= i < |events| && events[i].ThreeFailures? && Lost(nodes, events[i], events[i].kbid) :: events[i].kbid
  }

  // ---- The invariant of one status, wherever it is ----

  predicate StatusInv(st: Status, boot: Status, suspects: set<nat>, clock: nat) {
    && WellFormed(st)
    && Seeds(st) == Seeds(boot)
    && boot.configs.Keys <= st.configs.Keys
    && (forall k :: k in Dead(st) ==> k in suspects)
    && st.timestamp <= clock
  }

  predicate Inv(s: System, boot: Status, suspects: set<nat>) {
    && (forall k :: k in s.nodes ==> StatusInv(s.nodes[k], boot, suspects, s.clock))
    && (forall i :: 0 <= i < |s.inFlight| ==> StatusInv(s.inFlight[i].status, boot, suspects, s.clock))
  }

  lemma StatusInvLater(st: Status, boot: Status, suspects: set<nat>, suspects': set<nat>, clock: nat, clock': nat)
    requires StatusInv(st, boot, suspects, clock) && suspects <= suspects' && clock <= clock'
    ensures StatusInv(st, boot, suspects', clock')
  {
  }

  lemma JoinKeeps(st: Status, boot: Status, suspects: set<nat>, clock: nat, data: GossipData)
    requires StatusInv(st, boot, suspects, clock)
    ensures StatusInv(CheckCommons(st, data, clock), boot, suspects, clock)
  {
    var st' := CheckCommons(st, data, clock);
    if data.kbid !in st.configs {
      assert Members(st') == Members(st) + multiset{data.kbid};
      assert multiset(st'.configs.Keys) == multiset(st.configs.Keys) + multiset{data.kbid};
    }
  }

  lemma ReplyKeeps(st: Status, boot: Status, suspects: set<nat>, clock: nat, k: nat, flag: int, answer: Status)
    requires StatusInv(st, boot, suspects, clock) && StatusInv(answer, boot, suspects, clock)
    ensures StatusInv(AfterReply(st, k, flag, answer, clock), boot, suspects, clock)
    ensures StatusInv(AfterGarbage(st, k, flag, clock), boot, suspects, clock)
  {
    SetAliveKeeps(st, k, flag, clock);
    hide Members, Seeds, Dead;
  }

  lemma FailureKeeps(st: Status, boot: Status, suspects: set<nat>, clock: nat, k: nat, flag: int)
    requires StatusInv(st, boot, suspects, clock) && (flag > 0 ==> k in suspects)
    ensures StatusInv(AfterFailure(st, k, flag, clock), boot, suspects, clock)
  {
    SetDeadKeeps(st, k, flag, clock);
    hide Members, Seeds;
    var st' := AfterFailure(st, k, flag, clock);
    assert forall j :: j in Dead(st') ==> j in Dead(st) || j == k;
  }

  lemma StepKeeps(s: System, boot: Status, suspects: set<nat>, ev: Event)
    requires Inv(s, boot, suspects) && (ev.ThreeFailures? && Lost(s.nodes.Keys, ev, ev.kbid) ==> ev.kbid in suspects)
    ensures Inv(Apply(s, ev), boot, suspects)
  {
    hide StatusInv;
    match ev
    case Tick(elapsed) =>
      forall k | k in s.nodes ensures StatusInv(s.nodes[k], boot, suspects, s.clock + elapsed) {
        StatusInvLater(s.nodes[k], boot, suspects, suspects, s.clock, s.clock + elapsed);
      }
      forall i | 0 <= i < |s.inFlight| ensures StatusInv(s.inFlight[i].status, boot, suspects, s.clock + elapsed) {
        StatusInvLater(s.inFlight[i].status, boot, suspects, suspects, s.clock, s.clock + elapsed);
      }
    case Serve(server, data) =>
      if server in s.nodes {
        JoinKeeps(s.nodes[server], boot, suspects, s.clock, data);
      }
    case Receive(index, flag, parsed) =>
      if index < |s.inFlight| && s.inFlight[index].to in s.nodes {
        var m := s.inFlight[index];
        ReplyKeeps(s.nodes[m.to], boot, suspects, s.clock, m.from, flag, m.status);
      }
    case ThreeFailures(node, kbid, flag) =>
      if node in s.nodes {
        FailureKeeps(s.nodes[node], boot, suspects, s.clock, kbid, flag);
      }
  }

  lemma InvMoreSuspects(s: System, boot: Status, suspects: set<nat>, suspects': set<nat>)
    requires Inv(s, boot, suspects) && suspects <= suspects'
    ensures Inv(s, boot, suspects')
  {
    forall k | k in s.nodes ensures StatusInv(s.nodes[k], boot, suspects', s.clock) {
      StatusInvLater(s.nodes[k], boot, suspects, suspects', s.clock, s.clock);
    }
    forall i | 0 <= i < |s.inFlight| ensures StatusInv(s.inFlight[i].status, boot, suspects', s.clock) {
      StatusInvLater(s.inFlight[i].status, boot, suspects, suspects', s.clock, s.clock);
    }
  }

  lemma {:induction false} NodesStay(s0: System, events: seq<Event>)
    ensures Run(s0, events).nodes.Keys == s0.nodes.Keys
  {
    if events != [] {
      NodesStay(s0, events[..|events| - 1]);
    }
  }

  lemma {:induction false} RunKeeps(s0: System, boot: Status, events: seq<Event>)
    requires Init(s0, boot)
    ensures Inv(Run(s0, events), boot, Suspects(s0.nodes.Keys, events))
  {
    if events != [] {
      var front, last, nodes := events[..|events| - 1], events[|events| - 1], s0.nodes.Keys;
      RunKeeps(s0, boot, front);
      forall k | k in Suspects(nodes, front) ensures k in Suspects(nodes, events) {
        var i :| 0 <= i < |front| && front[i].ThreeFailures? && Lost(nodes, front[i], front[i].kbid) && front[i].kbid == k;
        assert events[i] == front[i];
      }
      hide Inv, Apply, Init;
      NodesStay(s0, front);
      InvMoreSuspects(Run(s0, front), boot, Suspects(nodes, front), Suspects(nodes, events));
      StepKeeps(Run(s0, front), boot, Suspects(nodes, events), last);
    }
  }

  // ---- What holds over every run ----

  /** Every status a node holds or a snapshot carries. */
  predicate Occurs(s: System, st: Status) {
    st in s.nodes.Values || exists i :: 0 <= i < |s.inFlight| && s.inFlight[i].status == st
  }

  /** Under any interleaving of joins, failures, revivals and adoptions, every status in the
      cluster has its members in exactly one list each; its seeds, dead or alive, are the
      configured ones; no configured member is ever lost; and its timestamp is not ahead of
      the clock. */
  lemma GossipConservation(s0: System, boot: Status, events: seq<Event>, st: Status)
    requires Init(s0, boot) && Occurs(Run(s0, events), st)
    ensures WellFormed(st) && Seeds(st) == Seeds(boot) && boot.configs.Keys <= st.configs.Keys
    ensures st.timestamp <= Run(s0, events).clock
  {
    RunKeeps(s0, boot, events);
    assert StatusInv(st, boot, Suspects(s0.nodes.Keys, events), Run(s0, events).clock);
  }

  /** Failure-detector provenance: a kbid on a dead list anywhere has lost three calls in a
      row to some node earlier in the run. */
  lemma DeadOnlyAfterFailures(s0: System, boot: Status, events: seq<Event>, st: Status, k: nat)
    requires Init(s0, boot) && Occurs(Run(s0, events), st)
    requires k in st.deadSeeds || k in st.deadCommons
    ensures exists i :: 0 <= i < |events| && Lost(s0.nodes.Keys, events[i], k)
  {
    RunKeeps(s0, boot, events);
    assert StatusInv(st, boot, Suspects(s0.nodes.Keys, events), Run(s0, events).clock);
    assert k in Dead(st);
  }

  /** No node's timestamp ever goes back, neither by a local change nor by an adoption. */
  lemma {:induction false} TimestampsAdvance(s0: System, boot: Status, before: seq<Event>, after: seq<Event>, node: nat)
    requires Init(s0, boot) && node in s0.nodes
    ensures var s, s' := Run(s0, before), Run(s0, before + after);
            node in s.nodes && node in s'.nodes && s.nodes[node].timestamp <= s'.nodes[node].timestamp
  {
    hide Init, Inv, Apply, Suspects;
    NodesStay(s0, before);
    if after == [] {
      assert before + after == before;
    } else {
      var front, last := after[..|after| - 1], after[|after| - 1];
      assert (before + after)[..|before + after| - 1] == before + front;
      TimestampsAdvance(s0, boot, before, front, node);
      RunKeeps(s0, boot, before + front);
      StepTimestamp(Run(s0, before + front), last, node, boot, Suspects(s0.nodes.Keys, before + front));
    }
  }

  lemma StepTimestamp(s: System, ev: Event, node: nat, boot: Status, suspects: set<nat>)
    requires Inv(s, boot, suspects) && node in s.nodes
    ensures node in Apply(s, ev).nodes && s.nodes[node].timestamp <= Apply(s, ev).nodes[node].timestamp
  {
    hide Members, Seeds, Dead, Move;
    assert StatusInv(s.nodes[node], boot, suspects, s.clock);
  }

  // ---- One record for each chunk ----

  predicate Truthful(st: Status, records: map<nat, Config>) {
    forall k :: k in st.configs ==> k in records && st.configs[k] == records[k]
  }

  predicate AllTruthful(s: System, records: map<nat, Config>) {
    && (forall k :: k in s.nodes ==> Truthful(s.nodes[k], records))
    && (forall i :: 0 <= i < |s.inFlight| ==> Truthful(s.inFlight[i].status, records))
  }

  lemma TruthfulStep(s: System, ev: Event, records: map<nat, Config>)
    requires AllTruthful(s, records)
    requires ev.Serve? ==> ev.data.kbid in records && records[ev.data.kbid] == ev.data.config
    ensures AllTruthful(Apply(s, ev), records)
  {
    hide Move;
  }

  lemma {:induction false} TruthfulRun(s0: System, boot: Status, events: seq<Event>, records: map<nat, Config>)
    requires Init(s0, boot) && Truthful(boot, records) && OneRecord(events, records)
    ensures AllTruthful(Run(s0, events), records)
  {
    if events != [] {
      var front := events[..|events| - 1];
      TruthfulRun(s0, boot, front, records);
      TruthfulStep(Run(s0, front), events[|events| - 1], records);
    }
  }

  /** If each chunk always announces one record, any two statuses anywhere that know a kbid
      hold the same config for it. */
  lemma SameConfigEverywhere(s0: System, boot: Status, events: seq<Event>, records: map<nat, Config>, a: Status, b: Status, k: nat)
    requires Init(s0, boot) && Truthful(boot, records) && OneRecord(events, records)
    requires Occurs(Run(s0, events), a) && Occurs(Run(s0, events), b) && k in a.configs && k in b.configs
    ensures a.configs[k] == b.configs[k]
  {
    TruthfulRun(s0, boot, events, records);
    assert Truthful(a, records) && Truthful(b, records);
  }

  // ---- What each event does, in every reachable state ----

  lemma OneMore(s0: System, events: seq<Event>, ev: Event)
    ensures Run(s0, events + [ev]) == Apply(Run(s0, events), ev)
  {
    var all := events + [ev];
    assert all[..|all| - 1] == events;
  }

  /** Of all nodes only one can have changed. */
  predicate OnlyAt(s: System, s': System, node: nat) {
    s'.nodes.Keys == s.nodes.Keys && forall k :: k in s.nodes && k != node ==> s'.nodes[k] == s.nodes[k]
  }

  /** A served call lets the caller in if it was unknown, and the snapshot that goes back is the
      status after that: both know the caller. */
  ghost predicate Served(s: System, s': System, server: nat, data: GossipData) {
    && server in s.nodes && OnlyAt(s, s', server) && s'.clock == s.clock
    && var st, st' := s.nodes[server], s'.nodes[server];
    && (if data.kbid in st.configs then st' == st else Joined(st, st', data, s.clock) && PlaceOf(st', data.kbid) == Common)
    && data.kbid in st'.configs
    && s'.inFlight == s.inFlight + [Snapshot(server, data.kbid, st')]
  }

  /** After three failed calls in a row to an alive member it is dead at that node, and nobody
      else is affected. */
  ghost predicate Died(s: System, s': System, node: nat, k: nat, flag: int) {
    && node in s.nodes && OnlyAt(s, s', node) && s'.inFlight == s.inFlight && s'.clock == s.clock
    && var st, st' := s.nodes[node], s'.nodes[node];
    && Failed(st, st', k, flag, s.clock)
    && (flag == 1 && k in st.seeds ==> k in st'.deadSeeds && k !in st'.seeds)
    && (flag == 2 && k in st.commons ==> k in st'.deadCommons && k !in st'.commons)
  }

  /** When an answer arrives, the node revives the member if it had called it as a dead one, and
      otherwise holds the answer if that is newer. (A revived member's answer is never newer.) */
  ghost predicate Received(s: System, s': System, m: Snapshot, flag: int, parsed: bool) {
    && m.to in s.nodes && OnlyAt(s, s', m.to) && s'.inFlight == s.inFlight && s'.clock == s.clock
    && var st, st' := s.nodes[m.to], s'.nodes[m.to];
    && if parsed && flag !in {-1, -2} && m.status.timestamp > st.timestamp then st' == m.status
       else Revived(st, st', m.from, flag, s.clock)
  }

  lemma ServeStep(s: System, server: nat, data: GossipData)
    requires server in s.nodes && WellFormed(s.nodes[server])
    ensures Served(s, Apply(s, Serve(server, data)), server, data)
  {
    JoinMeans(s.nodes[server], data, s.clock);
    hide WellFormed, CheckCommons, PlaceOf;
  }

  lemma FailureStep(s: System, node: nat, k: nat, flag: int)
    requires node in s.nodes && WellFormed(s.nodes[node])
    ensures Died(s, Apply(s, ThreeFailures(node, k, flag)), node, k, flag)
  {
    FailureMeans(s.nodes[node], k, flag, s.clock);
    NowDead(s.nodes[node], AfterFailure(s.nodes[node], k, flag, s.clock), k, flag, s.clock);
    hide Failed, WellFormed, AfterFailure;
  }

  lemma NowDead(st: Status, st': Status, k: nat, flag: int, now: nat)
    requires WellFormed(st) && Failed(st, st', k, flag, now)
    ensures flag == 1 && k in st.seeds ==> k in st'.deadSeeds && k !in st'.seeds
    ensures flag == 2 && k in st.commons ==> k in st'.deadCommons && k !in st'.commons
  {
    WellFormedMeans(st);
    hide WellFormed;
    assert flag == 1 && k in st.seeds ==> PlaceOf(st', k) == DeadSeed;
    assert flag == 2 && k in st.commons ==> PlaceOf(st, k) == Common && PlaceOf(st', k) == DeadCommon;
  }

  lemma ReceiveStep(s: System, index: nat, flag: int, parsed: bool)
    requires index < |s.inFlight| && s.inFlight[index].to in s.nodes && WellFormed(s.nodes[s.inFlight[index].to])
    requires s.inFlight[index].status.timestamp <= s.clock
    ensures Received(s, Apply(s, Receive(index, flag, parsed)), s.inFlight[index], flag, parsed)
  {
    var m := s.inFlight[index];
    AnswerMeans(s.nodes[m.to], m.from, flag, m.status, s.clock);
    hide WellFormed, Revived, AfterReply, AfterGarbage;
  }

  /** In every run a served call, three failures in a row and an arriving answer do that to the
      node they concern. With `DeadOnlyAfterFailures`: three failures, and nothing else, are the
      source of the dead lists. */
  lemma EventsMean(s0: System, boot: Status, events: seq<Event>, ev: Event)
    requires Init(s0, boot)
    ensures var s, s' := Run(s0, events), Run(s0, events + [ev]);
            && (ev.Serve? && ev.server in s0.nodes ==> Served(s, s', ev.server, ev.data))
            && (ev.ThreeFailures? && ev.node in s0.nodes ==> Died(s, s', ev.node, ev.kbid, ev.flag))
            && (ev.Receive? && ev.index < |s.inFlight| && s.inFlight[ev.index].to in s0.nodes ==>
                  Received(s, s', s.inFlight[ev.index], ev.flag, ev.parsed))
  {
    OneMore(s0, events, ev);
    NodesStay(s0, events);
    var s := Run(s0, events);
    forall st | Occurs(s, st) ensures WellFormed(st) && st.timestamp <= s.clock {
      GossipConservation(s0, boot, events, st);
    }
    hide Run, Init, WellFormed, Served, Died, Received, Apply;
    if ev.Serve? && ev.server in s0.nodes {
      ServeStep(s, ev.server, ev.data);
    } else if ev.ThreeFailures? && ev.node in s0.nodes {
      FailureStep(s, ev.node, ev.kbid, ev.flag);
    } else if ev.Receive? && ev.index < |s.inFlight| && s.inFlight[ev.index].to in s0.nodes {
      ReceiveStep(s, ev.index, ev.flag, ev.parsed);
    }
  }
}
