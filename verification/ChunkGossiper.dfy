/** The membership status object of a chunk node, updated in place, the part of the gossip
    loop that handles one picked member, and the choice of three replicas for a new file. */
module ChunkGossiper {
  import opened GossipStatus

  datatype Picks = Picked(kbid: nat, flag: int)

  class KyrinChunkGossiperStatus {
    var timestamp: nat
    var configs: map<nat, Config>
    var seeds: seq<nat>
    var commons: seq<nat>
    var deadSeeds: seq<nat>
    var deadCommons: seq<nat>

    constructor ()
      ensures View() == Status(timestamp, map[], [], [], [], [])
    {
      configs, seeds, commons, deadSeeds, deadCommons := map[], [], [], [], [];
    }

    function View(): Status
      reads this
    {
      Status(timestamp, configs, seeds, commons, deadSeeds, deadCommons)
    }

    /** Start from the configured members; a zero timestamp stands for the current time. */
    method Initialize(seeds: seq<nat>, commons: seq<nat>, stamp: nat, now: nat, cluster: map<nat, Config>)
      requires forall k :: k in seeds || k in commons ==> k in cluster
      modifies this
      ensures this.seeds == seeds && this.commons == commons
      ensures deadSeeds == old(deadSeeds) && deadCommons == old(deadCommons)
      ensures timestamp == if stamp != 0 then stamp else now
      ensures configs.Keys == (set k | k in seeds) + (set k | k in commons)
      ensures forall k :: k in configs ==> configs[k] == cluster[k]
      ensures old(deadSeeds) == old(deadCommons) == [] && NoDuplicates(seeds + commons) ==> WellFormed(View())
    {
      hide WellFormed, NoDuplicates;
      this.seeds, this.commons := seeds, commons;
      timestamp := if stamp != 0 then stamp else now;
      var all := AddConfigs(map[], seeds, cluster);
      all := AddConfigs(all, commons, cluster);
      configs := all;
      StartWellFormed(View());
    }

    /** One of the two loops that look up the configured members. */
    static method AddConfigs(start: map<nat, Config>, kbids: seq<nat>, cluster: map<nat, Config>)
      returns (all: map<nat, Config>)
      requires forall k :: k in kbids ==> k in cluster
      requires forall k :: k in start ==> k in cluster && start[k] == cluster[k]
      ensures all.Keys == start.Keys + set k | k in kbids
      ensures forall k :: k in all ==> k in cluster && all[k] == cluster[k]
    {
      all := start;
      for i := 0 to |kbids|
        invariant all.Keys == start.Keys + set k | k in kbids[..i]
        invariant forall k :: k in all ==> k in cluster && all[k] == cluster[k]
      {
        all := all[kbids[i] := cluster[kbids[i]]];
        assert kbids[..i + 1] == kbids[..i] + [kbids[i]];
      }
      assert kbids[..|kbids|] == kbids;
    }

    /** Learn of a caller that has no config yet. */
    method CheckCommons(data: GossipData, now: nat) returns (isNew: bool)
      modifies this
      ensures View() == GossipStatus.CheckCommons(old(View()), data, now)
      ensures isNew <==> data.kbid !in old(configs)
      ensures if isNew then Joined(old(View()), View(), data, now) else View() == old(View())
      ensures old(WellFormed(View())) ==> WellFormed(View())
    {
      JoinMeans(View(), data, now);
      isNew := false;
      if data.kbid !in configs {
        JoinWellFormed(View(), data, now);
        commons := commons + [data.kbid];
        configs := configs[data.kbid := data.config];
        timestamp := now;
        isNew := true;
      }
    }

    /** Search the first list for the kbid and move it to the second. */
    method SetItem(a: seq<nat>, b: seq<nat>, kbid: nat, now: nat) returns (a': seq<nat>, b': seq<nat>)
      modifies this`timestamp
      ensures (a', b') == Move(a, b, kbid) && timestamp == now
      ensures kbid !in a ==> (a', b') == (a, b)
      ensures kbid in a ==>
                b' == b + [kbid] && exists i :: 0 <= i < |a| && a[i] == kbid && kbid !in a[..i] && a' == a[..i] + a[i + 1..]
    {
      timestamp := now;
      for i := 0 to |a|
        invariant kbid !in a[..i]
      {
        if a[i] == kbid {
          EraseAt(a, i);
          return a[..i] + a[i + 1..], b + [kbid];
        }
        assert a[..i + 1] == a[..i] + [a[i]];
      }
      assert a[..|a|] == a;
      return a, b;
    }

    method SetDead(kbid: nat, flag: int, now: nat)
      modifies this
      ensures View() == GossipStatus.SetDead(old(View()), kbid, flag, now)
      ensures old(WellFormed(View())) ==> Failed(old(View()), View(), kbid, flag, now)
    {
      if WellFormed(View()) {
        SetDeadMeans(View(), kbid, flag, now);
      }
      hide WellFormed, Failed, Move;
      if flag == 1 {
        var a, b := SetItem(seeds, deadSeeds, kbid, now);
        seeds, deadSeeds := a, b;
      } else if flag == 2 {
        var a, b := SetItem(commons, deadCommons, kbid, now);
        commons, deadCommons := a, b;
      }
    }

    method SetAlive(kbid: nat, flag: int, now: nat)
      modifies this
      ensures View() == GossipStatus.SetAlive(old(View()), kbid, flag, now)
      ensures old(WellFormed(View())) ==> Revived(old(View()), View(), kbid, flag, now)
    {
      if WellFormed(View()) {
        SetAliveMeans(View(), kbid, flag, now);
      }
      hide WellFormed, Revived, Move;
      if flag == -1 {
        var a, b := SetItem(deadSeeds, seeds, kbid, now);
        deadSeeds, seeds := a, b;
      } else if flag == -2 {
        var a, b := SetItem(deadCommons, commons, kbid, now);
        deadCommons, commons := a, b;
      }
    }

    /** The keys in map order. */
    static method SortedKeys(keys: set<nat>) returns (order: seq<nat>)
      ensures forall k :: k in order <==> k in keys
      ensures forall i, j :: 0 <= i < j < |order| ==> order[i] < order[j]
    {
      order := [];
      var rest := keys;
      while rest != {}
        invariant rest <= keys
        invariant forall k :: k in order <==> k in keys && k !in rest
        invariant forall i, k :: 0 <= i < |order| && k in rest ==> order[i] < k
        invariant forall i, j :: 0 <= i < j < |order| ==> order[i] < order[j]
        decreases |rest|
      {
        var k := Smallest(rest);
        order := order + [k];
        rest := rest - {k};
      }
    }

    /** The records in key order. */
    static method ListConfigs(configs: map<nat, Config>) returns (datas: seq<GossipData>)
      ensures ConfigsOf(datas) == configs && Lists(datas, configs)
    {
      var order := SortedKeys(configs.Keys);
      datas := [];
      for i := 0 to |order|
        invariant |datas| == i && forall j :: 0 <= j < i ==> datas[j] == GossipData(order[j], configs[order[j]])
      {
        datas := datas + [GossipData(order[i], configs[order[i]])];
      }
      AllListed(datas, order, configs);
      ConfigsOfListed(datas, configs);
    }

    /** Write the status as a message, the configs in key order. A receiver reads the same
        status back. */
    method ToProtobuf() returns (m: StatusMessage)
      ensures (m.seeds, m.commons, m.deadSeeds, m.deadCommons, m.timestamp) == (seeds, commons, deadSeeds, deadCommons, timestamp)
      ensures Lists(m.datas, configs)
      ensures FromMessage(m) == View()
    {
      var datas := ListConfigs(configs);
      m := StatusMessage(seeds, commons, deadSeeds, deadCommons, datas, timestamp);
    }

    /** Replace the status by the one a message carries. */
    method FromString(m: StatusMessage)
      modifies this
      ensures View() == FromMessage(m)
      ensures (seeds, commons, deadSeeds, deadCommons, timestamp) == (m.seeds, m.commons, m.deadSeeds, m.deadCommons, m.timestamp)
    {
      seeds, commons, deadSeeds, deadCommons, configs := m.seeds, m.commons, m.deadSeeds, m.deadCommons, map[];
      for i := 0 to |m.datas|
        invariant configs == ConfigsOf(m.datas[..i])
        invariant (seeds, commons, deadSeeds, deadCommons) == (m.seeds, m.commons, m.deadSeeds, m.deadCommons)
      {
        configs := configs[m.datas[i].kbid := m.datas[i].config];
        assert m.datas[..i + 1] == m.datas[..i] + [m.datas[i]];
        ConfigsOfAppend(m.datas[..i], m.datas[i]);
      }
      assert m.datas[..|m.datas|] == m.datas;
      timestamp := m.timestamp;
    }

    /** One picked member of a gossip round. `answers` says which of the up to four calls get
        through; three failures in a row mean dead even if the fourth call succeeds. */
    method GossipWith(pick: Picks, answers: seq<bool>, response: StatusMessage, parses: bool, now: nat)
      requires |answers| == 4
      modifies this
      ensures View() ==
              if pick.kbid == 0 || pick.kbid !in old(configs) then old(View())
              else if !answers[0] && !answers[1] && !answers[2] then AfterFailure(old(View()), pick.kbid, pick.flag, now)
              else if parses then AfterReply(old(View()), pick.kbid, pick.flag, FromMessage(response), now)
              else AfterGarbage(old(View()), pick.kbid, pick.flag, now)
      // What that means for the members.
      ensures old(WellFormed(View())) && pick.kbid != 0 && pick.kbid in old(configs) ==>
                if !answers[0] && !answers[1] && !answers[2] then Failed(old(View()), View(), pick.kbid, pick.flag, now)
                else if parses && response.timestamp > StampBefore(old(View()), pick.flag, now) then View() == FromMessage(response)
                else Revived(old(View()), View(), pick.kbid, pick.flag, now)
    {
      if WellFormed(View()) {
        FailureMeans(View(), pick.kbid, pick.flag, now);
        AnswerMeans(View(), pick.kbid, pick.flag, FromMessage(response), now);
      }
      hide WellFormed, Failed, Revived, Move;
      if pick.kbid == 0 || pick.kbid !in configs {
        return;
      }
      var retry := 0;
      while !answers[retry] && retry < 3
        invariant 0 <= retry <= 3
        invariant forall i :: 0 <= i < retry ==> !answers[i]
        decreases 3 - retry
      {
        retry := retry + 1;
      }
      if retry == 3 && pick.flag > 0 {
        SetDead(pick.kbid, pick.flag, now);
      } else if retry < 3 && pick.flag < 0 {
        SetAlive(pick.kbid, pick.flag, now);
      }
      if retry == 3 || !parses {
        return;
      }
      if FromMessage(response).timestamp > timestamp {
        FromString(response);
      }
    }

    /** The replica that a draw among n alive members points to. */
    function AliveAt(draw: nat): (k: nat)
      requires |seeds| + |commons| > 0
      reads this
      ensures k == (seeds + commons)[draw % (|seeds| + |commons|)]
    {
      var t := draw % (|seeds| + |commons|);
      if t >= |seeds| then commons[t - |seeds|] else seeds[t]
    }

    /** Draw alive members until three different ones are found: the members at the first draws
        that hit three different ones, in that order. */
    method GetRandomAlive3(draws: nat -> nat, ghost window: nat)
      returns (ok: bool, res: seq<(nat, Config)>, ghost at: seq<nat>)
      requires WellFormed(View()) && Fair(draws, |seeds| + |commons|, window)
      ensures ok <==> |seeds| + |commons| >= 3
      ensures ok ==> |res| == 3 && res[0].0 != res[1].0 && res[0].0 != res[2].0 && res[1].0 != res[2].0
      ensures ok ==> forall i :: 0 <= i < 3 ==>
                (res[i].0 in seeds || res[i].0 in commons) && res[i].0 in configs && res[i].1 == configs[res[i].0]
      ensures ok ==> FirstHits(draws, [res[0].0, res[1].0, res[2].0], at)
    {
      res, at := [], [];
      var v: seq<nat> := [];
      var n := |seeds| + |commons|;
      if n < 3 {
        return false, res, at;
      }
      AliveDistinct(View());
      var drawn := 0;
      ghost var hit: int := NextFresh(draws, window, v, 0);
      assert FirstHits(draws, v, at) && AllHit(draws, v, 0) && Chosen(v, res) && NoDuplicates(v);
      hide FirstHits, AllHit, WellFormed, Fair, AliveAt, Chosen, NoDuplicates;
      while |v| < 3
        invariant |v| <= 3 && NoDuplicates(v) && Chosen(v, res)
        invariant |v| < 3 ==> drawn <= hit && AliveAt(draws(hit)) !in v
        invariant FirstHits(draws, v, at) && AllHit(draws, v, drawn)
        decreases 3 - |v|, hit as int - drawn
      {
        var tk := AliveAt(draws(drawn));
        AliveIsMember(draws(drawn));
        ChooseOne(v, res, tk);
        OneMoreHit(draws, v, at, drawn);
        var j := Search(v, tk);
        if j == |v| {
          res := res + [(tk, configs[tk])];
          v := v + [tk];
          at := at + [drawn];
          if |v| < 3 {
            hit := NextFresh(draws, window, v, drawn + 1);
          }
        }
        drawn := drawn + 1;
      }
      ChosenThree(v, res);
      return true, res, at;
    }

    /** The results are these alive members with their configs. */
    predicate Chosen(v: seq<nat>, res: seq<(nat, Config)>)
      reads this
    {
      && |v| == |res|
      && forall i :: 0 <= i < |v| ==> (v[i] in seeds || v[i] in commons) && v[i] in configs && res[i] == (v[i], configs[v[i]])
    }

    lemma ChooseOne(v: seq<nat>, res: seq<(nat, Config)>, tk: nat)
      requires Chosen(v, res) && NoDuplicates(v) && (tk in seeds || tk in commons) && tk in configs
      ensures tk !in v ==> NoDuplicates(v + [tk]) && Chosen(v + [tk], res + [(tk, configs[tk])])
    {
    }

    lemma ChosenThree(v: seq<nat>, res: seq<(nat, Config)>)
      requires Chosen(v, res) && NoDuplicates(v) && |v| == 3
      ensures |res| == 3 && v == [res[0].0, res[1].0, res[2].0]
      ensures res[0].0 != res[1].0 && res[0].0 != res[2].0 && res[1].0 != res[2].0
      ensures forall i :: 0 <= i < 3 ==>
                (res[i].0 in seeds || res[i].0 in commons) && res[i].0 in configs && res[i].1 == configs[res[i].0]
    {
    }

    /** The inner loop: where a kbid was chosen before, or how many were. */
    static method Search(v: seq<nat>, tk: nat) returns (j: nat)
      ensures if tk in v then j < |v| && v[j] == tk else j == |v|
    {
      j := 0;
      while j < |v| && tk != v[j]
        invariant j <= |v| && forall i :: 0 <= i < j ==> v[i] != tk
      {
        j := j + 1;
      }
    }

    lemma AliveIsMember(draw: nat)
      requires |seeds| + |commons| > 0
      ensures AliveAt(draw) in seeds || AliveAt(draw) in commons
    {
    }

    /** Draws at[0], at[1], ... hit these members, and all draws in between hit earlier ones. */
    ghost predicate FirstHits(draws: nat -> nat, v: seq<nat>, at: seq<nat>)
      requires |seeds| + |commons| > 0
      reads this
    {
      && |v| == |at|
      && (forall i :: 0 <= i < |at| ==> v[i] == AliveAt(draws(at[i])))
      && (forall i, q :: 0 <= i < |at| && 0 <= q < at[i] ==> AliveAt(draws(q)) in v[..i])
      && (forall i, j :: 0 <= i < j < |at| ==> at[i] < at[j])
    }

    /** All draws below `drawn` hit these members. */
    ghost predicate AllHit(draws: nat -> nat, v: seq<nat>, drawn: nat)
      requires |seeds| + |commons| > 0
      reads this
    {
      forall q :: 0 <= q < drawn ==> AliveAt(draws(q)) in v
    }

    lemma HitBefore(draws: nat -> nat, v: seq<nat>, at: seq<nat>, i: nat, q: nat)
      requires |seeds| + |commons| > 0 && FirstHits(draws, v, at) && i < |at| && AliveAt(draws(q)) !in v
      ensures at[i] < q
    {
      hide AliveAt;
      assert v[i] in v && forall x :: x in v[..i] ==> x in v;
    }

    lemma EarlierHit(draws: nat -> nat, v: seq<nat>, at: seq<nat>, drawn: nat, tk: nat, i: nat, q: nat)
      requires |seeds| + |commons| > 0 && FirstHits(draws, v, at) && AllHit(draws, v, drawn)
      requires i <= |at| && q < (at + [drawn])[i]
      ensures AliveAt(draws(q)) in (v + [tk])[..i]
    {
      hide AliveAt;
      assert (v + [tk])[..i] == v[..i];
      if i == |at| {
        assert v[..i] == v;
      }
    }

    lemma AllHitOneMore(draws: nat -> nat, v: seq<nat>, drawn: nat)
      requires |seeds| + |commons| > 0 && AllHit(draws, v, drawn)
      ensures var tk := AliveAt(draws(drawn));
              AllHit(draws, v + [tk], drawn + 1) && (tk in v ==> AllHit(draws, v, drawn + 1))
    {
      hide AliveAt;
    }

    lemma FirstHitsOneMore(draws: nat -> nat, v: seq<nat>, at: seq<nat>, drawn: nat)
      requires |seeds| + |commons| > 0 && FirstHits(draws, v, at) && AllHit(draws, v, drawn)
      requires AliveAt(draws(drawn)) !in v
      ensures FirstHits(draws, v + [AliveAt(draws(drawn))], at + [drawn])
    {
      var tk := AliveAt(draws(drawn));
      forall i: nat, q: nat | i < |at + [drawn]| && q < (at + [drawn])[i] ensures AliveAt(draws(q)) in (v + [tk])[..i] {
        EarlierHit(draws, v, at, drawn, tk, i, q);
      }
      forall i | 0 <= i < |at| ensures at[i] < drawn {
        HitBefore(draws, v, at, i, drawn);
      }
      hide AliveAt, AllHit;
    }

    lemma OneMoreHit(draws: nat -> nat, v: seq<nat>, at: seq<nat>, drawn: nat)
      requires |seeds| + |commons| > 0 && FirstHits(draws, v, at) && AllHit(draws, v, drawn)
      ensures var tk := AliveAt(draws(drawn));
              if tk in v then AllHit(draws, v, drawn + 1)
              else FirstHits(draws, v + [tk], at + [drawn]) && AllHit(draws, v + [tk], drawn + 1)
    {
      hide AliveAt, AllHit, FirstHits;
      AllHitOneMore(draws, v, drawn);
      if AliveAt(draws(drawn)) !in v {
        FirstHitsOneMore(draws, v, at, drawn);
      }
    }

    /** While fewer than three are chosen, some later draw hits a member not chosen yet. */
    lemma NextFresh(draws: nat -> nat, window: nat, v: seq<nat>, from: nat) returns (p: nat)
      requires WellFormed(View()) && Fair(draws, |seeds| + |commons|, window) && |seeds| + |commons| >= 3 && |v| < 3
      ensures from <= p && AliveAt(draws(p)) !in v
    {
      AliveDistinct(View());
      var n, alive := |seeds| + |commons|, seeds + commons;
      hide WellFormed;
      var t := if alive[0] !in v then 0 else if alive[1] !in v then 1 else 2;
      OneOfThree(alive, v);
      assert ComesUp(draws, n, from, window, t);
      hide ComesUp, Fair, NoDuplicates;
      p := DrawOf(draws, n, from, window, t);
      AlivePosition(draws(p), t);
    }

    lemma AlivePosition(draw: nat, t: nat)
      requires t < |seeds| + |commons| && draw % (|seeds| + |commons|) == t
      ensures AliveAt(draw) == (seeds + commons)[t]
    {
    }
  }

  lemma OneOfThree(alive: seq<nat>, v: seq<nat>)
    requires NoDuplicates(alive) && |alive| >= 3 && |v| < 3
    ensures alive[0] !in v || alive[1] !in v || alive[2] !in v
  {
  }

  lemma DrawOf(draws: nat -> nat, n: nat, from: nat, window: nat, t: nat) returns (p: nat)
    requires n > 0 && ComesUp(draws, n, from, window, t)
    ensures from <= p < from + window && draws(p) % n == t
  {
    p :| from <= p < from + window && draws(p) % n == t;
  }

  /** One record for every config, in key order, and no other. */
  predicate Lists(datas: seq<GossipData>, configs: map<nat, Config>) {
    && (forall i, j :: 0 <= i < j < |datas| ==> datas[i].kbid < datas[j].kbid)
    && (forall i :: 0 <= i < |datas| ==> datas[i].kbid in configs && datas[i].config == configs[datas[i].kbid])
    && (forall k :: k in configs ==> GossipData(k, configs[k]) in datas)
  }

  lemma AllListed(datas: seq<GossipData>, order: seq<nat>, configs: map<nat, Config>)
    requires |datas| == |order| && (forall k :: k in order <==> k in configs)
    requires forall i :: 0 <= i < |datas| ==> order[i] in configs && datas[i] == GossipData(order[i], configs[order[i]])
    requires forall i, j :: 0 <= i < j < |order| ==> order[i] < order[j]
    ensures Lists(datas, configs)
  {
    forall k | k in configs ensures GossipData(k, configs[k]) in datas {
      var i :| 0 <= i < |order| && order[i] == k;
      assert datas[i] == GossipData(k, configs[k]);
    }
  }

  lemma {:induction false} ConfigsOfPrefix(datas: seq<GossipData>, configs: map<nat, Config>, n: nat)
    requires Lists(datas, configs) && n <= |datas|
    ensures var c := ConfigsOf(datas[..n]);
            && (forall k :: k in c ==> k in configs && c[k] == configs[k])
            && (forall i :: 0 <= i < n ==> datas[i].kbid in c)
  {
    if n > 0 {
      ConfigsOfPrefix(datas, configs, n - 1);
      assert datas[..n] == datas[..n - 1] + [datas[n - 1]];
      ConfigsOfAppend(datas[..n - 1], datas[n - 1]);
      hide ConfigsOf;
    }
  }

  lemma ConfigsOfListed(datas: seq<GossipData>, configs: map<nat, Config>)
    requires Lists(datas, configs)
    ensures ConfigsOf(datas) == configs
  {
    ConfigsOfPrefix(datas, configs, |datas|);
    assert datas[..|datas|] == datas;
    hide ConfigsOf;
    forall k | k in configs ensures k in ConfigsOf(datas) {
      var i :| 0 <= i < |datas| && datas[i] == GossipData(k, configs[k]);
    }
  }

  /** Position t of n is drawn at least once from draw `from` on, within the window. */
  ghost predicate ComesUp(draws: nat -> nat, n: nat, from: nat, window: nat, t: nat)
    requires n > 0
  {
    exists p :: from <= p < from + window && draws(p) % n == t
  }

  /** Every position comes up again within any `window` consecutive draws. */
  ghost predicate Fair(draws: nat -> nat, n: nat, window: nat) {
    forall from: nat, t: nat :: t < n ==> ComesUp(draws, n, from, window, t)
  }

  lemma StartWellFormed(s: Status)
    requires s.configs.Keys == (set k | k in s.seeds) + set k | k in s.commons
    ensures s.deadSeeds == s.deadCommons == [] && NoDuplicates(s.seeds + s.commons) ==> WellFormed(s)
  {
    if s.deadSeeds == s.deadCommons == [] && NoDuplicates(s.seeds + s.commons) {
      ListIsSet(s.seeds + s.commons);
      assert s.configs.Keys == set k | k in s.seeds + s.commons;
    }
  }

  lemma JoinWellFormed(s: Status, data: GossipData, now: nat)
    requires data.kbid !in s.configs
    ensures WellFormed(s) ==> WellFormed(GossipStatus.CheckCommons(s, data, now))
  {
    var s' := GossipStatus.CheckCommons(s, data, now);
    assert Members(s') == Members(s) + multiset{data.kbid};
    assert multiset(s'.configs.Keys) == multiset(s.configs.Keys) + multiset{data.kbid};
  }

  lemma {:induction false} EraseAt(a: seq<nat>, i: nat)
    requires i < |a| && a[i] !in a[..i]
    ensures Erase(a, a[i]) == a[..i] + a[i + 1..]
  {
    if i > 0 {
      assert a[..i][1..] == a[1..][..i - 1];
      assert a[0] == a[..i][0];
      EraseAt(a[1..], i - 1);
    }
  }

  lemma {:induction false} ListIsSet(a: seq<nat>)
    requires NoDuplicates(a)
    ensures multiset(a) == multiset(set k | k in a)
  {
    if a != [] {
      var n := |a| - 1;
      ListIsSet(a[..n]);
      assert a == a[..n] + [a[n]];
      assert (set k | k in a) == (set k | k in a[..n]) + {a[n]};
    }
  }

  /** The first key in map order. */
  method Smallest(s: set<nat>) returns (k: nat)
    requires s != {}
    ensures k in s && forall j :: j in s ==> k <= j
  {
    k :| k in s;
    var rest := s - {k};
    while rest != {}
      invariant rest <= s && k in s && forall j :: j in s && j !in rest ==> k <= j
      decreases |rest|
    {
      var j :| j in rest;
      rest := rest - {j};
      if j < k {
        k := j;
      }
    }
  }

  /** On a well-formed status all alive positions hold different kbids, each with a config. */
  lemma AliveDistinct(s: Status)
    requires WellFormed(s)
    ensures NoDuplicates(s.seeds + s.commons)
    ensures forall k :: k in s.seeds || k in s.commons ==> k in s.configs
  {
    WellFormedMeans(s);
    OnceEach(s, s.seeds + s.commons);
  }
}
