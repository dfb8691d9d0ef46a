/** The membership status that every chunk node keeps: four lists of kbids and the config of
    every member, with the operations that gossip applies to it. */
module GossipStatus {

  datatype Config = Config(
    host: string,
    gossipPort: nat,
    downloadChunkPort: nat,
    uploadChunkPort: nat,
    setFileKeyinfoPort: nat,
    getFileKeyinfoPort: nat
  )

  datatype Status = Status(
    timestamp: nat,
    configs: map<nat, Config>,
    seeds: seq<nat>,
    commons: seq<nat>,
    deadSeeds: seq<nat>,
    deadCommons: seq<nat>
  )

  /** What a node says about itself when it calls another one. */
  datatype GossipData = GossipData(kbid: nat, config: Config)

  /** The status as a message. */
  datatype StatusMessage = StatusMessage(
    seeds: seq<nat>,
    commons: seq<nat>,
    deadSeeds: seq<nat>,
    deadCommons: seq<nat>,
    datas: seq<GossipData>,
    timestamp: nat
  )

  // ---- The operations as functions ----

  /** Without the first occurrence of k. */
  function Erase(a: seq<nat>, k: nat): seq<nat> {
    if a == [] then [] else if a[0] == k then a[1..] else [a[0]] + Erase(a[1..], k)
  }

  /** Both lists after `set_item`. */
  function Move(a: seq<nat>, b: seq<nat>, k: nat): (seq<nat>, seq<nat>) {
    if k in a then (Erase(a, k), b + [k]) else (a, b)
  }

  function CheckCommons(s: Status, data: GossipData, now: nat): Status {
    if data.kbid in s.configs then s
    else s.(commons := s.commons + [data.kbid], configs := s.configs[data.kbid := data.config], timestamp := now)
  }

  function SetDead(s: Status, k: nat, flag: int, now: nat): Status {
    if flag == 1 then
      var (a, b) := Move(s.seeds, s.deadSeeds, k);
      s.(seeds := a, deadSeeds := b, timestamp := now)
    else if flag == 2 then
      var (a, b) := Move(s.commons, s.deadCommons, k);
      s.(commons := a, deadCommons := b, timestamp := now)
    else s
  }

  function SetAlive(s: Status, k: nat, flag: int, now: nat): Status {
    if flag == -1 then
      var (a, b) := Move(s.deadSeeds, s.seeds, k);
      s.(deadSeeds := a, seeds := b, timestamp := now)
    else if flag == -2 then
      var (a, b) := Move(s.deadCommons, s.commons, k);
      s.(deadCommons := a, commons := b, timestamp := now)
    else s
  }

  /** Three failed calls in a row. */
  function AfterFailure(s: Status, k: nat, flag: int, now: nat): Status {
    if flag > 0 then SetDead(s, k, flag, now) else s
  }

  /** A call that got through: revive a dead target, then adopt the answer if it is newer. */
  function AfterReply(s: Status, k: nat, flag: int, answer: Status, now: nat): Status {
    var s1 := if flag < 0 then SetAlive(s, k, flag, now) else s;
    if answer.timestamp > s1.timestamp then answer else s1
  }

  /** An answer that cannot be parsed still revives the target. */
  function AfterGarbage(s: Status, k: nat, flag: int, now: nat): Status {
    if flag < 0 then SetAlive(s, k, flag, now) else s
  }

  // ---- Well-formedness ----

  function Members(s: Status): multiset<nat> {
    multiset(s.seeds) + multiset(s.commons) + multiset(s.deadSeeds) + multiset(s.deadCommons)
  }

  /** Every kbid with a config is in exactly one of the lists, once, and nothing else is. */
  predicate WellFormed(s: Status) {
    Members(s) == multiset(s.configs.Keys)
  }

  function Seeds(s: Status): multiset<nat> {
    multiset(s.seeds) + multiset(s.deadSeeds)
  }

  function Dead(s: Status): multiset<nat> {
    multiset(s.deadSeeds) + multiset(s.deadCommons)
  }

  predicate NoDuplicates(a: seq<nat>) {
    forall i, j :: 0 <= i < j < |a| ==> a[i] != a[j]
  }

  predicate Disjoint(a: seq<nat>, b: seq<nat>) {
    forall k :: k in a ==> k !in b
  }

  lemma {:induction false} TwiceInList(a: seq<nat>, i: nat, j: nat)
    requires i < j < |a| && a[i] == a[j]
    ensures multiset(a)[a[i]] >= 2
  {
    assert a == a[..j] + a[j..];
    assert a[..j][i] == a[i] && a[j..][0] == a[i];
    assert a[i] in multiset(a[..j]) && a[i] in multiset(a[j..]);
  }

  lemma OnceEach(s: Status, a: seq<nat>)
    requires WellFormed(s) && multiset(a) <= Members(s)
    ensures NoDuplicates(a)
  {
    forall i, j | 0 <= i < j < |a| ensures a[i] != a[j] {
      assert multiset(s.configs.Keys)[a[i]] <= 1;
      if a[i] == a[j] {
        TwiceInList(a, i, j);
      }
    }
  }

  lemma NotInBoth(s: Status, a: seq<nat>, b: seq<nat>)
    requires WellFormed(s) && multiset(a) + multiset(b) <= Members(s)
    ensures Disjoint(a, b)
  {
    forall k | k in a ensures k !in b {
      assert k in multiset(a) && multiset(s.configs.Keys)[k] <= 1;
      assert k in b <==> k in multiset(b);
    }
  }

  /** What well-formedness says of the lists: no duplicates, pairwise disjoint, together the
      keys of the config map. */
  lemma WellFormedMeans(s: Status)
    requires WellFormed(s)
    ensures NoDuplicates(s.seeds) && NoDuplicates(s.commons) && NoDuplicates(s.deadSeeds) && NoDuplicates(s.deadCommons)
    ensures Disjoint(s.seeds, s.commons) && Disjoint(s.seeds, s.deadSeeds) && Disjoint(s.seeds, s.deadCommons)
    ensures Disjoint(s.commons, s.deadSeeds) && Disjoint(s.commons, s.deadCommons) && Disjoint(s.deadSeeds, s.deadCommons)
    ensures forall k :: k in s.configs <==> k in s.seeds || k in s.commons || k in s.deadSeeds || k in s.deadCommons
  {
    OnceEach(s, s.seeds);
    OnceEach(s, s.commons);
    OnceEach(s, s.deadSeeds);
    OnceEach(s, s.deadCommons);
    NotInBoth(s, s.seeds, s.commons);
    NotInBoth(s, s.seeds, s.deadSeeds);
    NotInBoth(s, s.seeds, s.deadCommons);
    NotInBoth(s, s.commons, s.deadSeeds);
    NotInBoth(s, s.commons, s.deadCommons);
    NotInBoth(s, s.deadSeeds, s.deadCommons);
    forall k ensures k in s.configs <==> k in s.seeds || k in s.commons || k in s.deadSeeds || k in s.deadCommons {
      assert k in s.configs <==> k in Members(s);
    }
  }

  lemma {:induction false} EraseOne(a: seq<nat>, k: nat)
    requires k in a
    ensures multiset(Erase(a, k)) == multiset(a) - multiset{k}
  {
    assert a == [a[0]] + a[1..];
    if a[0] != k {
      EraseOne(a[1..], k);
    }
  }

  /** Moving a kbid keeps both lists together the same. */
  lemma MoveKeeps(a: seq<nat>, b: seq<nat>, k: nat)
    ensures multiset(Move(a, b, k).0) + multiset(Move(a, b, k).1) == multiset(a) + multiset(b)
    ensures multiset(Move(a, b, k).0) <= multiset(a)
    ensures multiset(Move(a, b, k).1) <= multiset(b) + multiset{k}
  {
    if k in a {
      EraseOne(a, k);
    }
  }

  /** What marking a member dead or alive keeps: the members, their configs, the seed set. */
  predicate SameCluster(s: Status, s': Status) {
    Members(s') == Members(s) && Seeds(s') == Seeds(s) && s'.configs == s.configs
  }

  lemma SameSum(a: multiset<nat>, b: multiset<nat>, a': multiset<nat>, b': multiset<nat>, c: multiset<nat>, d: multiset<nat>)
    requires a' + b' == a + b
    ensures a' + c + b' + d == a + c + b + d && b' + c + a' + d == b + c + a + d
    ensures c + a' + d + b' == c + a + d + b && c + b' + d + a' == c + b + d + a
    ensures b' + a' == a + b
  {
    assert forall k :: a'[k] + b'[k] == (a' + b')[k] == (a + b)[k] == a[k] + b[k];
  }

  lemma SetDeadKeeps(s: Status, k: nat, flag: int, now: nat)
    ensures SameCluster(s, SetDead(s, k, flag, now)) && Dead(SetDead(s, k, flag, now)) <= Dead(s) + multiset{k}
  {
    MoveKeeps(s.seeds, s.deadSeeds, k);
    MoveKeeps(s.commons, s.deadCommons, k);
    hide Move;
    var s' := SetDead(s, k, flag, now);
    SameSum(multiset(s.seeds), multiset(s.deadSeeds), multiset(s'.seeds), multiset(s'.deadSeeds),
            multiset(s.commons), multiset(s.deadCommons));
    SameSum(multiset(s.commons), multiset(s.deadCommons), multiset(s'.commons), multiset(s'.deadCommons),
            multiset(s'.seeds), multiset(s'.deadSeeds));
  }

  lemma SetAliveKeeps(s: Status, k: nat, flag: int, now: nat)
    ensures SameCluster(s, SetAlive(s, k, flag, now)) && Dead(SetAlive(s, k, flag, now)) <= Dead(s)
  {
    hide Move;
    var s' := SetAlive(s, k, flag, now);
    if flag == -1 {
      MoveKeeps(s.deadSeeds, s.seeds, k);
      SameSum(multiset(s.deadSeeds), multiset(s.seeds), multiset(s'.deadSeeds), multiset(s'.seeds),
              multiset(s.commons), multiset(s.deadCommons));
    } else if flag == -2 {
      MoveKeeps(s.deadCommons, s.commons, k);
      SameSum(multiset(s.deadCommons), multiset(s.commons), multiset(s'.deadCommons), multiset(s'.commons),
              multiset(s.seeds), multiset(s.deadSeeds));
    }
  }

  // ---- What the operations do to each member ----

  /** The list that a member is on. */
  datatype Place = Seed | Common | DeadSeed | DeadCommon | Unknown

  function PlaceOf(s: Status, k: nat): Place {
    if k in s.seeds then Seed
    else if k in s.commons then Common
    else if k in s.deadSeeds then DeadSeed
    else if k in s.deadCommons then DeadCommon
    else Unknown
  }

  /** Member k, if it was at one place, is now at the other; nobody else moved, no config
      changed, and the time is stamped. */
  ghost predicate Relocated(s: Status, s': Status, k: nat, from: Place, to: Place, now: nat) {
    && (forall j :: PlaceOf(s', j) == if j == k && PlaceOf(s, k) == from then to else PlaceOf(s, j))
    && s'.configs == s.configs && s'.timestamp == now
  }

  /** The caller is now the last of the commons, with the announced config; the rest is as it
      was, and the time is stamped. */
  predicate Joined(s: Status, s': Status, data: GossipData, now: nat) {
    && s'.commons == s.commons + [data.kbid]
    && (s'.seeds, s'.deadSeeds, s'.deadCommons) == (s.seeds, s.deadSeeds, s.deadCommons)
    && s'.configs.Keys == s.configs.Keys + {data.kbid}
    && s'.configs[data.kbid] == data.config
    && (forall k :: k in s.configs && k != data.kbid ==> s'.configs[k] == s.configs[k])
    && s'.timestamp == now
  }

  lemma {:induction false} EraseMembers(a: seq<nat>, k: nat, j: nat)
    requires NoDuplicates(a)
    ensures j in Erase(a, k) <==> j in a && j != k
  {
    if a != [] {
      assert a == [a[0]] + a[1..];
      if a[0] != k {
        EraseMembers(a[1..], k, j);
      } else {
        assert forall i :: 1 <= i < |a| ==> a[i] != a[0];
      }
    }
  }

  lemma MoveMembers(a: seq<nat>, b: seq<nat>, k: nat, j: nat)
    requires NoDuplicates(a)
    ensures j in Move(a, b, k).0 <==> j in a && j != k
    ensures j in Move(a, b, k).1 <==> j in b || (j == k && k in a)
  {
    EraseMembers(a, k, j);
  }

  /** An unknown caller joins, a known one changes nothing. */
  lemma JoinMeans(s: Status, data: GossipData, now: nat)
    ensures var s' := CheckCommons(s, data, now);
            if data.kbid in s.configs then s' == s else Joined(s, s', data, now)
    ensures WellFormed(s) && data.kbid !in s.configs ==> PlaceOf(CheckCommons(s, data, now), data.kbid) == Common
  {
    if WellFormed(s) {
      WellFormedMeans(s);
    }
  }

  /** A member on an alive list goes to the dead list of its kind, whatever else is asked for
      moves nobody. */
  lemma SetDeadMeans(s: Status, k: nat, flag: int, now: nat)
    requires WellFormed(s)
    ensures var s' := SetDead(s, k, flag, now);
            if flag == 1 then Relocated(s, s', k, Seed, DeadSeed, now)
            else if flag == 2 then Relocated(s, s', k, Common, DeadCommon, now)
            else s' == s
  {
    WellFormedMeans(s);
    hide WellFormed, Move;
    var s' := SetDead(s, k, flag, now);
    forall j ensures PlaceOf(s', j) == if j == k && flag == 1 && PlaceOf(s, k) == Seed then DeadSeed
                                       else if j == k && flag == 2 && PlaceOf(s, k) == Common then DeadCommon else PlaceOf(s, j) {
      MoveMembers(s.seeds, s.deadSeeds, k, j);
      MoveMembers(s.commons, s.deadCommons, k, j);
    }
  }

  /** And back. */
  lemma SetAliveMeans(s: Status, k: nat, flag: int, now: nat)
    requires WellFormed(s)
    ensures var s' := SetAlive(s, k, flag, now);
            if flag == -1 then Relocated(s, s', k, DeadSeed, Seed, now)
            else if flag == -2 then Relocated(s, s', k, DeadCommon, Common, now)
            else s' == s
  {
    WellFormedMeans(s);
    hide WellFormed, Move;
    var s' := SetAlive(s, k, flag, now);
    forall j ensures PlaceOf(s', j) == if j == k && flag == -1 && PlaceOf(s, k) == DeadSeed then Seed
                                       else if j == k && flag == -2 && PlaceOf(s, k) == DeadCommon then Common else PlaceOf(s, j) {
      MoveMembers(s.deadSeeds, s.seeds, k, j);
      MoveMembers(s.deadCommons, s.commons, k, j);
    }
  }

  /** What three failures in a row come to. */
  ghost predicate Failed(s: Status, s': Status, k: nat, flag: int, now: nat) {
    if flag == 1 then Relocated(s, s', k, Seed, DeadSeed, now)
    else if flag == 2 then Relocated(s, s', k, Common, DeadCommon, now)
    else s' == s
  }

  /** What a call that got through comes to, when nothing is adopted. */
  ghost predicate Revived(s: Status, s': Status, k: nat, flag: int, now: nat) {
    if flag == -1 then Relocated(s, s', k, DeadSeed, Seed, now)
    else if flag == -2 then Relocated(s, s', k, DeadCommon, Common, now)
    else s' == s
  }

  /** The time that an answer must be newer than: reviving stamps the time first. */
  function StampBefore(s: Status, flag: int, now: nat): nat {
    if flag == -1 || flag == -2 then now else s.timestamp
  }

  lemma FailureMeans(s: Status, k: nat, flag: int, now: nat)
    requires WellFormed(s)
    ensures Failed(s, AfterFailure(s, k, flag, now), k, flag, now)
  {
    SetDeadMeans(s, k, flag, now);
    hide Relocated, WellFormed, SetDead;
  }

  /** A newer answer is what the node then holds; otherwise a dead target is revived. */
  lemma AnswerMeans(s: Status, k: nat, flag: int, answer: Status, now: nat)
    requires WellFormed(s)
    ensures if answer.timestamp > StampBefore(s, flag, now) then AfterReply(s, k, flag, answer, now) == answer
            else Revived(s, AfterReply(s, k, flag, answer, now), k, flag, now)
    ensures Revived(s, AfterGarbage(s, k, flag, now), k, flag, now)
  {
    SetAliveMeans(s, k, flag, now);
    hide WellFormed, SetAlive;
  }

  // ---- The message ----

  /** The config map that a receiver builds from the records of a message. */
  function ConfigsOf(datas: seq<GossipData>): map<nat, Config> {
    if datas == [] then map[]
    else var last := datas[|datas| - 1]; ConfigsOf(datas[..|datas| - 1])[last.kbid := last.config]
  }

  function FromMessage(m: StatusMessage): Status {
    Status(m.timestamp, ConfigsOf(m.datas), m.seeds, m.commons, m.deadSeeds, m.deadCommons)
  }

  lemma ConfigsOfAppend(datas: seq<GossipData>, d: GossipData)
    ensures ConfigsOf(datas + [d]) == ConfigsOf(datas)[d.kbid := d.config]
  {
    assert (datas + [d])[..|datas|] == datas;
  }
}
