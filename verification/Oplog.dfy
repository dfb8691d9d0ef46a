/** The oplog store of one master, and what its entries mean.

    The store is an ordered map, kept here as rows sorted by key in bytewise order. A
    protobuf message is the datatype value it carries. */
module Oplog {
  import opened Ids

  const UPLOAD_FILE := 1
  const MAX_GET_OPLOG_SIZE := 100

  datatype FileInfo = FileInfo(hosts: seq<string>, size: int, merkleSha1: string)

  datatype LogEntry = LogEntry(opType: int, key: string, data: FileInfo)

  datatype Row = Row(id: Id, entry: LogEntry)

  type Table = seq<Row>

  predicate Sorted(t: Table) {
    forall i, j :: 0 <= i < j < |t| ==> Less(t[i].id, t[j].id)
  }

  function Insert(t: Table, id: Id, entry: LogEntry): Table {
    if t == [] || Less(id, t[0].id) then [Row(id, entry)] + t
    else if t[0].id == id then [Row(id, entry)] + t[1..]
    else [t[0]] + Insert(t[1..], id, entry)
  }

  function Delete(t: Table, id: Id): Table {
    if t == [] then []
    else if t[0].id == id then t[1..]
    else [t[0]] + Delete(t[1..], id)
  }

  predicate Exists(t: Table, id: Id) {
    exists i :: 0 <= i < |t| && t[i].id == id
  }

  lemma IdOrder(a: Id, b: Id)
    ensures Less(a, b) <==> Value(a) < Value(b)
    ensures a == b <==> Value(a) == Value(b)
  {
    OrderIsNumeric(a, b);
    EncodeOfValue(a);
    EncodeOfValue(b);
  }

  lemma TailSorted(t: Table)
    requires Sorted(t) && t != []
    ensures Sorted(t[1..]) && forall row :: row in t[1..] ==> Less(t[0].id, row.id)
  {
    hide Less;
    forall row | row in t[1..] ensures Less(t[0].id, row.id) {
      var i :| 0 <= i < |t[1..]| && t[1..][i] == row;
      assert t[i + 1] == row;
    }
  }

  lemma ConsSorted(row: Row, t: Table)
    requires Sorted(t) && forall r :: r in t ==> Less(row.id, r.id)
    ensures Sorted([row] + t)
  {
    hide Less;
    var all := [row] + t;
    forall i, j | 0 <= i < j < |all| ensures Less(all[i].id, all[j].id) {
      assert all[j] == t[j - 1] && (i > 0 ==> all[i] == t[i - 1]);
      assert t[j - 1] in t;
    }
  }

  /** A put into the ordered store keeps the order, replaces the row of the id if there is one,
      and leaves all others. */
  lemma {:induction false} InsertMeans(t: Table, id: Id, entry: LogEntry, row: Row)
    requires Sorted(t)
    ensures Sorted(Insert(t, id, entry))
    ensures row in Insert(t, id, entry) <==> row == Row(id, entry) || (row in t && row.id != id)
  {
    hide Less, Value, Sorted;
    if t == [] {
      SmallSorted(Row(id, entry));
      assert Insert(t, id, entry) == [Row(id, entry)];
    } else {
      var head, rest := t[0], t[1..];
      assert t == [head] + rest;
      TailSorted(t);
      IdOrder(id, head.id);
      forall r | r in rest ensures Value(head.id) < Value(r.id) && r.id != head.id {
        IdOrder(head.id, r.id);
      }
      if Less(id, head.id) {
        forall r | r in t ensures Less(id, r.id) && r.id != id {
          IdOrder(id, r.id);
        }
        ConsSorted(Row(id, entry), t);
      } else if head.id == id {
        ConsSorted(Row(id, entry), rest);
      } else {
        InsertMeans(rest, id, entry, row);
        forall r | r in Insert(rest, id, entry) ensures Less(head.id, r.id) {
          InsertMeans(rest, id, entry, r);
          IdOrder(head.id, r.id);
        }
        ConsSorted(head, Insert(rest, id, entry));
      }
    }
  }

  lemma SmallSorted(row: Row)
    ensures Sorted([]) && Sorted([row])
  {
  }

  /** A removal takes out the row of the id and nothing else. */
  lemma {:induction false} DeleteMeans(t: Table, id: Id, row: Row)
    requires Sorted(t)
    ensures row in Delete(t, id) <==> row in t && row.id != id
  {
    hide Less, Value, Sorted;
    if t != [] {
      var head, rest := t[0], t[1..];
      assert t == [head] + rest;
      TailSorted(t);
      if head.id == id {
        forall r | r in rest ensures r.id != id {
          IdOrder(head.id, r.id);
        }
      } else {
        DeleteMeans(rest, id, row);
      }
    }
  }

  /** Where an iterator stands after seeking to a key: the first row not below it. */
  function Seek(t: Table, id: Id): (i: nat)
    ensures i <= |t|
    ensures forall k :: 0 <= k < i ==> Less(t[k].id, id)
    ensures i < |t| ==> !Less(t[i].id, id)
  {
    if t == [] || !Less(t[0].id, id) then 0 else Seek(t[1..], id) + 1
  }

  /** The id after the last key, or the zero id for an empty store. */
  function NextId(t: Table): Id {
    if t == [] then ToId(0) else Next(t[|t| - 1].id)
  }

  function Min(a: int, b: int): int {
    if a < b then a else b
  }

  // ---- A dense log: entries under the ids 0, 1, 2, ... ----

  /** The store that holds exactly these entries, in order, from id zero on. */
  function TableOf(log: seq<LogEntry>): (t: Table)
    ensures |t| == |log|
  {
    seq(|log|, i requires 0 <= i < |log| => Row(ToId(i), log[i]))
  }

  function Entries(t: Table): (log: seq<LogEntry>)
    ensures |log| == |t|
  {
    seq(|t|, i requires 0 <= i < |t| => t[i].entry)
  }

  lemma EntriesOfTableOf(log: seq<LogEntry>)
    ensures Entries(TableOf(log)) == log
  {
  }

  lemma TableOfSorted(log: seq<LogEntry>)
    requires |log| <= ID_COUNT
    ensures Sorted(TableOf(log))
  {
    forall i, j | 0 <= i < j < |log| ensures Less(ToId(i), ToId(j)) {
      ToIdOrder(i, j);
    }
  }

  lemma {:induction false} InsertAbove(t: Table, id: Id, entry: LogEntry)
    requires forall i :: 0 <= i < |t| ==> t[i].id != id && !Less(id, t[i].id)
    ensures Insert(t, id, entry) == t + [Row(id, entry)]
  {
    if t != [] {
      InsertAbove(t[1..], id, entry);
    }
  }

  lemma {:induction false} DeleteLast(t: Table, row: Row)
    requires forall i :: 0 <= i < |t| ==> t[i].id != row.id
    ensures Delete(t + [row], row.id) == t
  {
    if t != [] {
      assert (t + [row])[1..] == t[1..] + [row];
      DeleteLast(t[1..], row);
    }
  }

  /** A put at or past the end of a dense log goes last, and its removal undoes it. */
  lemma DensePut(log: seq<LogEntry>, n: nat, entry: LogEntry)
    requires |log| <= n < ID_COUNT
    ensures Insert(TableOf(log), ToId(n), entry) == TableOf(log) + [Row(ToId(n), entry)]
    ensures Delete(TableOf(log) + [Row(ToId(n), entry)], ToId(n)) == TableOf(log)
  {
    var t, id := TableOf(log), ToId(n);
    forall i | 0 <= i < |t| ensures t[i].id != id && !Less(id, t[i].id) {
      ToIdOrder(i, n);
      ToIdOrder(n, i);
    }
    InsertAbove(t, id, entry);
    DeleteLast(t, Row(id, entry));
  }

  /** Storing under the next id appends; removing that id again restores the log. */
  lemma DenseAppend(log: seq<LogEntry>, entry: LogEntry)
    requires |log| < ID_COUNT
    ensures Insert(TableOf(log), ToId(|log|), entry) == TableOf(log + [entry])
    ensures Delete(TableOf(log + [entry]), ToId(|log|)) == TableOf(log)
  {
    DensePut(log, |log|, entry);
    assert TableOf(log) + [Row(ToId(|log|), entry)] == TableOf(log + [entry]);
  }

  /** Last key plus one keeps the ids exactly 0 .. n-1. */
  lemma DenseNextId(log: seq<LogEntry>)
    requires |log| < ID_COUNT
    ensures NextId(TableOf(log)) == ToId(|log|)
  {
    if log != [] {
      NextOfToId(|log| - 1);
    }
  }

  lemma {:induction false} SeekAt(t: Table, k: nat)
    requires Sorted(t) && k < |t|
    ensures Seek(t, t[k].id) == k
  {
    if k > 0 {
      SeekAt(t[1..], k - 1);
    } else {
      OrderIsNumeric(t[0].id, t[0].id);
    }
  }

  // ---- GetOplog ----

  datatype GetOplogReply = Page(lastId: Id, logData: seq<LogEntry>) | NoSuchOpId | InvalidStatus

  /** What a caller of GetOplog finds in the reply: an error text parses to no entries. */
  function LogData(reply: GetOplogReply): seq<LogEntry> {
    match reply
    case Page(_, data) => data
    case NoSuchOpId => []
    case InvalidStatus => []
  }

  /** The entries one request for id is answered with. */
  function PageAt(t: Table, id: Id): (page: seq<LogEntry>)
    ensures |page| <= MAX_GET_OPLOG_SIZE
  {
    if !Exists(t, id) then []
    else var k := Seek(t, id); Entries(t[k..Min(k + MAX_GET_OPLOG_SIZE, |t|)])
  }

  lemma EntriesOfDense(log: seq<LogEntry>, n: nat, hi: nat)
    requires n <= hi <= |log|
    ensures Entries(TableOf(log)[n..hi]) == log[n..hi]
  {
  }

  lemma PageAtRow(t: Table, n: nat)
    requires Sorted(t) && n < |t|
    ensures PageAt(t, t[n].id) == Entries(t[n..Min(n + MAX_GET_OPLOG_SIZE, |t|)])
  {
    SeekAt(t, n);
    hide Seek, Less;
    assert Exists(t, t[n].id);
  }

  /** On a dense log a request for an id is answered with the next hundred entries. */
  lemma DensePage(log: seq<LogEntry>, n: nat)
    requires |log| <= ID_COUNT && n < ID_COUNT
    ensures PageAt(TableOf(log), ToId(n)) ==
            if n < |log| then log[n..Min(n + MAX_GET_OPLOG_SIZE, |log|)] else []
  {
    hide ToId, Seek, Less, Entries;
    var t := TableOf(log);
    if n < |log| {
      TableOfSorted(log);
      assert t[n].id == ToId(n);
      hide PageAt, TableOf;
      PageAtRow(t, n);
      EntriesOfDense(log, n, Min(n + MAX_GET_OPLOG_SIZE, |log|));
    } else {
      forall i | 0 <= i < |t| ensures t[i].id != ToId(n) {
        ToIdOrder(i, n);
      }
    }
  }

  // ---- What a log means ----

  /** The userdata that results from applying the entries in order. */
  function Replay(log: seq<LogEntry>): map<string, FileInfo> {
    if log == [] then map[]
    else
      var e := log[|log| - 1];
      var before := Replay(log[..|log| - 1]);
      if e.opType == UPLOAD_FILE then before[e.key := e.data] else before
  }

  lemma ReplayAppend(log: seq<LogEntry>, e: LogEntry)
    requires e.opType == UPLOAD_FILE
    ensures Replay(log + [e]) == Replay(log)[e.key := e.data]
  {
    assert (log + [e])[..|log|] == log;
  }

  /** The upload entries of a page, in order. */
  function UploadsOf(page: seq<LogEntry>): (uploads: seq<LogEntry>)
    ensures AllUploads(uploads)
  {
    if page == [] then []
    else (if page[0].opType == UPLOAD_FILE then [page[0]] else []) + UploadsOf(page[1..])
  }

  predicate AllUploads(log: seq<LogEntry>) {
    forall i :: 0 <= i < |log| ==> log[i].opType == UPLOAD_FILE
  }

  predicate DistinctKeys(log: seq<LogEntry>) {
    forall i, j :: 0 <= i < j < |log| ==> log[i].key != log[j].key
  }

  lemma {:induction false} ReplayKeys(log: seq<LogEntry>)
    requires AllUploads(log)
    ensures forall k :: k in Replay(log) <==> exists i :: 0 <= i < |log| && log[i].key == k
  {
    if log != [] {
      var front := log[..|log| - 1];
      ReplayKeys(front);
      var last := log[|log| - 1];
      assert Replay(log) == Replay(front)[last.key := last.data];
      forall k ensures k in Replay(log) <==> exists i :: 0 <= i < |log| && log[i].key == k {
        if k in Replay(log) && k != last.key {
          assert k in Replay(front);
          var i :| 0 <= i < |front| && front[i].key == k;
          assert log[i].key == k;
        }
      }
    }
  }

  /** With no key twice, every entry survives in the replay. */
  lemma {:induction false} ReplaySize(log: seq<LogEntry>)
    requires AllUploads(log) && DistinctKeys(log)
    ensures |Replay(log)| == |log|
    ensures forall i :: 0 <= i < |log| ==> log[i].key in Replay(log) && Replay(log)[log[i].key] == log[i].data
  {
    if log != [] {
      var front := log[..|log| - 1];
      ReplaySize(front);
      ReplayKeys(front);
      forall i | 0 <= i < |log| ensures log[i].key in Replay(log) && Replay(log)[log[i].key] == log[i].data {
        assert i < |front| ==> front[i] == log[i];
      }
    }
  }
}
