/** Moving a file to a chunk server and back, 1024 bytes a request. */
module ChunkTransfer {
  import Base64

  type Bytes = seq<bv8>

  const CHUNK: nat := 1024

  // ---- Files ----

  function Zeros(n: nat): (z: Bytes)
    ensures |z| == n && forall i :: 0 <= i < n ==> z[i] == 0
  {
    seq(n, _ => 0)
  }

  /** A file after writing x at a position: a gap before it reads as zeros, and writing nothing
      does nothing. */
  function WriteAt(f: Bytes, at: nat, x: Bytes): (r: Bytes)
    ensures |r| == if x == [] || at + |x| <= |f| then |f| else at + |x|
    ensures forall i :: 0 <= i < |r| ==> r[i] == if at <= i < at + |x| then x[i - at] else if i < |f| then f[i] else 0
  {
    if x == [] then f
    else
      (if at <= |f| then f[..at] else f + Zeros(at - |f|)) + x + (if at + |x| <= |f| then f[at + |x|..] else [])
  }

  /** At most n bytes from a position. */
  function ReadAt(f: Bytes, at: nat, n: nat): (x: Bytes)
    ensures |x| <= n
  {
    if at >= |f| then [] else if at + n <= |f| then f[at..at + n] else f[at..]
  }

  /** An open file: its bytes and the position of the next read or write. */
  class File {
    var content: Bytes
    var position: nat

    constructor (content: Bytes)
      ensures this.content == content && position == 0
    {
      this.content, position := content, 0;
    }

    method Seek(offset: nat)
      modifies this`position
      ensures position == offset
    {
      position := offset;
    }

    method Write(x: Bytes)
      modifies this
      ensures content == WriteAt(old(content), old(position), x)
      ensures position == old(position) + |x|
    {
      content := WriteAt(content, position, x);
      position := position + |x|;
    }

    method Read(n: nat) returns (x: Bytes)
      modifies this`position
      ensures x == ReadAt(content, old(position), n)
      ensures position == old(position) + |x|
    {
      x := ReadAt(content, position, n);
      position := position + |x|;
    }
  }

  // ---- Chunks ----

  function ChunkCount(n: nat): nat {
    (n + CHUNK - 1) / CHUNK
  }

  function Chunk(f: Bytes, k: nat): Bytes {
    ReadAt(f, k * CHUNK, CHUNK)
  }

  /** The first k chunks, each passed through a cipher on its own. */
  function Mapped(f: Bytes, cipher: Bytes -> Bytes, k: nat): Bytes {
    if k == 0 then [] else Mapped(f, cipher, k - 1) + cipher(Chunk(f, k - 1))
  }

  function Whole(f: Bytes, cipher: Bytes -> Bytes): Bytes {
    Mapped(f, cipher, ChunkCount(|f|))
  }

  ghost predicate KeepsLength(cipher: Bytes -> Bytes) {
    forall x :: |cipher(x)| == |x|
  }

  ghost predicate Inverts(dec: Bytes -> Bytes, enc: Bytes -> Bytes) {
    forall x :: dec(enc(x)) == x
  }

  lemma ChunkSize(f: Bytes, k: nat)
    ensures k < ChunkCount(|f|) <==> Chunk(f, k) != []
    ensures k < ChunkCount(|f|) ==> |Chunk(f, k)| == (if (k + 1) * CHUNK <= |f| then CHUNK else |f| - k * CHUNK)
    ensures k <= ChunkCount(|f|) <==> k == 0 || (k - 1) * CHUNK < |f|
  {
  }

  function Min(a: nat, b: nat): nat {
    if a <= b then a else b
  }

  lemma {:induction false} MappedLength(f: Bytes, cipher: Bytes -> Bytes, k: nat)
    requires KeepsLength(cipher) && k <= ChunkCount(|f|)
    ensures |Mapped(f, cipher, k)| == Min(k * CHUNK, |f|)
  {
    if k > 0 {
      MappedLength(f, cipher, k - 1);
      ChunkSize(f, k - 1);
    }
  }

  /** The chunks of the enciphered file are the enciphered chunks. */
  lemma {:induction false} ChunkOfMapped(f: Bytes, cipher: Bytes -> Bytes, k: nat, j: nat)
    requires KeepsLength(cipher) && j < k <= ChunkCount(|f|)
    ensures Chunk(Mapped(f, cipher, k), j) == cipher(Chunk(f, j))
  {
    var front, last := Mapped(f, cipher, k - 1), cipher(Chunk(f, k - 1));
    MappedLength(f, cipher, k - 1);
    ChunkSize(f, k - 1);
    hide Mapped, ChunkCount;
    if j == k - 1 {
      assert (front + last)[|front|..] == last;
    } else {
      ChunkOfMapped(f, cipher, k - 1, j);
      assert (front + last)[j * CHUNK..(j + 1) * CHUNK] == front[j * CHUNK..(j + 1) * CHUNK];
    }
  }

  // ---- Round trip ----

  lemma {:induction false} MappedBack(c: Bytes, enc: Bytes -> Bytes, dec: Bytes -> Bytes, k: nat)
    requires KeepsLength(enc) && Inverts(dec, enc) && k <= ChunkCount(|c|)
    ensures Mapped(Whole(c, enc), dec, k) == c[..Min(k * CHUNK, |c|)]
  {
    if k > 0 {
      ChunkBack(c, enc, dec, k - 1);
      NextPrefix(c, k - 1);
      hide ChunkCount, KeepsLength, Inverts, Chunk, Whole;
      MappedBack(c, enc, dec, k - 1);
    }
  }

  lemma ChunkBack(c: Bytes, enc: Bytes -> Bytes, dec: Bytes -> Bytes, k: nat)
    requires KeepsLength(enc) && Inverts(dec, enc) && k < ChunkCount(|c|)
    ensures dec(Chunk(Whole(c, enc), k)) == Chunk(c, k)
  {
    hide ChunkCount, KeepsLength, Chunk;
    ChunkOfMapped(c, enc, ChunkCount(|c|), k);
  }

  lemma NextPrefix(c: Bytes, k: nat)
    requires k < ChunkCount(|c|)
    ensures c[..Min(k * CHUNK, |c|)] + Chunk(c, k) == c[..Min((k + 1) * CHUNK, |c|)]
  {
    ChunkSize(c, k);
  }

  /** What an upload leaves on the server has the length of the content, and its chunks decipher
      to the content. Written over an older local file, they leave the content exactly when that
      file is no longer than the content. */
  lemma RoundTrip(c: Bytes, enc: Bytes -> Bytes, dec: Bytes -> Bytes, old': Bytes)
    requires KeepsLength(enc) && Inverts(dec, enc)
    ensures |Whole(c, enc)| == |c| && Whole(Whole(c, enc), dec) == c
    ensures WriteAt(old', 0, Whole(Whole(c, enc), dec)) == c <==> |old'| <= |c|
  {
    var n := ChunkCount(|c|);
    MappedLength(c, enc, n);
    MappedBack(c, enc, dec, n);
    assert c[..|c|] == c;
  }

  /** Downloading one byte over an older file of two keeps the second byte of that file. */
  lemma OldTailStays(c: bv8, enc: Bytes -> Bytes, dec: Bytes -> Bytes, old': Bytes)
    requires KeepsLength(enc) && Inverts(dec, enc) && |old'| == 2
    ensures WriteAt(old', 0, Whole(Whole([c], enc), dec)) == [c, old'[1]]
  {
    RoundTrip([c], enc, dec, old');
  }

  // ---- Any order ----

  /** A file after writing the enciphered chunks k, for every k of the list in turn. */
  function WriteAll(f: Bytes, c: Bytes, enc: Bytes -> Bytes, order: seq<nat>): Bytes {
    if order == [] then f
    else
      var k := order[|order| - 1];
      WriteAt(WriteAll(f, c, enc, order[..|order| - 1]), k * CHUNK, enc(Chunk(c, k)))
  }

  /** g is f with the chunks of `done` replaced by those of s, and nothing behind s changed. */
  ghost predicate Partly(f: Bytes, g: Bytes, s: Bytes, done: seq<nat>) {
    && |f| <= |g| && (|g| <= |f| || |g| <= |s|)
    && (forall i :: 0 <= i < |s| && i / CHUNK in done ==> i < |g| && g[i] == s[i])
    && (forall i :: |s| <= i < |f| ==> g[i] == f[i])
  }

  lemma PartlyStep(f: Bytes, g: Bytes, s: Bytes, done: seq<nat>, k: nat)
    requires Partly(f, g, s, done) && Chunk(s, k) != []
    ensures Partly(f, WriteAt(g, k * CHUNK, Chunk(s, k)), s, done + [k])
  {
    var h := WriteAt(g, k * CHUNK, Chunk(s, k));
    forall i | 0 <= i < |s| && i / CHUNK in done + [k] ensures i < |h| && h[i] == s[i] {
      if i / CHUNK != k {
        assert i / CHUNK in done;
      }
    }
  }

  lemma WriteAllStep(f: Bytes, c: Bytes, enc: Bytes -> Bytes, order: seq<nat>)
    requires KeepsLength(enc) && order != [] && order[|order| - 1] < ChunkCount(|c|)
    ensures var k := order[|order| - 1];
            && Chunk(Whole(c, enc), k) != []
            && WriteAll(f, c, enc, order)
               == WriteAt(WriteAll(f, c, enc, order[..|order| - 1]), k * CHUNK, Chunk(Whole(c, enc), k))
  {
    var k := order[|order| - 1];
    hide WriteAt, Chunk, Mapped, ChunkCount;
    MappedLength(c, enc, ChunkCount(|c|));
    ChunkOfMapped(c, enc, ChunkCount(|c|), k);
    ChunkSize(Whole(c, enc), k);
  }

  lemma {:induction false} WriteAllPartly(f: Bytes, c: Bytes, enc: Bytes -> Bytes, order: seq<nat>)
    requires KeepsLength(enc) && forall k :: k in order ==> k < ChunkCount(|c|)
    ensures Partly(f, WriteAll(f, c, enc, order), Whole(c, enc), order)
  {
    if order != [] {
      var front, k := order[..|order| - 1], order[|order| - 1];
      assert order == front + [k];
      assert k in order && forall j :: j in front ==> j in order;
      hide Partly, Chunk, Mapped, Whole, KeepsLength, ChunkCount, WriteAt, WriteAll;
      WriteAllPartly(f, c, enc, front);
      WriteAllStep(f, c, enc, order);
      PartlyStep(f, WriteAll(f, c, enc, front), Whole(c, enc), front, k);
    }
  }

  lemma PartlyAt(f: Bytes, g: Bytes, s: Bytes, done: seq<nat>, i: nat)
    requires Partly(f, g, s, done) && i < |s| && i / CHUNK in done
    ensures i < |g| && g[i] == s[i]
  {
  }

  lemma AllDone(f: Bytes, g: Bytes, s: Bytes, done: seq<nat>)
    requires Partly(f, g, s, done) && forall i :: 0 <= i < |s| ==> i / CHUNK in done
    ensures g == WriteAt(f, 0, s)
  {
    if s != [] {
      PartlyAt(f, g, s, done, |s| - 1);
    }
    var h := WriteAt(f, 0, s);
    assert |g| == |h|;
    hide WriteAt;
    forall i | 0 <= i < |g| ensures g[i] == h[i] {
      if i < |s| {
        PartlyAt(f, g, s, done, i);
      }
    }
  }

  lemma ChunkOfPosition(n: nat, i: nat)
    requires i < n
    ensures i / CHUNK < ChunkCount(n)
  {
  }

  /** Writing every chunk at least once, in any order, always leaves the same file: the one that
      an upload leaves, in front of what an older file had behind it. */
  lemma AnyOrder(f: Bytes, c: Bytes, enc: Bytes -> Bytes, order: seq<nat>)
    requires KeepsLength(enc) && forall k: nat :: k in order <==> k < ChunkCount(|c|)
    ensures WriteAll(f, c, enc, order) == WriteAt(f, 0, Whole(c, enc))
  {
    MappedLength(c, enc, ChunkCount(|c|));
    hide KeepsLength, Mapped, WriteAll, WriteAt, Partly;
    assert |Whole(c, enc)| == |c|;
    hide Whole;
    WriteAllPartly(f, c, enc, order);
    forall i | 0 <= i < |Whole(c, enc)| ensures i / CHUNK in order {
      ChunkOfPosition(|c|, i);
    }
    AllDone(f, WriteAll(f, c, enc, order), Whole(c, enc), order);
  }

  // ---- The server ----

  datatype Reply = Ok(body: string) | Bad(body: string)

  class ChunkServer {
    /** The stored file of the one name considered. */
    var file: File?

    constructor ()
      ensures file == null
    {
      file := null;
    }

    /** Opening the file for writing truncates it. */
    method SetFileKeyInfo() returns (reply: Reply)
      modifies this, file
      ensures reply.Ok? && file != null && file.content == []
      ensures if old(file) == null then fresh(file) else file == old(file)
    {
      if file == null {
        file := new File([]);
      } else {
        file.content, file.position := [], 0;
      }
      reply := Ok("Set file key info success");
    }

    method UploadChunk(offset: nat, chunk: string) returns (reply: Reply)
      modifies file
      ensures reply.Ok? <==> file != null
      ensures file != null ==> file.content == WriteAt(old(file.content), offset, Base64.Decoded(chunk))
    {
      if file == null {
        return Bad("failed to right");
      }
      var x := Base64.Base64Decode(chunk);
      file.Seek(offset);
      file.Write(x);
      reply := Ok("OK");
    }

    /** The reply is as long as the position went on by reading. */
    method DownloadChunk(offset: nat) returns (reply: Reply)
      modifies file
      ensures reply.Ok? <==> file != null
      ensures file != null ==> file.content == old(file.content)
      ensures file != null ==> reply == Ok(Base64.Encoded(ReadAt(file.content, offset, CHUNK)))
    {
      if file == null {
        return Bad("failed to right");
      }
      file.Seek(offset);
      var buff := file.Read(CHUNK);
      assert buff[..file.position - offset] == buff;
      var body := Base64.Base64Encode(buff[..file.position - offset]);
      reply := Ok(body);
    }
  }

  // ---- The client ----

  /** What becomes of a request: its answer arrives, it never does, or only the answer is lost. */
  datatype Call = Answered | NotDelivered | AnswerLost

  ghost predicate AllAnswered(network: nat -> Call, n: nat) {
    forall j :: 0 <= j < n ==> network(j) == Answered
  }

  /** The server's file when an upload ends after the given number of answered requests. */
  ghost predicate LeftAfter(f: Bytes, c: Bytes, enc: Bytes -> Bytes, network: nat -> Call, calls: nat) {
    var k := if network(calls) == AnswerLost then calls else calls - 1;
    0 <= k <= ChunkCount(|c|) && f == Mapped(c, enc, k)
  }

  lemma NextChunk(c: Bytes, enc: Bytes -> Bytes, k: nat)
    requires KeepsLength(enc) && k < ChunkCount(|c|)
    ensures WriteAt(Mapped(c, enc, k), k * CHUNK, enc(Chunk(c, k))) == Mapped(c, enc, k + 1)
  {
    MappedLength(c, enc, k);
    ChunkSize(c, k);
    hide ChunkCount, Chunk;
  }

  lemma StartAndEnd(c: Bytes, cipher: Bytes -> Bytes)
    ensures Mapped(c, cipher, 0) == [] && Whole(c, cipher) == Mapped(c, cipher, ChunkCount(|c|))
    ensures 0 <= ChunkCount(|c|)
  {
  }

  /** Reading on from the first k chunks. */
  lemma ReadNext(c: Bytes, k: nat)
    requires k <= ChunkCount(|c|)
    ensures ReadAt(c, Min(k * CHUNK, |c|), CHUNK) == Chunk(c, k)
    ensures Min(k * CHUNK, |c|) + |Chunk(c, k)| == Min((k + 1) * CHUNK, |c|)
  {
  }

  /** Send one chunk, encoded. */
  method UploadChunkInvoke(server: ChunkServer, offset: nat, chunk: Bytes, call: Call) returns (ok: bool)
    requires server.file != null
    modifies server.file
    ensures ok <==> call == Answered
    ensures server.file.content ==
            if call == NotDelivered then old(server.file.content) else WriteAt(old(server.file.content), offset, chunk)
  {
    if call != NotDelivered {
      var body := Base64.Base64Encode(chunk);
      Base64.RoundTrip(chunk);
      var _ := server.UploadChunk(offset, body);
    }
    ok := call == Answered;
  }

  /** Upload a local file. It succeeds exactly when every request is answered, and the server
      then holds the enciphered content; when request number `calls` is not answered, the server
      holds the chunks of the requests before it, and that chunk too if only its answer was
      lost. */
  method UploadFile(local: File, server: ChunkServer, enc: Bytes -> Bytes, network: nat -> Call)
    returns (success: bool, calls: nat)
    requires local != server.file && KeepsLength(enc)
    modifies local, server, server.file
    ensures local.content == old(local.content)
    ensures server.file == old(server.file) || (server.file != null && fresh(server.file))
    ensures AllAnswered(network, calls) && calls <= ChunkCount(|local.content|) + 1
    ensures success <==> calls == ChunkCount(|local.content|) + 1
    ensures success ==> server.file != null && server.file.content == Whole(local.content, enc)
    ensures !success ==> network(calls) != Answered
    ensures !success && network(0) != NotDelivered ==>
              server.file != null && LeftAfter(server.file.content, local.content, enc, network, calls)
    ensures !success && network(0) == NotDelivered ==>
              server.file == old(server.file) && (server.file != null ==> server.file.content == old(server.file.content))
  {
    hide Mapped, Whole, KeepsLength, ChunkCount, ReadAt, WriteAt, Chunk;
    ghost var c := local.content;
    StartAndEnd(c, enc);
    success, calls := false, 0;
    local.position := 0;
    if network(0) != NotDelivered {
      var _ := server.SetFileKeyInfo();
    }
    if network(0) != Answered {
      return;
    }
    calls := 1;
    var idx := 0;
    while true
      invariant calls == idx + 1 && idx <= ChunkCount(|c|) && AllAnswered(network, calls)
      invariant local.content == c && local.position == Min(idx * CHUNK, |c|)
      invariant server.file != null && server.file != local && (server.file == old(server.file) || fresh(server.file))
      invariant server.file.content == Mapped(c, enc, idx)
      decreases |c| - local.position
    {
      ChunkSize(c, idx);
      ReadNext(c, idx);
      var pr := local.position;
      var tmp := local.Read(CHUNK);
      if pr == local.position {
        break;
      }
      NextChunk(c, enc, idx);
      var ok := UploadChunkInvoke(server, idx * CHUNK, enc(tmp), network(calls));
      if !ok {
        return;
      }
      idx, calls := idx + 1, calls + 1;
    }
    success := true;
  }

  /** How many chunks a download received in the given number of answered requests. */
  function Received(success: bool, calls: nat): nat {
    if success && calls >= 2 then calls - 2 else if calls == 0 then 0 else calls - 1
  }

  lemma WriteOn(was: Bytes, f: Bytes, dec: Bytes -> Bytes, k: nat)
    ensures Mapped(f, dec, k + 1) == Mapped(f, dec, k) + dec(Chunk(f, k))
    ensures WriteAt(WriteAt(was, 0, Mapped(f, dec, k)), |Mapped(f, dec, k)|, dec(Chunk(f, k)))
            == WriteAt(was, 0, Mapped(f, dec, k + 1))
  {
    hide WriteAt, Chunk;
    var m, x := Mapped(f, dec, k), dec(Chunk(f, k));
    assert WriteAt(WriteAt(was, 0, m), |m|, x) == WriteAt(was, 0, m + x);
  }

  /** Download into an opened local file. It succeeds exactly when the file exists and every
      request is answered, after one request for the key, one for each chunk, and one that
      answers nothing; what was received is written over the start of the local file. */
  method DownloadFile(local: File, server: ChunkServer, dec: Bytes -> Bytes, network: nat -> Call)
    returns (success: bool, calls: nat)
    requires local != server.file
    modifies local, server.file
    ensures AllAnswered(network, calls)
    ensures server.file == null ==> !success && calls <= 1 && local.content == old(local.content)
    ensures server.file != null ==>
              && server.file.content == old(server.file.content)
              && (success <==> calls == ChunkCount(|server.file.content|) + 2)
              && (!success ==> calls <= ChunkCount(|server.file.content|) + 1 && network(calls) != Answered)
              && local.content == WriteAt(old(local.content), 0, Mapped(server.file.content, dec, Received(success, calls)))
  {
    hide Mapped, KeepsLength, ChunkCount, ReadAt, WriteAt, Base64.Encoded, Base64.Decoded, Base64.Canonical;
    ghost var f, was := if server.file == null then [] else server.file.content, local.content;
    StartAndEnd(f, dec);
    assert WriteAt(was, 0, []) == was;
    success, calls := false, 0;
    local.position := 0;
    if network(0) != Answered {
      return;
    }
    calls := 1;
    var idx := 0;
    while true
      invariant calls == idx + 1 && idx <= ChunkCount(|f|) && AllAnswered(network, calls)
      invariant server.file == null ==> idx == 0
      invariant server.file != null ==> server.file.content == f
      invariant local.content == WriteAt(was, 0, Mapped(f, dec, idx)) && local.position == |Mapped(f, dec, idx)|
      decreases ChunkCount(|f|) - idx
    {
      var reply := server.DownloadChunk(idx * CHUNK);
      if network(calls) != Answered || reply.Bad? {
        return;
      }
      idx, calls := idx + 1, calls + 1;
      Base64.EncodedLength(Chunk(f, idx - 1));
      ChunkSize(f, idx - 1);
      if |reply.body| == 0 {
        break;
      }
      Base64.RoundTrip(Chunk(f, idx - 1));
      var tmp := Base64.Base64Decode(reply.body);
      WriteOn(was, f, dec, idx - 1);
      local.Write(dec(tmp));
    }
    success := true;
  }

  /** Upload a file and download it again. Both loops end well exactly when all their requests,
      ceil(n/1024) + 1 and ceil(n/1024) + 2, are answered, and the download then has the content
      of the uploaded file exactly when no longer file was there before. */
  method UploadThenDownload(local: File, down: File, server: ChunkServer, enc: Bytes -> Bytes, dec: Bytes -> Bytes,
                            up: nat -> Call, back: nat -> Call)
    returns (success: bool)
    requires local != down && local != server.file && down != server.file
    requires KeepsLength(enc) && Inverts(dec, enc)
    modifies local, down, server, server.file
    ensures local.content == old(local.content)
    ensures var n := ChunkCount(|local.content|);
            success <==> AllAnswered(up, n + 1) && AllAnswered(back, n + 2)
    ensures success ==> (down.content == local.content <==> |old(down.content)| <= |local.content|)
  {
    hide KeepsLength, Inverts, WriteAt, Mapped, ChunkCount;
    RoundTrip(local.content, enc, dec, down.content);
    var calls;
    success, calls := UploadFile(local, server, enc, up);
    if success {
      success, calls := DownloadFile(down, server, dec, back);
    }
  }
}
