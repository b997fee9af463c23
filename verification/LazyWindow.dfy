/**
 * The head/tail window of scripts/media-evidence-lazy.py, computed two ways: by seeking
 * (`read_fingerprint`) and while streaming the whole file (`full_pass`). The digest is a
 * parameter `h`; a hasher that was fed several pieces holds `h` of their concatenation.
 */
module LazyWindow {
  import opened Basics

  const WINDOW: nat := 64 * 1024
  const CHUNK: nat := 1024 * 1024

  datatype StatKey = StatKey(size: nat, mtimeNs: int, device: int, inode: int)

  datatype Fingerprint = Fingerprint(key: StatKey, window: Digest)

  // A file at one moment: what stat reports and the bytes a read returns.
  datatype Snapshot = Snapshot(key: StatKey, content: seq<Byte>) {
    ghost predicate Valid() {
      |content| == key.size
    }
  }

  datatype Pass =
    | Completed(digest: Digest, window: Digest, bytesRead: nat)
    | Interrupted(bytesRead: nat)

  function Take<T>(s: seq<T>, n: nat): (r: seq<T>)
    ensures |r| == Min(n, |s|)
  {
    s[..Min(n, |s|)]
  }

  function Drop<T>(s: seq<T>, n: nat): (r: seq<T>)
    ensures |r| == Max(0, |s| - n)
  {
    s[Min(n, |s|)..]
  }

  function TailStart(size: nat): (r: nat)
    ensures WINDOW <= r
  {
    Max(WINDOW, size - WINDOW)
  }

  // ---- by seeking ----

  function Head(content: seq<Byte>): seq<Byte> {
    Take(content, WINDOW)
  }

  function Tail(content: seq<Byte>, size: nat): seq<Byte> {
    if size > WINDOW then Take(Drop(content, TailStart(size)), WINDOW) else []
  }

  function ReadFingerprint(h: seq<Byte> -> Digest, file: Snapshot): (r: (Fingerprint, nat)) {
    var head, tail := Head(file.content), Tail(file.content, file.key.size);
    (Fingerprint(file.key, h(head + tail)), |head| + |tail|)
  }

  function FingerprintCost(size: nat): int {
    Min(size, WINDOW) + Max(0, Min(WINDOW, size - WINDOW))
  }

  // ---- while streaming ----

  // What a whole read leaves in the tail buffer: everything from the tail start on.
  function StreamedTail(content: seq<Byte>, size: nat): seq<Byte> {
    if size > WINDOW then Drop(content, TailStart(size)) else []
  }

  function StreamedWindow(h: seq<Byte> -> Digest, content: seq<Byte>, size: nat): Digest {
    h(Head(content) + StreamedTail(content, size))
  }

  lemma HeadGrows(content: seq<Byte>, offset: nat, count: nat)
    requires offset + count <= |content|
    ensures Take(content[..offset + count], WINDOW) ==
            Take(content[..offset], WINDOW) +
            (if offset < WINDOW then Take(content[offset..offset + count], WINDOW - offset) else [])
  {
  }

  lemma TailGrows(content: seq<Byte>, from: nat, offset: nat, count: nat)
    requires offset + count <= |content|
    ensures Drop(content[..offset + count], from) ==
            Drop(content[..offset], from) +
            (if offset + count > from then Drop(content[offset..offset + count], Max(0, from - offset)) else [])
  {
  }

  // What the buffers hold after the first `offset` bytes.
  ghost predicate ReadSoFar(content: seq<Byte>, size: nat, offset: nat, fed: seq<Byte>, head: seq<Byte>,
                            tail: seq<Byte>)
  {
    offset <= |content| && fed == content[..offset] && head == Take(fed, WINDOW) && tail == StreamedTail(fed, size)
  }

  lemma ChunkRead(content: seq<Byte>, size: nat, offset: nat, fed: seq<Byte>, head: seq<Byte>, tail: seq<Byte>,
                  count: nat)
    requires ReadSoFar(content, size, offset, fed, head, tail) && offset + count <= |content|
    ensures var chunk := content[offset..offset + count];
            ReadSoFar(content, size, offset + count, fed + chunk,
                      if offset < WINDOW then head + Take(chunk, WINDOW - offset) else head,
                      if size > WINDOW && offset + count > TailStart(size)
                      then tail + Drop(chunk, Max(0, TailStart(size) - offset)) else tail)
  {
    HeadGrows(content, offset, count);
    TailGrows(content, TailStart(size), offset, count);
    assert content[..offset] + content[offset..offset + count] == content[..offset + count];
  }

  // One chunk of any size, and the buffers after it.
  method ReadChunk(content: seq<Byte>, size: nat, tailFrom: nat, offset0: nat, fed0: seq<Byte>, head0: seq<Byte>,
                   tail0: seq<Byte>)
    returns (offset: nat, fed: seq<Byte>, head: seq<Byte>, tail: seq<Byte>)
    requires offset0 < |content| && ReadSoFar(content, size, offset0, fed0, head0, tail0) && tailFrom == TailStart(size)
    ensures offset0 < offset <= offset0 + CHUNK && ReadSoFar(content, size, offset, fed, head, tail)
  {
    var count :| 1 <= count <= CHUNK && offset0 + count <= |content|;
    var chunk := content[offset0..offset0 + count];
    ChunkRead(content, size, offset0, fed0, head0, tail0, count);
    fed, head, tail := fed0 + chunk, head0, tail0;
    if offset0 < WINDOW {
      head := head + Take(chunk, WINDOW - offset0);
    }
    if size > WINDOW && offset0 + count > tailFrom {
      tail := tail + Drop(chunk, Max(0, tailFrom - offset0));
    }
    offset := offset0 + count;
  }

  // `content` is what the reads of one pass returned, in order; the file may change meanwhile.
  // Every split into chunks of 1 to CHUNK bytes is possible. The hook stops the
  // pass after the first chunk that reaches `stopAt`; a failed read stops it in the same way.
  method FullPass(h: seq<Byte> -> Digest, content: seq<Byte>, size: nat, stopAt: Option<nat>) returns (r: Pass)
    ensures r.Completed? ==>
              r.digest == h(content) && r.window == StreamedWindow(h, content, size) && r.bytesRead == |content|
    ensures r.Interrupted? <==> stopAt.Some? && 0 < |content| && stopAt.value <= |content|
    ensures r.Interrupted? ==> stopAt.value <= r.bytesRead <= |content|
    ensures r.Interrupted? ==> 0 < r.bytesRead < Max(1, stopAt.value) + CHUNK
  {
    var fed, head, tail := [], [], [];
    var offset, tailFrom := 0, TailStart(size);
    while offset < |content|
      invariant ReadSoFar(content, size, offset, fed, head, tail)
      invariant stopAt.Some? && 0 < offset ==> offset < stopAt.value
    {
      offset, fed, head, tail := ReadChunk(content, size, tailFrom, offset, fed, head, tail);
      if stopAt.Some? && offset >= stopAt.value {
        return Interrupted(offset);
      }
    }
    assert content[..offset] == content;
    r := Completed(h(fed), h(head + tail), offset);
  }

  // ---- the two agree ----

  lemma PassMatchesSeek(h: seq<Byte> -> Digest, file: Snapshot)
    requires file.Valid()
    ensures StreamedWindow(h, file.content, file.key.size) == ReadFingerprint(h, file).0.window
    ensures ReadFingerprint(h, file).1 == FingerprintCost(file.key.size) == Min(file.key.size, 2 * WINDOW)
  {
    assert StreamedTail(file.content, file.key.size) == Tail(file.content, file.key.size);
  }

  // Bytes that were read agree with an observed content at both ends: there are as many, and the
  // first and the last 64 KiB are the same. Of a file of exactly 64 KiB the pass may read more.
  ghost predicate EndsAgree(observed: seq<Byte>, read: seq<Byte>) {
    && (|read| == |observed| || (|observed| == WINDOW && |read| > WINDOW))
    && forall i :: 0 <= i < |observed| && (i < WINDOW || i >= |observed| - WINDOW) ==> read[i] == observed[i]
  }

  lemma SplitEqual<T>(a: seq<T>, b: seq<T>, c: seq<T>, d: seq<T>)
    requires |a| == |c| && a + b == c + d
    ensures a == c && b == d
  {
    assert a == (a + b)[..|a|] && b == (a + b)[|a|..];
    assert c == (c + d)[..|c|] && d == (c + d)[|c|..];
  }

  // The streamed window is the observed one exactly when the ends agree.
  lemma WindowsEqualIff(h: seq<Byte> -> Digest, observed: Snapshot, read: seq<Byte>)
    requires CollisionFree(h) && observed.Valid()
    ensures StreamedWindow(h, read, observed.key.size) == ReadFingerprint(h, observed).0.window
            <==> EndsAgree(observed.content, read)
  {
    var o, size := observed.content, observed.key.size;
    var head, tail := Head(read), StreamedTail(read, size);
    PassMatchesSeek(h, observed);
    if head + tail == Head(o) + StreamedTail(o, size) {
      if size > WINDOW { LongRead(read, size); }
      SplitEqual(head, tail, Head(o), StreamedTail(o, size));
      AgreeFromParts(o, read);
    }
    if EndsAgree(o, read) { PartsFromAgree(o, read); }
  }

  // Of a file longer than the window, only a read of its size fills both buffers as it does.
  lemma LongRead(read: seq<Byte>, size: nat)
    requires size > WINDOW && |Head(read)| + |StreamedTail(read, size)| == WINDOW + (size - TailStart(size))
    ensures |read| == size
  {
  }

  lemma AgreeFromParts(o: seq<Byte>, read: seq<Byte>)
    requires Head(read) == Head(o) && StreamedTail(read, |o|) == StreamedTail(o, |o|)
    requires |o| > WINDOW ==> |read| == |o|
    ensures EndsAgree(o, read)
  {
    var head, tail := Head(read), StreamedTail(read, |o|);
    forall i | 0 <= i < |o| && (i < WINDOW || i >= |o| - WINDOW) ensures i < |read| && read[i] == o[i] {
      if i < WINDOW {
        assert head[i] == Head(o)[i];
      } else {
        var k := i - TailStart(|o|);
        assert tail[k] == StreamedTail(o, |o|)[k];
      }
    }
  }

  lemma PartsFromAgree(o: seq<Byte>, read: seq<Byte>)
    requires EndsAgree(o, read)
    ensures Head(read) == Head(o) && StreamedTail(read, |o|) == StreamedTail(o, |o|)
  {
  }
}
