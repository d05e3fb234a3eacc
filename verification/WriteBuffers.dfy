/** The SFTP write buffer, and the paging of directory listings. */
module WriteBuffers {
  import opened Wrappers

  type Byte = x: int | 0 <= x < 256

  /** One `WriteAt` call. */
  datatype Chunk = Chunk(data: seq<Byte>, off: nat)

  function EndOf(c: Chunk): nat {
    c.off + |c.data|
  }

  predicate Covers(c: Chunk, i: nat) {
    c.off <= i < EndOf(c)
  }

  /** A buffer with a chunk laid over it; a gap in front of the chunk is filled with zeros. */
  function Overlay(buf: seq<Byte>, c: Chunk): seq<Byte> {
    var n := if EndOf(c) > |buf| then EndOf(c) else |buf|;
    seq(n, i requires 0 <= i < n => if Covers(c, i) then c.data[i - c.off] else if i < |buf| then buf[i] else 0)
  }

  function Buffer(chunks: seq<Chunk>): seq<Byte> {
    if chunks == [] then [] else Overlay(Buffer(chunks[..|chunks| - 1]), chunks[|chunks| - 1])
  }

  // ----- what the buffer holds

  function MaxEnd(chunks: seq<Chunk>): nat {
    if chunks == [] then 0
    else
      var m := MaxEnd(chunks[..|chunks| - 1]);
      if EndOf(chunks[|chunks| - 1]) > m then EndOf(chunks[|chunks| - 1]) else m
  }

  /** Chunk `k` is the last that covers byte `i`. */
  predicate LastAt(chunks: seq<Chunk>, i: nat, k: nat) {
    k < |chunks| && Covers(chunks[k], i) && forall j :: k < j < |chunks| ==> !Covers(chunks[j], i)
  }

  predicate Untouched(chunks: seq<Chunk>, i: nat) {
    forall k :: 0 <= k < |chunks| ==> !Covers(chunks[k], i)
  }

  lemma {:induction false} BufferLength(chunks: seq<Chunk>)
    ensures |Buffer(chunks)| == MaxEnd(chunks)
  {
    if chunks != [] {
      BufferLength(chunks[..|chunks| - 1]);
    }
  }

  /** A byte that no chunk covers is zero. */
  lemma {:induction false} UntouchedIsZero(chunks: seq<Chunk>, i: nat)
    requires i < |Buffer(chunks)| && Untouched(chunks, i)
    ensures Buffer(chunks)[i] == 0
  {
    if chunks != [] {
      var before := chunks[..|chunks| - 1];
      assert !Covers(chunks[|chunks| - 1], i);
      if i < |Buffer(before)| {
        UntouchedIsZero(before, i);
      }
    }
  }

  /** Every other byte is that of the last chunk that covers it. */
  lemma {:induction false} LastWins(chunks: seq<Chunk>, i: nat, k: nat)
    requires LastAt(chunks, i, k)
    ensures i < |Buffer(chunks)| && Buffer(chunks)[i] == chunks[k].data[i - chunks[k].off]
  {
    var before := chunks[..|chunks| - 1];
    if k < |before| {
      assert before[k] == chunks[k];
      LastWins(before, i, k);
      assert !Covers(chunks[|chunks| - 1], i);
    }
  }

  lemma {:induction false} LastCovering(chunks: seq<Chunk>, i: nat, k: nat) returns (last: nat)
    requires k < |chunks| && Covers(chunks[k], i)
    ensures LastAt(chunks, i, last)
    decreases |chunks| - k
  {
    if j :| k < j < |chunks| && Covers(chunks[j], i) {
      last := LastCovering(chunks, i, j);
    } else {
      last := k;
    }
  }

  predicate Apart(chunks: seq<Chunk>) {
    forall i, j :: 0 <= i < j < |chunks| ==> EndOf(chunks[i]) <= chunks[j].off || EndOf(chunks[j]) <= chunks[i].off
  }

  /** Chunks that lie apart may come in any order. */
  lemma OrderOfChunks(chunks: seq<Chunk>, chunks': seq<Chunk>)
    requires Apart(chunks) && multiset(chunks) == multiset(chunks')
    ensures Buffer(chunks) == Buffer(chunks')
  {
    SameElements(chunks, chunks');
    SameEnd(chunks, chunks');
    BufferLength(chunks);
    BufferLength(chunks');
    forall i: nat | i < |Buffer(chunks)|
      ensures Buffer(chunks)[i] == Buffer(chunks')[i]
    {
      SameByte(chunks, chunks', i);
    }
  }

  lemma SameByte(chunks: seq<Chunk>, chunks': seq<Chunk>, i: nat)
    requires Apart(chunks) && forall x :: x in chunks <==> x in chunks'
    requires i < |Buffer(chunks)| == |Buffer(chunks')|
    ensures Buffer(chunks)[i] == Buffer(chunks')[i]
  {
    if Untouched(chunks, i) {
      SameUntouched(chunks, chunks', i);
      UntouchedIsZero(chunks, i);
      UntouchedIsZero(chunks', i);
    } else {
      var k :| 0 <= k < |chunks| && Covers(chunks[k], i);
      var last := LastCovering(chunks, i, k);
      LastWins(chunks, i, last);
      SameCovered(chunks, chunks', i, chunks[last]);
    }
  }

  lemma SameUntouched(chunks: seq<Chunk>, chunks': seq<Chunk>, i: nat)
    requires Untouched(chunks, i) && forall x :: x in chunks' ==> x in chunks
    ensures Untouched(chunks', i)
  {
    forall k' | 0 <= k' < |chunks'| ensures !Covers(chunks'[k'], i) {
      assert chunks'[k'] in chunks;
    }
  }

  lemma SameCovered(chunks: seq<Chunk>, chunks': seq<Chunk>, i: nat, c: Chunk)
    requires Apart(chunks) && (forall x :: x in chunks <==> x in chunks') && c in chunks && Covers(c, i)
    ensures i < |Buffer(chunks')| && Buffer(chunks')[i] == c.data[i - c.off]
  {
    var k' :| 0 <= k' < |chunks'| && chunks'[k'] == c;
    var last' := LastCovering(chunks', i, k');
    assert chunks'[last'] in chunks;
    OneCovers(chunks, c, chunks'[last'], i);
    LastWins(chunks', i, last');
  }

  lemma SameElements<T>(a: seq<T>, b: seq<T>)
    requires multiset(a) == multiset(b)
    ensures forall x :: x in a <==> x in b
  {
    forall x ensures x in a <==> x in b {
      assert x in a <==> x in multiset(a);
      assert x in b <==> x in multiset(b);
    }
  }

  lemma OneCovers(chunks: seq<Chunk>, c: Chunk, d: Chunk, i: nat)
    requires Apart(chunks) && c in chunks && d in chunks && Covers(c, i) && Covers(d, i)
    ensures c == d
  {
  }

  lemma {:induction false} MaxEndIs(chunks: seq<Chunk>)
    ensures forall c :: c in chunks ==> EndOf(c) <= MaxEnd(chunks)
    ensures chunks != [] ==> exists c :: c in chunks && EndOf(c) == MaxEnd(chunks)
  {
    if chunks != [] {
      var n := |chunks| - 1;
      var front, last := chunks[..n], chunks[n];
      MaxEndIs(front);
      assert chunks == front + [last] && last in chunks;
      forall c | c in chunks
        ensures EndOf(c) <= MaxEnd(chunks)
      {
        assert c in front || c == last;
      }
      if EndOf(last) <= MaxEnd(front) && front != [] {
        var c :| c in front && EndOf(c) == MaxEnd(front);
        assert c in chunks && EndOf(c) == MaxEnd(chunks);
      }
    }
  }

  lemma SameEnd(chunks: seq<Chunk>, chunks': seq<Chunk>)
    requires forall x :: x in chunks <==> x in chunks'
    ensures MaxEnd(chunks) == MaxEnd(chunks')
  {
    MaxEndIs(chunks);
    MaxEndIs(chunks');
    if chunks != [] { assert chunks[0] in chunks'; }
    if chunks' != [] { assert chunks'[0] in chunks; }
  }

  /** Chunks that follow each other without gaps. */
  predicate Contiguous(chunks: seq<Chunk>) {
    forall i :: 0 <= i < |chunks| ==> Follows(chunks, i)
  }

  predicate Follows(chunks: seq<Chunk>, i: nat)
    requires i < |chunks|
  {
    chunks[i].off == if i == 0 then 0 else EndOf(chunks[i - 1])
  }

  function Joined(chunks: seq<Chunk>): seq<Byte> {
    if chunks == [] then [] else Joined(chunks[..|chunks| - 1]) + chunks[|chunks| - 1].data
  }

  /** For chunks in order and without gaps the buffer is what has been written so far, and so is the
      payload of the last of them. */
  lemma {:induction false} ContiguousIsJoined(chunks: seq<Chunk>)
    requires Contiguous(chunks)
    ensures Buffer(chunks) == Joined(chunks)
    ensures chunks != [] ==> EndOf(chunks[|chunks| - 1]) == |Joined(chunks)|
    ensures chunks != [] ==> Payload(Buffer(chunks[..|chunks| - 1]), chunks[|chunks| - 1]) == Joined(chunks)
  {
    if chunks != [] {
      var n := |chunks| - 1;
      ContiguousPrefix(chunks);
      ContiguousIsJoined(chunks[..n]);
      LayAtEnd(Joined(chunks[..n]), chunks[n]);
    }
  }

  lemma ContiguousPrefix(chunks: seq<Chunk>)
    requires Contiguous(chunks) && chunks != []
    ensures var before := chunks[..|chunks| - 1]; Contiguous(before)
    ensures var n := |chunks| - 1; chunks[n].off == if n == 0 then 0 else EndOf(chunks[..n][n - 1])
  {
    var before := chunks[..|chunks| - 1];
    assert Follows(chunks, |chunks| - 1);
    forall i | 0 <= i < |before|
      ensures Follows(before, i)
    {
      assert Follows(chunks, i);
    }
  }

  lemma LayAtEnd(buf: seq<Byte>, c: Chunk)
    requires c.off == |buf|
    ensures Overlay(buf, c) == buf + c.data && Payload(buf, c) == buf + c.data
  {
  }

  /** What a `WriteAt` sends to the router: everything up to the end of its chunk. */
  function Payload(buf: seq<Byte>, c: Chunk): seq<Byte> {
    Overlay(buf, c)[..EndOf(c)]
  }

  // ----- the buffer itself

  /** The router's answer to a payload: the response text, or an error. */
  type WriteHandler = seq<Byte> -> Option<string>

  class WriteBuffer {
    const path: string
    var data: array<Byte>
    var writeCache: map<string, string>
    ghost var chunks: seq<Chunk>
    ghost var sent: seq<seq<Byte>>

    ghost predicate Valid()
      reads this, data
    {
      data[..] == Buffer(chunks) && SentOk(chunks, sent)
    }

    constructor (path: string, writeCache: map<string, string>)
      ensures Valid() && chunks == [] && sent == [] && this.path == path && this.writeCache == writeCache && fresh(data)
    {
      this.path, this.writeCache := path, writeCache;
      data := new Byte[0];
      chunks, sent := [], [];
    }

    method WriteAt(p: seq<Byte>, off: nat, serve: WriteHandler) returns (n: nat)
      requires Valid()
      modifies this`data, this`writeCache, this`chunks, this`sent, data
      ensures Valid() && n == |p| && chunks == old(chunks) + [Chunk(p, off)]
      ensures data == old(data) || fresh(data)
      ensures match serve(sent[|sent| - 1])
        case Some(d) => writeCache == if d != "" then old(writeCache)[path := d] else old(writeCache)
        case None => writeCache == old(writeCache)
    {
      ghost var C, S, c := chunks, sent, Chunk(p, off);
      SentMore(C, S, c);
      Lay(p, off);
      var payload := data[..off + |p|];
      Send(payload, serve);
      chunks, sent := C + [c], S + [payload];
      assert sent[|sent| - 1] == payload;
      n := |p|;
    }

    method Send(payload: seq<Byte>, serve: WriteHandler)
      modifies this`writeCache
      ensures match serve(payload)
        case Some(d) => writeCache == if d != "" then old(writeCache)[path := d] else old(writeCache)
        case None => writeCache == old(writeCache)
    {
      var resp := serve(payload);
      match resp {
        case None =>
        case Some(d) =>
          if d != "" {
            writeCache := writeCache[path := d];
          }
      }
    }

    /** Grows the buffer when needed and copies the chunk into it. */
    method Lay(p: seq<Byte>, off: nat)
      modifies this`data, data
      ensures data[..] == Overlay(old(data[..]), Chunk(p, off))
      ensures data == old(data) || fresh(data)
    {
      if off + |p| > data.Length {
        var newData := new Byte[off + |p|](i => 0);
        Copy(newData, 0, data[..]);
        data := newData;
      }
      ghost var grown := data[..];
      Copy(data, off, p);
      Laid(old(data[..]), grown, p, off);
    }
  }

  /** The payload of a chunk ends where the chunk ends, and is what the buffer then holds: the chunk itself,
      and before it what was there, or zeros. */
  lemma PayloadIs(chunks: seq<Chunk>, c: Chunk)
    ensures var payload, buf, after := Payload(Buffer(chunks), c), Buffer(chunks), Buffer(chunks + [c]);
      && |payload| == c.off + |c.data| <= |after| && payload == after[..|payload|]
      && payload[c.off..] == c.data
      && forall i :: 0 <= i < c.off ==> payload[i] == if i < |buf| then buf[i] else 0
  {
    assert (chunks + [c])[..|chunks|] == chunks;
    var payload := Payload(Buffer(chunks), c);
    assert payload[c.off..] == c.data by {
      assert forall i :: 0 <= i < |c.data| ==> Covers(c, c.off + i) && payload[c.off + i] == c.data[i];
    }
  }

  /** Copying a chunk into the buffer, grown by zeros when it is too short. */
  lemma Laid(buf: seq<Byte>, grown: seq<Byte>, p: seq<Byte>, off: nat)
    requires |grown| == (if off + |p| > |buf| then off + |p| else |buf|)
    requires forall i :: 0 <= i < |grown| ==> grown[i] == if i < |buf| then buf[i] else 0
    ensures grown[..off] + p + grown[off + |p|..] == Overlay(buf, Chunk(p, off))
  {
    var r := grown[..off] + p + grown[off + |p|..];
    forall i | 0 <= i < |r|
      ensures r[i] == Overlay(buf, Chunk(p, off))[i]
    {
      assert i >= off + |p| ==> r[i] == grown[i];
    }
  }

  /** Each payload sent is everything the buffer held up to the end of its chunk. */
  ghost predicate SentOk(chunks: seq<Chunk>, sent: seq<seq<Byte>>) {
    && |sent| == |chunks|
    && forall i :: 0 <= i < |sent| ==> sent[i] == Payload(Buffer(chunks[..i]), chunks[i])
  }

  lemma SentMore(chunks: seq<Chunk>, sent: seq<seq<Byte>>, c: Chunk)
    requires SentOk(chunks, sent)
    ensures SentOk(chunks + [c], sent + [Payload(Buffer(chunks), c)])
    ensures Buffer(chunks + [c]) == Overlay(Buffer(chunks), c)
  {
    assert (chunks + [c])[..|chunks|] == chunks;
    assert forall i :: 0 <= i < |chunks| ==> (chunks + [c])[..i] == chunks[..i];
  }

  /** `copy(dst[off:], src)`. */
  method Copy(dst: array<Byte>, off: nat, src: seq<Byte>)
    requires off + |src| <= dst.Length
    modifies dst
    ensures dst[..] == old(dst[..off]) + src + old(dst[off + |src|..])
  {
    var i := 0;
    while i < |src|
      invariant 0 <= i <= |src|
      invariant forall x :: 0 <= x < dst.Length ==> dst[x] == if off <= x < off + i then src[x - off] else old(dst[x])
    {
      dst[off + i] := src[i];
      i := i + 1;
    }
    Copied(old(dst[..]), dst[..], off, src);
    assert old(dst[..])[..off] == old(dst[..off]) && old(dst[..])[off + |src|..] == old(dst[off + |src|..]);
  }

  lemma Copied(before: seq<Byte>, after: seq<Byte>, off: nat, src: seq<Byte>)
    requires off + |src| <= |before| == |after|
    requires forall x :: 0 <= x < |after| ==> after[x] == if off <= x < off + |src| then src[x - off] else before[x]
    ensures after == before[..off] + src + before[off + |src|..]
  {
  }

  // ----- paging

  /** Fills a page with the entries from `offset` on; the end is reported with the page that reaches it,
      except when that is the first page and it is exactly full. */
  method ListAt<T>(items: seq<T>, fis: array<T>, offset: nat) returns (n: nat, eof: bool)
    modifies fis
    ensures n == if offset >= |items| then 0 else if fis.Length < |items| - offset then fis.Length else |items| - offset
    ensures n > 0 ==> fis[..n] == items[offset..offset + n]
    ensures fis[n..] == old(fis[n..])
    ensures eof <==> offset + n >= |items| && !(offset == 0 && n == fis.Length && items != [])
  {
    if offset >= |items| {
      return 0, true;
    }
    n := 0;
    while n < fis.Length && n < |items| - offset
      invariant 0 <= n <= fis.Length && n <= |items| - offset
      invariant forall x :: 0 <= x < fis.Length ==> fis[x] == if x < n then items[offset + x] else old(fis[x])
    {
      fis[n] := items[offset + n];
      n := n + 1;
    }
    if offset > 0 && offset + n >= |items| {
      return n, true;
    }
    if n < fis.Length {
      return n, true;
    }
    return n, false;
  }
}
