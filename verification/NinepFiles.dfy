/** A leaf file of the 9p server: the windows it reads, and the response it keeps after a write. */
module NinepFiles {
  import opened Wrappers

  const TWO_TO_THE_64 := 0x1_0000_0000_0000_0000
  const TWO_TO_THE_63 := 0x8000_0000_0000_0000

  /** Offsets and counts are 64-bit words; a text is never longer than half of that range. */
  predicate Word(n: nat) {
    n < TWO_TO_THE_64
  }

  /** The part of `data` from `offset` on, at most `count` bytes. */
  function Window(data: string, offset: nat, count: nat): string {
    if offset >= |data| then ""
    else if offset + count > |data| then data[offset..]
    else data[offset..offset + count]
  }

  /** A window is as long as it may be, and its bytes are those of the text from the offset on. */
  lemma WindowIs(data: string, offset: nat, count: nat)
    ensures var w := Window(data, offset, count);
      && |w| == (if offset >= |data| then 0 else if count < |data| - offset then count else |data| - offset)
      && forall i :: 0 <= i < |w| ==> w[i] == data[offset + i]
  {
  }

  /** Two windows in a row make one. */
  lemma WindowsJoin(data: string, offset: nat, a: nat, b: nat)
    ensures Window(data, offset, a) + Window(data, offset + a, b) == Window(data, offset, a + b)
    ensures Window(data, 0, |data|) == data
  {
  }

  function Sum(counts: seq<nat>): nat {
    if counts == [] then 0 else Sum(counts[..|counts| - 1]) + counts[|counts| - 1]
  }

  /** The windows of the given sizes, one after the other. */
  function Windows(data: string, counts: seq<nat>): string {
    if counts == [] then ""
    else
      var before := counts[..|counts| - 1];
      Windows(data, before) + Window(data, Sum(before), counts[|counts| - 1])
  }

  /** Reading window after window gives the beginning of the text, and all of it once the sizes suffice. */
  lemma {:induction false} WindowsGiveText(data: string, counts: seq<nat>)
    ensures Windows(data, counts) == Window(data, 0, Sum(counts))
    ensures Sum(counts) >= |data| ==> Windows(data, counts) == data
  {
    WholeText(data, Sum(counts));
    if counts != [] {
      var n := |counts| - 1;
      WindowsGiveText(data, counts[..n]);
      WindowsJoin(data, 0, Sum(counts[..n]), counts[n]);
    }
  }

  lemma WholeText(data: string, n: nat)
    ensures n >= |data| ==> Window(data, 0, n) == data
    ensures Window(data, 0, 0) == ""
  {
  }

  /** The additions of the code are made on 64-bit words. */
  function Add64(a: nat, b: nat): nat {
    (a + b) % TWO_TO_THE_64
  }

  lemma Wraps(a: nat, b: nat)
    requires Word(a) && Word(b)
    ensures Add64(a, b) == if a + b < TWO_TO_THE_64 then a + b else a + b - TWO_TO_THE_64
  {
  }

  /** Cuts the window out of a text; `None` is a slice out of bounds. */
  method Cut(data: string, offset: nat, count: nat) returns (r: Option<string>)
    requires |data| < TWO_TO_THE_63 && Word(offset) && Word(count)
    ensures r.None? <==> offset < |data| && offset + count >= TWO_TO_THE_64
    ensures r.Some? ==> r.value == Window(data, offset, count)
  {
    if offset >= |data| {
      return Some("");
    }
    var n := count;
    Wraps(offset, n);
    if Add64(offset, n) > |data| {
      n := |data| - offset;
    }
    Wraps(offset, n);
    var end := Add64(offset, n);
    if offset <= end <= |data| {
      return Some(data[offset..end]);
    }
    return None;
  }

  class RouterFile {
    var cachedData: string

    constructor ()
      ensures cachedData == ""
    {
      cachedData := "";
    }

    /** What the next read is cut from: the kept response, or else what the read handler answers. */
    function Source(reply: Option<string>): string
      reads this
    {
      if cachedData != "" then cachedData else if reply.Some? then reply.value else ""
    }

    /** Reads a window; `reply` is the read handler's answer, `None` an error. No 32-bit count is out of
        bounds. */
    method Read(offset: nat, count: nat, reply: Option<string>) returns (r: Option<string>)
      requires |Source(reply)| < TWO_TO_THE_63 && Word(offset) && Word(count)
      ensures r.None? <==> offset < |Source(reply)| && offset + count >= TWO_TO_THE_64
      ensures r.Some? ==> r.value == Window(Source(reply), offset, count)
      ensures count < 0x1_0000_0000 ==> r.Some?
      ensures r.Some? && cachedData != "" ==> r.value == Window(cachedData, offset, count)
      ensures cachedData == "" && reply.None? ==> r == Some("")
    {
      if cachedData != "" {
        r := Cut(cachedData, offset, count);
        return;
      }
      match reply {
        case Some(text) => r := Cut(text, offset, count);
        case None => return Some("");
      }
    }

    /** Writes through the router; `reply` is the write handler's answer. The response is kept only
        when the path has no read handler. */
    method Write(data: string, reply: Option<string>, hasReadHandler: bool) returns (written: Option<nat>)
      modifies this
      ensures written == if reply.None? then None else Some(|data| % 0x1_0000_0000)
      ensures cachedData == if reply.Some? && !hasReadHandler then reply.value else old(cachedData)
    {
      match reply {
        case None => return None;
        case Some(resp) =>
          if !hasReadHandler {
            cachedData := resp;
          }
          return Some(|data| % 0x1_0000_0000);
      }
    }
  }

  /** After a successful write to a file without a read handler, reading window after window yields the
      response just given. */
  method ReadBack(f: RouterFile, data: string, resp: string, counts: seq<nat>) returns (text: string)
    requires 0 < |resp| < TWO_TO_THE_63
    requires forall i :: 0 <= i < |counts| ==> counts[i] < 0x1_0000_0000 && Word(Sum(counts[..i]))
    modifies f
    ensures text == Window(resp, 0, Sum(counts))
    ensures Sum(counts) >= |resp| ==> text == resp
  {
    var n := f.Write(data, Some(resp), false);
    text := "";
    var offset := 0;
    var i := 0;
    while i < |counts|
      invariant 0 <= i <= |counts| && offset == Sum(counts[..i]) && text == Windows(resp, counts[..i])
      invariant f.cachedData == resp
    {
      var part := f.Read(offset, counts[i], None);
      assert counts[..i + 1][..i] == counts[..i];
      text, offset := text + part.value, offset + counts[i];
      i := i + 1;
    }
    assert counts[..i] == counts;
    WindowsGiveText(resp, counts);
  }
}
