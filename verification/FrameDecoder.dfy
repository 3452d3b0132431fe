/** Length-prefixed framing of byte strings and the decoder that undoes it chunk by chunk. */
module FrameDecoder {
  const MAX_FRAME_BYTES: nat := 4 * 1024 * 1024
  const MAX_DECODER_BUFFER_BYTES: nat := MAX_FRAME_BYTES + 4
  const INITIAL_BUFFER_BYTES: nat := 256

  // ----- Writing

  function Byte(n: nat): char { (n % 256) as char }

  /** The four big-endian bytes of a length, taken modulo 2^32. */
  function LengthPrefix(n: nat): (p: string)
    ensures |p| == 4
  {
    [Byte(n / 0x100_0000), Byte(n / 0x1_0000), Byte(n / 0x100), Byte(n)]
  }

  /** A length below 2^32 is written as four bytes, the most significant first. */
  lemma PrefixIsBigEndian(n: nat)
    requires n < 0x1_0000_0000
    ensures var p := LengthPrefix(n);
      && (forall i :: 0 <= i < 4 ==> p[i] as int < 256)
      && n == p[0] as int * 0x100_0000 + p[1] as int * 0x1_0000 + p[2] as int * 0x100 + p[3] as int
  {
    var a, b, c := n / 0x100_0000, n / 0x1_0000, n / 0x100;
    assert a % 256 == a && b % 256 == b - 256 * a && c % 256 == c - 256 * b && n % 256 == n - 256 * c;
  }

  function Encode(payload: string): string { LengthPrefix(|payload|) + payload }

  method EncodeLengthPrefixed(payload: string) returns (out: array<char>)
    ensures fresh(out) && out[..] == Encode(payload)
  {
    out := new char[4 + |payload|](_ => 0 as char);
    var n := |payload|;
    out[0], out[1], out[2], out[3] := Byte(n / 0x100_0000), Byte(n / 0x1_0000), Byte(n / 0x100), Byte(n);
    forall i | 0 <= i < |payload| { out[4 + i] := payload[i]; }
    assert out[..4] == LengthPrefix(n) && out[4..] == payload;
    assert out[..] == out[..4] + out[4..];
  }

  // ----- What a byte stream contains

  function DeclaredLength(s: string): nat
    requires |s| >= 4
  {
    ((s[0] as int * 256 + s[1] as int) * 256 + s[2] as int) * 256 + s[3] as int
  }

  /** The complete payloads of a stream and what is left, unless a length is over the limit. */
  datatype Split = Split(payloads: seq<string>, rest: string) | TooLong

  function Frames(s: string): Split
    decreases |s|
  {
    if |s| < 4 then Split([], s)
    else if DeclaredLength(s) > MAX_FRAME_BYTES then TooLong
    else if |s| < 4 + DeclaredLength(s) then Split([], s)
    else Cons(s[4..4 + DeclaredLength(s)], Frames(s[4 + DeclaredLength(s)..]))
  }

  function Cons(payload: string, r: Split): Split {
    match r
    case Split(ps, rest) => Split([payload] + ps, rest)
    case TooLong => TooLong
  }

  /** Less than one frame, and not one that is going to be refused. */
  predicate Incomplete(s: string) { Frames(s) == Split([], s) }

  lemma IncompleteIsShort(s: string)
    requires Incomplete(s)
    ensures |s| < MAX_DECODER_BUFFER_BYTES
    ensures |s| >= 4 ==> DeclaredLength(s) <= MAX_FRAME_BYTES && |s| < 4 + DeclaredLength(s)
  {
  }

  lemma FirstFrame(payload: string, later: string)
    requires |payload| <= MAX_FRAME_BYTES
    ensures Frames(Encode(payload) + later) == Cons(payload, Frames(later))
  {
    var s := Encode(payload) + later;
    PrefixRoundTrip(|payload|, payload + later);
    assert s == LengthPrefix(|payload|) + (payload + later);
    assert s[4..4 + |payload|] == payload && s[4 + |payload|..] == later;
  }

  /** Cutting off the first frame commutes with appending. */
  lemma FrameStep(a: string, b: string)
    requires |a| >= 4 && DeclaredLength(a) <= MAX_FRAME_BYTES && |a| >= 4 + DeclaredLength(a)
    ensures
      var n := 4 + DeclaredLength(a);
      && Frames(a) == Cons(a[4..n], Frames(a[n..]))
      && Frames(a + b) == Cons(a[4..n], Frames(a[n..] + b))
  {
    var n := 4 + DeclaredLength(a);
    assert (a + b)[4..n] == a[4..n] && (a + b)[n..] == a[n..] + b;
  }

  /** Splitting a longer stream continues from what a prefix of it left. */
  lemma {:induction false} FramesAppend(a: string, b: string)
    ensures match Frames(a)
      case TooLong => Frames(a + b) == TooLong
      case Split(ps, rest) => Incomplete(rest) && Frames(a + b) == Prepend(ps, Frames(rest + b))
    decreases |a|
  {
    if |a| >= 4 && DeclaredLength(a) <= MAX_FRAME_BYTES && |a| >= 4 + DeclaredLength(a) {
      var n := 4 + DeclaredLength(a);
      FrameStep(a, b);
      FramesAppend(a[n..], b);
      ConsPrepend(a[4..n], Frames(a[n..]), b);
    } else if |a| >= 4 {
      assert DeclaredLength(a + b) == DeclaredLength(a);
    }
  }

  lemma ConsPrepend(payload: string, r: Split, b: string)
    ensures r.Split? ==>
      Cons(payload, Prepend(r.payloads, Frames(r.rest + b))) == Prepend([payload] + r.payloads, Frames(r.rest + b))
  {
    if r.Split? && Frames(r.rest + b).Split? {
      var qs := Frames(r.rest + b).payloads;
      assert [payload] + (r.payloads + qs) == [payload] + r.payloads + qs;
    }
  }

  function Prepend(ps: seq<string>, r: Split): Split {
    match r
    case Split(qs, rest) => Split(ps + qs, rest)
    case TooLong => TooLong
  }

  // ----- One push, and a whole stream of them

  datatype PushResult = Yields(payloads: seq<string>) | Failed

  predicate WithinCap(pending: string, chunk: string) { |pending| + |chunk| <= MAX_DECODER_BUFFER_BYTES }

  /** What one push yields and leaves pending. */
  function Push(pending: string, chunk: string): (PushResult, string) {
    if !WithinCap(pending, chunk) then (Failed, "")
    else match Frames(pending + chunk)
      case Split(ps, rest) => (Yields(ps), rest)
      case TooLong => (Failed, "")
  }

  /** One attempt to take a frame off the front of the buffered bytes. */
  function First(s: string): (PushResult, string) {
    if |s| < 4 then (Yields([]), s)
    else if DeclaredLength(s) > MAX_FRAME_BYTES then (Failed, "")
    else if |s| < 4 + DeclaredLength(s) then (Yields([]), s)
    else (Yields([s[4..4 + DeclaredLength(s)]]), s[4 + DeclaredLength(s)..])
  }

  lemma DrainStep(all: string, out: seq<string>, s: string)
    requires Frames(all) == Prepend(out, Frames(s))
    ensures match First(s).0
      case Failed => Frames(all) == TooLong
      case Yields(ps) =>
        if ps == [] then Frames(all) == Split(out, s) && Incomplete(s) && First(s).1 == s
        else Frames(all) == Prepend(out + ps, Frames(First(s).1)) && |First(s).1| < |s|
  {
    assert out + [] == out;
    var (r, rest) := First(s);
    if r.Yields? && r.payloads != [] && Frames(rest).Split? {
      var p, qs := r.payloads[0], Frames(rest).payloads;
      assert out + ([p] + qs) == out + [p] + qs;
    }
  }

  class Decoder {
    var buf: array<char>
    var used: nat

    /** What has arrived and is not yet yielded. */
    ghost function Pending(): string
      reads this, buf
    {
      if used <= buf.Length then buf[..used] else ""
    }

    ghost predicate Valid()
      reads this, buf
    {
      used <= buf.Length <= MAX_DECODER_BUFFER_BYTES && Incomplete(Pending())
    }

    constructor ()
      ensures Valid() && Pending() == "" && fresh(buf)
    {
      buf := new char[INITIAL_BUFFER_BYTES](_ => 0 as char);
      used := 0;
    }

    method Reset()
      modifies this
      ensures Valid() && Pending() == "" && fresh(buf)
    {
      buf := new char[INITIAL_BUFFER_BYTES](_ => 0 as char);
      used := 0;
    }

    method DeclaredPayloadLen() returns (len: nat)
      requires 4 <= used <= buf.Length
      ensures len == DeclaredLength(Pending())
    {
      len := ((buf[0] as int * 256 + buf[1] as int) * 256 + buf[2] as int) * 256 + buf[3] as int;
    }

    /** Adds a chunk to the buffer, or resets it and reports failure. */
    method Append(chunk: string) returns (ok: bool)
      requires Valid()
      modifies this, buf
      ensures fresh(buf) || buf == old(buf)
      ensures used <= buf.Length <= MAX_DECODER_BUFFER_BYTES
      ensures ok <==> WithinCap(old(Pending()), chunk) &&
                      (|old(Pending()) + chunk| >= 4 ==> DeclaredLength(old(Pending()) + chunk) <= MAX_FRAME_BYTES)
      ensures Pending() == if ok then old(Pending()) + chunk else ""
    {
      IncompleteIsShort(Pending());
      if |chunk| > MAX_DECODER_BUFFER_BYTES { Reset(); return false; }
      var needed := used + |chunk|;
      if needed > MAX_DECODER_BUFFER_BYTES { Reset(); return false; }
      if used >= 4 {
        // An earlier chunk would have been refused already.
        var declared := DeclaredPayloadLen();
        if declared > MAX_FRAME_BYTES { assert false; }
      }
      if needed > buf.Length {
        Grow(needed);
      }
      forall i | 0 <= i < |chunk| { buf[used + i] := chunk[i]; }
      used := needed;
      assert buf[..used] == old(Pending()) + chunk;
      if used >= 4 {
        var declared := DeclaredPayloadLen();
        if declared > MAX_FRAME_BYTES { Reset(); return false; }
      }
      return true;
    }

    method Grow(needed: nat)
      requires used <= buf.Length < needed <= MAX_DECODER_BUFFER_BYTES
      modifies this
      ensures fresh(buf) && used == old(used) && needed <= buf.Length <= MAX_DECODER_BUFFER_BYTES
      ensures Pending() == old(Pending())
    {
      var doubled := if buf.Length * 2 > needed then buf.Length * 2 else needed;
      var nextCap := if doubled < MAX_DECODER_BUFFER_BYTES then doubled else MAX_DECODER_BUFFER_BYTES;
      var next := new char[nextCap](_ => 0 as char);
      forall i | 0 <= i < used { next[i] := buf[i]; }
      buf := next;
    }

    /** Removes one complete frame from the front of the buffer. */
    method TryParseOne() returns (r: PushResult)
      requires used <= buf.Length <= MAX_DECODER_BUFFER_BYTES
      modifies this
      ensures fresh(buf) || buf == old(buf)
      ensures used <= buf.Length <= MAX_DECODER_BUFFER_BYTES
      ensures (r, Pending()) == First(old(Pending()))
    {
      if used < 4 { return Yields([]); }
      var len := DeclaredPayloadLen();
      if len > MAX_FRAME_BYTES { Reset(); return Failed; }
      if used < 4 + len { return Yields([]); }
      var payload := buf[4..4 + len];
      assert payload == Pending()[4..4 + len];
      var remain := used - (4 + len);
      if remain > 0 {
        var next := new char[if remain > INITIAL_BUFFER_BYTES then remain else INITIAL_BUFFER_BYTES](_ => 0 as char);
        forall i | 0 <= i < remain { next[i] := buf[4 + len + i]; }
        assert next[..remain] == Pending()[4 + len..];
        buf, used := next, remain;
      } else {
        assert Pending()[4 + len..] == "";
        Reset();
      }
      return Yields([payload]);
    }

    /** Yields every frame that the chunk completes; a length over the limit loses them and resets. */
    method PushChunk(chunk: string) returns (r: PushResult)
      requires Valid()
      modifies this, buf
      ensures fresh(buf) || buf == old(buf)
      ensures Valid() && (r, Pending()) == Push(old(Pending()), chunk)
    {
      ghost var all := Pending() + chunk;
      var ok := Append(chunk);
      if !ok { return Failed; }
      var out: seq<string> := [];
      while true
        invariant fresh(buf) || buf == old(buf)
        invariant used <= buf.Length <= MAX_DECODER_BUFFER_BYTES
        invariant Frames(all) == Prepend(out, Frames(Pending()))
        decreases |Pending()|
      {
        DrainStep(all, out, Pending());
        var one := TryParseOne();
        if one == Failed { return Failed; }
        if one.payloads == [] { return Yields(out); }
        out := out + one.payloads;
      }
    }
  }

  // ----- Chunking does not matter

  function Flatten(chunks: seq<string>): string {
    if |chunks| == 0 then "" else chunks[0] + Flatten(chunks[1..])
  }

  /** Pushing chunk after chunk, up to the first failure. */
  function PushAll(pending: string, chunks: seq<string>): (PushResult, string)
    decreases |chunks|
  {
    if |chunks| == 0 then (Yields([]), pending)
    else
      var (first, next) := Push(pending, chunks[0]);
      if first == Failed then (Failed, "")
      else
        var (later, last) := PushAll(next, chunks[1..]);
        if later == Failed then (Failed, "") else (Yields(first.payloads + later.payloads), last)
  }

  /** No push takes the buffered bytes above the cap. */
  predicate AllWithinCap(pending: string, chunks: seq<string>)
    decreases |chunks|
  {
    |chunks| > 0 ==> WithinCap(pending, chunks[0]) && AllWithinCap(Push(pending, chunks[0]).1, chunks[1..])
  }

  /** However a stream is cut, as long as no push passes the cap: what the pushes yield and leave is
      what the whole stream contains, and they fail exactly when it holds a length over the limit. */
  lemma {:induction false} ChunkingIrrelevant(pending: string, chunks: seq<string>)
    requires Incomplete(pending) && AllWithinCap(pending, chunks)
    ensures match Frames(pending + Flatten(chunks))
      case TooLong => PushAll(pending, chunks) == (Failed, "")
      case Split(ps, rest) => PushAll(pending, chunks) == (Yields(ps), rest)
    decreases |chunks|
  {
    if |chunks| == 0 {
      assert pending + Flatten(chunks) == pending;
    } else {
      var first := pending + chunks[0];
      assert pending + Flatten(chunks) == first + Flatten(chunks[1..]);
      FramesAppend(first, Flatten(chunks[1..]));
      if Frames(first).Split? {
        ChunkingIrrelevant(Frames(first).rest, chunks[1..]);
      }
    }
  }

  /** The whole stream is decoded exactly when no push passes the cap and no length is over the limit. */
  lemma {:induction false} DecodedExactlyWhen(pending: string, chunks: seq<string>)
    requires Incomplete(pending)
    ensures PushAll(pending, chunks).0.Yields? <==>
            AllWithinCap(pending, chunks) && Frames(pending + Flatten(chunks)).Split?
    decreases |chunks|
  {
    if AllWithinCap(pending, chunks) {
      ChunkingIrrelevant(pending, chunks);
    } else if WithinCap(pending, chunks[0]) {
      var first := pending + chunks[0];
      FramesAppend(first, "");
      assert first + "" == first;
      if Frames(first).Split? { DecodedExactlyWhen(Frames(first).rest, chunks[1..]); }
    }
  }

  /** A chunk of at most one byte never passes the cap. */
  lemma {:induction false} SingleBytesFit(pending: string, chunks: seq<string>)
    requires Incomplete(pending) && forall i :: 0 <= i < |chunks| ==> |chunks[i]| <= 1
    ensures AllWithinCap(pending, chunks)
    decreases |chunks|
  {
    if |chunks| > 0 {
      IncompleteIsShort(pending);
      FramesAppend(pending + chunks[0], "");
      assert pending + chunks[0] + "" == pending + chunks[0];
      SingleBytesFit(Push(pending, chunks[0]).1, chunks[1..]);
    }
  }

  function EncodeAll(payloads: seq<string>): string {
    if |payloads| == 0 then "" else Encode(payloads[0]) + EncodeAll(payloads[1..])
  }

  lemma PrefixRoundTrip(n: nat, rest: string)
    requires n < 0x1_0000_0000
    ensures DeclaredLength(LengthPrefix(n) + rest) == n
  {
    var a, b, c := n / 0x100_0000, n / 0x1_0000, n / 0x100;
    assert a % 256 == a && b % 256 == b - 256 * a && c % 256 == c - 256 * b && n % 256 == n - 256 * c;
  }

  lemma {:induction false} FramesOfEncoded(payloads: seq<string>)
    requires forall i :: 0 <= i < |payloads| ==> |payloads[i]| <= MAX_FRAME_BYTES
    ensures Frames(EncodeAll(payloads)) == Split(payloads, "")
  {
    if |payloads| > 0 {
      FramesOfEncoded(payloads[1..]);
      FirstFrame(payloads[0], EncodeAll(payloads[1..]));
    }
  }

  /** Every list of payloads survives every way of cutting its encoding into chunks. */
  lemma DecodeEncoded(payloads: seq<string>, chunks: seq<string>)
    requires forall i :: 0 <= i < |payloads| ==> |payloads[i]| <= MAX_FRAME_BYTES
    requires Flatten(chunks) == EncodeAll(payloads) && AllWithinCap("", chunks)
    ensures PushAll("", chunks) == (Yields(payloads), "")
  {
    FramesOfEncoded(payloads);
    ChunkingIrrelevant("", chunks);
    assert "" + Flatten(chunks) == Flatten(chunks);
  }
}
