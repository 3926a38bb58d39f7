/**
 The signed aws-chunked body reader: framing, per-chunk signatures chained from a seed, and
 delivery of the payload under any pattern of reads. The keyed hash over (previous
 signature, data) is a parameter.
 */
module Streaming {
  import opened Records
  import opened Text

  /** The signature of a chunk: a function of the previous signature and the data. */
  type Signer = (string, string) -> string

  /** 64 MiB. */
  const MAX_CHUNK: nat := 67108864

  const SIG_PREFIX := "chunk-signature="

  // ---- Scanning ----

  function Find(s: string, c: char): (i: nat)
    ensures i <= |s| && (i < |s| ==> s[i] == c)
  {
    if s == [] || s[0] == c then 0 else 1 + Find(s[1..], c)
  }

  lemma {:induction false} FindFirst(x: string, c: char, y: string)
    requires Free(x, c)
    ensures Find(x + [c] + y, c) == |x|
  {
    if x != [] {
      assert (x + [c] + y)[1..] == x[1..] + [c] + y;
      FindFirst(x[1..], c, y);
    }
  }

  function TrimEnd(s: string): string {
    if s != [] && (s[|s| - 1] == '\r' || s[|s| - 1] == '\n') then TrimEnd(s[..|s| - 1]) else s
  }

  lemma TrimLine(s: string)
    requires s == [] || (s[|s| - 1] != '\r' && s[|s| - 1] != '\n')
    ensures TrimEnd(s + ['\r'] + ['\n']) == s
  {
    var a := s + ['\r'] + ['\n'];
    assert a[..|a| - 1] == s + ['\r'];
    assert (s + ['\r'])[..|s|] == s;
    assert TrimEnd(a) == TrimEnd(s + ['\r']) == TrimEnd(s) == s;
  }

  // ---- Sizes ----

  function HexDigit(d: nat): (c: char)
    requires d < 16
    ensures IsHex(c) && HexValue(c) == d
  {
    if d < 10 then (('0' as int) + d) as char else (('a' as int) + d - 10) as char
  }

  predicate AllHex(s: string) {
    forall i :: 0 <= i < |s| ==> IsHex(s[i])
  }

  function HexNumber(s: string): nat
    requires AllHex(s)
  {
    if s == [] then 0 else HexNumber(s[..|s| - 1]) * 16 + HexValue(s[|s| - 1])
  }

  /** A signed 64-bit hexadecimal integer: an optional sign and at least one digit. */
  function ParseSize(s: string): Option<int> {
    var negative := s != [] && s[0] == '-';
    var digits := if s != [] && (s[0] == '-' || s[0] == '+') then s[1..] else s;
    if digits == [] || !AllHex(digits) then None
    else
      var n: int := HexNumber(digits);
      if negative then (if n <= 0x8000_0000_0000_0000 then Some(-n) else None)
      else if n < 0x8000_0000_0000_0000 then Some(n) else None
  }

  function Hex(n: nat): (s: string)
    ensures s != [] && AllHex(s)
  {
    if n < 16 then [HexDigit(n)] else Hex(n / 16) + [HexDigit(n % 16)]
  }

  lemma {:induction false} HexRoundTrip(n: nat)
    ensures HexNumber(Hex(n)) == n
  {
    if n < 16 {
      assert Hex(n)[..0] == [];
    } else {
      HexRoundTrip(n / 16);
      assert Hex(n)[..|Hex(n)| - 1] == Hex(n / 16);
    }
  }

  lemma ParseHex(n: nat)
    requires n <= MAX_CHUNK
    ensures ParseSize(Hex(n)) == Some(n)
  {
    HexRoundTrip(n);
    assert IsHex(Hex(n)[0]);
  }

  // ---- One chunk ----

  datatype Parsed = Bad | Chunk(data: string, sig: string, rest: string)

  /** What follows the next line end; nothing when there is none. */
  function SkipLine(s: string): string {
    var i := Find(s, '\n');
    if i < |s| then s[i + 1..] else []
  }

  function Unprefixed(s: string): string {
    if SIG_PREFIX <= s then s[|SIG_PREFIX|..] else s
  }

  datatype Header = NoHeader | Header(size: nat, sig: string)

  /** Declared size and signature text of a header; none when either is malformed. */
  function ParseHeader(header: string): (r: Header)
    ensures r.Header? ==> r.size <= MAX_CHUNK
  {
    var semi := Find(header, ';');
    if semi == |header| then NoHeader else
    var size := ParseSize(header[..semi]);
    if size.None? || size.value < 0 || size.value > MAX_CHUNK then NoHeader
    else Header(size.value, Unprefixed(header[semi + 1..]))
  }

  /** Header line, declared size, payload, signature check, line end. */
  function NextChunk(src: string, prev: string, sign: Signer): (r: Parsed)
    ensures r.Chunk? ==> |r.rest| < |src| && r.sig == sign(prev, r.data) && |r.data| <= MAX_CHUNK
  {
    var nl := Find(src, '\n');
    if nl == |src| then Bad else
    var h := ParseHeader(TrimEnd(src[..nl + 1]));
    var body := src[nl + 1..];
    if h.NoHeader? || h.size > |body| then Bad else
    var data := body[..h.size];
    if sign(prev, data) != h.sig then Bad
    else Chunk(data, sign(prev, data), SkipLine(body[h.size..]))
  }

  /** The whole body: the chunks verified in chain order, and whether a zero chunk closed it. */
  datatype Decoded = Decoded(chunks: seq<string>, complete: bool)

  /** One step of decoding: what the input starts with, after a given signature. */
  type Parser = (string, string) -> Parsed

  function ParserOf(sign: Signer): Parser {
    (src: string, prev: string) => NextChunk(src, prev, sign)
  }

  function Decode(src: string, prev: string, next: Parser): Decoded
    decreases |src|
  {
    var p := next(src, prev);
    if p.Bad? || |p.rest| >= |src| then Decoded([], false)
    else if p.data == [] then Decoded([[]], true)
    else
      var rest := Decode(p.rest, p.sig, next);
      Decoded([p.data] + rest.chunks, rest.complete)
  }

  function Joined(chunks: seq<string>): string {
    if chunks == [] then [] else chunks[0] + Joined(chunks[1..])
  }

  // ---- Round trip ----

  /** One chunk as a client frames it. */
  function Frame(data: string, sig: string): string {
    Hex(|data|) + [';'] + (SIG_PREFIX + sig) + ['\r'] + ['\n'] + data + ['\r'] + ['\n']
  }

  /** A correctly chained chunk list, with whatever follows the closing zero chunk. */
  function Encode(chunks: seq<string>, prev: string, sign: Signer, trailer: string): string {
    if chunks == [] then Frame([], sign(prev, [])) + trailer
    else Frame(chunks[0], sign(prev, chunks[0])) + Encode(chunks[1..], sign(prev, chunks[0]), sign, trailer)
  }

  /** Signatures are lower-case hexadecimal text. */
  ghost predicate TextSigner(sign: Signer) {
    forall p, d :: Free(sign(p, d), '\r') && Free(sign(p, d), '\n')
  }

  ghost predicate Framable(chunks: seq<string>) {
    forall i :: 0 <= i < |chunks| ==> 0 < |chunks[i]| <= MAX_CHUNK
  }

  function HeaderOf(data: string, sig: string): string {
    Hex(|data|) + [';'] + (SIG_PREFIX + sig)
  }

  lemma HexFree(n: nat, c: char)
    requires !IsHex(c)
    ensures Free(Hex(n), c)
  {
  }

  lemma UnprefixedJoin(sig: string)
    ensures Unprefixed(SIG_PREFIX + sig) == sig
  {
  }

  lemma ParseHeaderParts(n: string, rest: string)
    requires Free(n, ';')
    ensures var size := ParseSize(n);
      ParseHeader(n + [';'] + rest)
      == if size.None? || size.value < 0 || size.value > MAX_CHUNK then NoHeader
        else Header(size.value, Unprefixed(rest))
  {
    var h := n + [';'] + rest;
    FindFirst(n, ';', rest);
    assert h[..|n|] == n && h[|n| + 1..] == rest;
  }

  lemma HeaderParses(data: string, sig: string)
    requires |data| <= MAX_CHUNK
    ensures ParseHeader(HeaderOf(data, sig)) == Header(|data|, sig)
  {
    ParseHex(|data|);
    HexFree(|data|, ';');
    UnprefixedJoin(sig);
    ParseHeaderParts(Hex(|data|), SIG_PREFIX + sig);
  }

  lemma HeaderLine(data: string, sig: string)
    requires Free(sig, '\r') && Free(sig, '\n')
    ensures Free(HeaderOf(data, sig), '\n') && TrimEnd(HeaderOf(data, sig) + ['\r'] + ['\n']) == HeaderOf(data, sig)
  {
    var h := HeaderOf(data, sig);
    HexFree(|data|, '\n');
    assert h[|h| - 1] == (SIG_PREFIX + sig)[|SIG_PREFIX + sig| - 1];
    TrimLine(h);
  }

  /** Where the pieces of a frame are. */
  lemma FrameSplits(data: string, sig: string, rest: string)
    requires Free(HeaderOf(data, sig), '\n')
    ensures var src, nl := Frame(data, sig) + rest, |HeaderOf(data, sig)| + 1;
      && Find(src, '\n') == nl < |src|
      && src[..nl + 1] == HeaderOf(data, sig) + ['\r'] + ['\n']
      && src[nl + 1..] == data + (['\r'] + ['\n'] + rest)
  {
    var h := HeaderOf(data, sig);
    var tail := data + (['\r'] + ['\n'] + rest);
    assert Frame(data, sig) + rest == (h + ['\r']) + ['\n'] + tail;
    FindFirst(h + ['\r'], '\n', tail);
  }

  lemma FrameParses(data: string, prev: string, sign: Signer, rest: string)
    requires TextSigner(sign) && |data| <= MAX_CHUNK
    ensures NextChunk(Frame(data, sign(prev, data)) + rest, prev, sign) == Chunk(data, sign(prev, data), rest)
  {
    var sig := sign(prev, data);
    HeaderLine(data, sig);
    HeaderParses(data, sig);
    FrameSplits(data, sig, rest);
    BodySplits(data, rest);
  }

  lemma BodySplits(data: string, rest: string)
    ensures var body := data + (['\r'] + ['\n'] + rest);
      |data| <= |body| && body[..|data|] == data && SkipLine(body[|data|..]) == rest
  {
    var after := ['\r'] + ['\n'] + rest;
    assert (data + after)[|data|..] == after;
    FindFirst(['\r'], '\n', rest);
    assert after[2..] == rest;
  }

  /** The parser takes a well-signed frame apart again. */
  ghost predicate Unframes(next: Parser, sign: Signer) {
    forall data, prev, rest | |data| <= MAX_CHUNK ::
      next(Frame(data, sign(prev, data)) + rest, prev) == Chunk(data, sign(prev, data), rest)
  }

  lemma ParserUnframes(sign: Signer)
    requires TextSigner(sign)
    ensures Unframes(ParserOf(sign), sign)
  {
    forall data, prev, rest | |data| <= MAX_CHUNK
      ensures ParserOf(sign)(Frame(data, sign(prev, data)) + rest, prev) == Chunk(data, sign(prev, data), rest)
    {
      FrameParses(data, prev, sign, rest);
    }
  }

  lemma DecodeFrame(data: string, prev: string, sign: Signer, next: Parser, rest: string)
    requires Unframes(next, sign) && |data| <= MAX_CHUNK
    ensures Decode(Frame(data, sign(prev, data)) + rest, prev, next)
      == if data == [] then Decoded([[]], true)
         else Decoded([data] + Decode(rest, sign(prev, data), next).chunks,
           Decode(rest, sign(prev, data), next).complete)
  {
    assert |Frame(data, sign(prev, data)) + rest| > |rest|;
  }

  /** Every correctly chained chunk list decodes to exactly its chunks, whatever trails it. */
  lemma {:induction false} RoundTripWith(chunks: seq<string>, prev: string, sign: Signer, next: Parser, trailer: string)
    requires Unframes(next, sign) && Framable(chunks)
    ensures Decode(Encode(chunks, prev, sign, trailer), prev, next) == Decoded(chunks + [[]], true)
    decreases |chunks|
  {
    if chunks == [] {
      DecodeFrame([], prev, sign, next, trailer);
    } else {
      var sig := sign(prev, chunks[0]);
      DecodeFrame(chunks[0], prev, sign, next, Encode(chunks[1..], sig, sign, trailer));
      RoundTripWith(chunks[1..], sig, sign, next, trailer);
      assert chunks + [[]] == [chunks[0]] + (chunks[1..] + [[]]);
    }
  }

  lemma RoundTrip(chunks: seq<string>, seed: string, sign: Signer, trailer: string)
    requires TextSigner(sign) && Framable(chunks)
    ensures Decode(Encode(chunks, seed, sign, trailer), seed, ParserOf(sign)) == Decoded(chunks + [[]], true)
  {
    ParserUnframes(sign);
    RoundTripWith(chunks, seed, sign, ParserOf(sign), trailer);
  }

  // ---- Integrity ----

  /** The signatures of a chunk list in chain order. */
  function ChainSigs(chunks: seq<string>, prev: string, sign: Signer): seq<string> {
    if chunks == [] then [] else [sign(prev, chunks[0])] + ChainSigs(chunks[1..], sign(prev, chunks[0]), sign)
  }

  /** The signature that chunk `i` is chained to: the one before it, or the seed. */
  ghost function Previous(chunks: seq<string>, seed: string, sign: Signer, i: nat): string
    requires i <= |chunks|
  {
    ChainLength(chunks, seed, sign);
    ([seed] + ChainSigs(chunks, seed, sign))[i]
  }

  /** Two chains sign two different pairs of previous signature and data alike. */
  ghost predicate Collides(a: seq<string>, b: seq<string>, seed: string, sign: Signer) {
    exists i: nat, j: nat :: i < |a| && j < |b| && Clash(a, b, seed, sign, i, j)
  }

  ghost predicate Clash(a: seq<string>, b: seq<string>, seed: string, sign: Signer, i: nat, j: nat)
    requires i < |a| && j < |b|
  {
    && (Previous(a, seed, sign, i), a[i]) != (Previous(b, seed, sign, j), b[j])
    && sign(Previous(a, seed, sign, i), a[i]) == sign(Previous(b, seed, sign, j), b[j])
  }

  /** The keyed hash failed: it repeated the seed, or signed two different pairs alike. */
  ghost predicate Broken(chunks: seq<string>, honest: seq<string>, seed: string, sign: Signer) {
    seed in ChainSigs(honest, seed, sign) || Collides(chunks, honest, seed, sign)
  }

  lemma {:induction false} ChainAt(chunks: seq<string>, seed: string, sign: Signer, i: nat)
    requires i < |chunks|
    ensures |ChainSigs(chunks, seed, sign)| == |chunks|
    ensures var all := [seed] + ChainSigs(chunks, seed, sign); all[i + 1] == sign(all[i], chunks[i])
  {
    if i == 0 {
      ChainLength(chunks, seed, sign);
    } else {
      ChainAt(chunks[1..], sign(seed, chunks[0]), sign, i - 1);
    }
  }

  lemma {:induction false} ChainLength(chunks: seq<string>, seed: string, sign: Signer)
    ensures |ChainSigs(chunks, seed, sign)| == |chunks|
  {
    if chunks != [] { ChainLength(chunks[1..], sign(seed, chunks[0]), sign); }
  }

  lemma PreviousNext(chunks: seq<string>, seed: string, sign: Signer, i: nat)
    requires i < |chunks|
    ensures Previous(chunks, seed, sign, i + 1) == sign(Previous(chunks, seed, sign, i), chunks[i])
    ensures Previous(chunks, seed, sign, i + 1) in ChainSigs(chunks, seed, sign)
  {
    ChainAt(chunks, seed, sign, i);
    assert Previous(chunks, seed, sign, i + 1) == ChainSigs(chunks, seed, sign)[i];
  }

  /** Chains that agree so far have the same previous signature. */
  lemma {:induction false} SamePrevious(a: seq<string>, b: seq<string>, seed: string, sign: Signer, i: nat)
    requires i <= |a| && i <= |b| && a[..i] == b[..i]
    ensures Previous(a, seed, sign, i) == Previous(b, seed, sign, i)
  {
    if i > 0 {
      assert a[..i - 1] == a[..i][..i - 1] && b[..i - 1] == b[..i][..i - 1];
      SamePrevious(a, b, seed, sign, i - 1);
      PreviousNext(a, seed, sign, i - 1);
      PreviousNext(b, seed, sign, i - 1);
      assert a[i - 1] == a[..i][i - 1] == b[..i][i - 1] == b[i - 1];
    }
  }

  /** Equal previous signatures at different places lead back to the seed or to a collision. */
  lemma {:induction false} Descends(chunks: seq<string>, honest: seq<string>, seed: string, sign: Signer, i: nat,
                                    j: nat)
    requires i != j && i <= |chunks| && i <= |honest| && j <= |honest| && chunks[..i] == honest[..i]
    requires Previous(chunks, seed, sign, i) == Previous(honest, seed, sign, j)
    ensures Broken(chunks, honest, seed, sign)
    decreases i
  {
    if i == 0 {
      PreviousNext(honest, seed, sign, j - 1);
    } else if j == 0 {
      SamePrevious(chunks, honest, seed, sign, i);
      PreviousNext(honest, seed, sign, i - 1);
    } else {
      PreviousNext(chunks, seed, sign, i - 1);
      PreviousNext(honest, seed, sign, j - 1);
      if !Clash(chunks, honest, seed, sign, i - 1, j - 1) {
        assert chunks[..i - 1] == chunks[..i][..i - 1] && honest[..i - 1] == honest[..i][..i - 1];
        Descends(chunks, honest, seed, sign, i - 1, j - 1);
      }
    }
  }

  /** Where the chunks leave the honest ones, or go on after them. */
  lemma {:induction false} Departs(chunks: seq<string>, honest: seq<string>) returns (i: nat)
    requires !(chunks <= honest)
    ensures i < |chunks| && i <= |honest| && chunks[..i] == honest[..i] && (i < |honest| ==> chunks[i] != honest[i])
  {
    if honest == [] || chunks[0] != honest[0] {
      i := 0;
    } else {
      assert chunks == [chunks[0]] + chunks[1..] && honest == [honest[0]] + honest[1..];
      var n := Departs(chunks[1..], honest[1..]);
      i := n + 1;
      assert chunks[..i] == [chunks[0]] + chunks[1..][..n] && honest[..i] == [honest[0]] + honest[1..][..n];
    }
  }

  /** If the only signatures anybody can present are those of the chunks that were signed,
      then whatever the input, what is verified is a prefix of those chunks, or the two
      chains exhibit a failure of the keyed hash. */
  lemma NothingForged(chunks: seq<string>, honest: seq<string>, seed: string, sign: Signer)
    requires forall s :: s in ChainSigs(chunks, seed, sign) ==> s in ChainSigs(honest, seed, sign)
    ensures chunks <= honest || Broken(chunks, honest, seed, sign)
  {
    if !(chunks <= honest) {
      var i := Departs(chunks, honest);
      PreviousNext(chunks, seed, sign, i);
      var sigs := ChainSigs(honest, seed, sign);
      var j :| 0 <= j < |sigs| && sigs[j] == Previous(chunks, seed, sign, i + 1);
      ChainLength(honest, seed, sign);
      PreviousNext(honest, seed, sign, j);
      assert Previous(honest, seed, sign, j + 1) == sigs[j];
      if !Clash(chunks, honest, seed, sign, i, j) { Descends(chunks, honest, seed, sign, i, j); }
    }
  }

  /** The signature texts a decode accepted are the chain over what it delivered. */
  function Accepted(src: string, prev: string, next: Parser): seq<string>
    decreases |src|
  {
    var p := next(src, prev);
    if p.Bad? || |p.rest| >= |src| then []
    else if p.data == [] then [p.sig]
    else [p.sig] + Accepted(p.rest, p.sig, next)
  }

  lemma {:induction false} AcceptedChain(src: string, prev: string, sign: Signer, next: Parser)
    requires forall s, q :: next(s, q).Chunk? ==> next(s, q).sig == sign(q, next(s, q).data)
    ensures Accepted(src, prev, next) == ChainSigs(Decode(src, prev, next).chunks, prev, sign)
    decreases |src|
  {
    var p := next(src, prev);
    if p.Chunk? && |p.rest| < |src| && p.data != [] { AcceptedChain(p.rest, p.sig, sign, next); }
  }

  /** A tampered body is never taken for complete: when every accepted signature is one that
      was issued for the honest chunks and their closing zero chunk, the delivered chunks are
      a prefix of the honest ones, and a complete body is exactly them; otherwise the two
      chains themselves show the keyed hash repeating its seed or signing two different
      pairs alike. */
  lemma TamperEvident(src: string, data: seq<string>, seed: string, sign: Signer)
    requires Framable(data)
    requires forall s :: s in Accepted(src, seed, ParserOf(sign)) ==> s in ChainSigs(data + [[]], seed, sign)
    ensures var d := Decode(src, seed, ParserOf(sign));
      || Broken(d.chunks, data + [[]], seed, sign)
      || (d.chunks <= data + [[]] && (d.complete ==> d.chunks == data + [[]]))
  {
    var next := ParserOf(sign);
    var d := Decode(src, seed, next);
    AcceptedChain(src, seed, sign, next);
    NothingForged(d.chunks, data + [[]], seed, sign);
    if d.complete && d.chunks <= data + [[]] {
      CompleteEnds(src, seed, next);
      assert d.chunks[|d.chunks| - 1] == (data + [[]])[|d.chunks| - 1];
    }
  }

  lemma {:induction false} CompleteEnds(src: string, prev: string, next: Parser)
    requires Decode(src, prev, next).complete
    ensures var cs := Decode(src, prev, next).chunks; |cs| > 0 && cs[|cs| - 1] == []
    decreases |src|
  {
    var p := next(src, prev);
    if p.data != [] { CompleteEnds(p.rest, p.sig, next); }
  }

  // ---- The reader ----

  datatype Status = More | Eof | Fault

  class ChunkReader {
    const next: Parser
    var src: string
    var prevSig: string
    var buf: string
    var off: nat
    var done: bool
    var failed: bool

    constructor (src: string, seed: string, next: Parser)
      ensures Valid() && this.next == next && Left() == Joined(Decode(src, seed, next).chunks)
      ensures Complete() == Decode(src, seed, next).complete
    {
      this.next, this.src, this.prevSig := next, src, seed;
      buf, off, done, failed := [], 0, false, false;
    }

    ghost predicate Valid()
      reads this
    {
      off <= |buf| && (done || failed ==> off == |buf|) && !(done && failed)
    }

    /** The verified payload still to come. */
    ghost function Left(): string
      reads this
      requires Valid()
    {
      buf[off..] + if done || failed then [] else Joined(Decode(src, prevSig, next).chunks)
    }

    /** Whether the body will turn out to be closed by a verified zero chunk. */
    ghost function Complete(): bool
      reads this
    {
      done || (!failed && Decode(src, prevSig, next).complete)
    }

    /** Read and verify the next chunk into the buffer. */
    method Advance() returns (ok: bool)
      requires Valid() && off == |buf| && !done && !failed
      modifies this
      ensures Valid() && !failed
      ensures ok ==> Left() == old(Left()) && Complete() == old(Complete()) && (done <==> off == |buf|)
      ensures !ok ==> !done && off == |buf| && old(Left()) == [] && !old(Complete())
    {
      var p := next(src, prevSig);
      if p.Bad? || |p.rest| >= |src| { return false; }
      src, prevSig := p.rest, p.sig;
      if p.data == [] {
        done := true;
      } else {
        buf, off := p.data, 0;
        JoinedStep(p.data, Decode(src, prevSig, next).chunks);
      }
      ok := true;
    }

    /** Hand out up to `max` verified bytes. */
    method Read(max: nat) returns (chunk: string, st: Status)
      requires Valid()
      modifies this
      ensures Valid() && |chunk| <= max
      ensures chunk + Left() == old(Left())
      ensures st.Fault? || Complete() == old(Complete())
      ensures st.Eof? ==> chunk == [] && Left() == [] && Complete()
      ensures st.Fault? ==> chunk == [] && Left() == [] && !old(Complete())
      ensures st.More? && max > 0 ==> chunk != []
    {
      if failed { return [], Fault; }
      if off == |buf| {
        if done { return [], Eof; }
        var ok := Advance();
        if !ok {
          failed := true;
          return [], Fault;
        }
        if done { return [], Eof; }
      }
      var n := if max < |buf| - off then max else |buf| - off;
      chunk := buf[off..off + n];
      off := off + n;
      st := More;
    }
  }

  lemma JoinedStep(data: string, chunks: seq<string>)
    ensures Joined([data] + chunks) == data + Joined(chunks)
  {
    assert ([data] + chunks)[1..] == chunks;
  }

  /** Whatever buffer sizes a consumer uses, it receives exactly the verified payload, then a
      plain end exactly when a verified zero chunk closed the body, and an error otherwise. */
  method Drain(src: string, seed: string, next: Parser) returns (data: string, st: Status)
    ensures data == Joined(Decode(src, seed, next).chunks)
    ensures st == if Decode(src, seed, next).complete then Eof else Fault
  {
    var r := new ChunkReader(src, seed, next);
    data := [];
    st := More;
    ghost var all, complete := r.Left(), r.Complete();
    while st.More?
      invariant r.Valid() && fresh(r) && data + r.Left() == all
      invariant st.More? ==> r.Complete() == complete
      invariant !st.More? ==> r.Left() == [] && (st.Eof? <==> complete)
      decreases st.More?, |r.Left()|
    {
      var max: nat :| max > 0;
      var chunk;
      chunk, st := r.Read(max);
      data := data + chunk;
    }
  }

  /** The signed-body reader, end to end. */
  method ReadBody(src: string, seed: string, sign: Signer) returns (data: string, st: Status)
    ensures data == Joined(Decode(src, seed, ParserOf(sign)).chunks)
    ensures st == if Decode(src, seed, ParserOf(sign)).complete then Eof else Fault
  {
    data, st := Drain(src, seed, ParserOf(sign));
  }
}
