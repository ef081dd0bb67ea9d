/** Compression of a whole input: the parser, block by block, into a bit stream. */
module Deflater {
  import opened Values
  import opened LzCodes
  import opened CodeBuffer
  import opened Dictionary
  import opened HashChains
  import opened Lz77
  import opened BitStream
  import opened Deflate
  import opened InflateSpec
  import opened InflateBack
  import opened Inflate
  import BlockSize
  import BlockWriter

  /** The blocks so far hold the codes handed over. */
  ghost predicate Streams(bits: seq<bool>, bs: seq<Block>, sent: seq<LzCode>, done: bool) {
    BlocksBits(0, bits, bs, done) && AllReached([], bs) && AfterAll([], bs) == Expand(sent)
  }

  /** A block of the codes, or of the bytes they expand to. */
  ghost predicate SameBytes(sent: seq<LzCode>, codes: seq<LzCode>, b: Block) {
    b == Compressed(codes) || (b.Stored? && Expand(sent) + b.bytes == Expand(sent + codes))
  }

  lemma StreamsNext(bits: seq<bool>, bs: seq<Block>, sent: seq<LzCode>, codes: seq<LzCode>, ext: seq<bool>, b: Block,
                    done: bool)
    requires Streams(bits, bs, sent, false) && Chops(|bits|, ext, |ext|, b, done)
    requires Reaches(sent + codes) && SameBytes(sent, codes, b)
    ensures Streams(bits + ext, bs + [b], sent + codes, done)
  {
    hide BlocksBits, Chops, Expand, Reaches;
    BlocksBitsNext(0, bits, bs, ext, b, done);
    AfterAllNext([], bs, b);
    ExpandParts(sent, codes);
  }

  class Deflater {
    const comp: Compressor
    const w: BitWriter
    const fixed: bool
    ghost var blocks: seq<Block>
    /** The bits of the blocks; at the end the last byte is filled up behind them. */
    ghost var bits: seq<bool>
    var finished: bool

    ghost predicate Valid()
      reads this, comp, comp.dict, comp.next, comp.hash, comp.buf, w
    {
      && comp.Valid() && w.Valid() && w.Complete() && Streams(bits, blocks, comp.sent, finished)
      && (if finished then bits <= w.Stream() && w.bitsIn == 0 else bits == w.Stream())
    }

    constructor (probes: nat, greedy: bool, rle: bool, filter: bool, raw: bool, fixed: bool, left: Leftover)
      requires probes < 4096 && left.Valid()
      ensures Valid() && comp.hist == [] && comp.codeAt == 1 && !finished && fresh(comp) && fresh(w)
      ensures fresh(comp.dict) && fresh(comp.next) && fresh(comp.hash) && fresh(comp.buf)
    {
      hide Compressor.Valid, BitsOf;
      comp := new Compressor(probes, greedy, rle, filter, raw, left);
      w := new BitWriter();
      this.fixed := fixed;
      blocks, bits := [], [];
      finished := false;
    }

    /** Writes the codes recorded so far as a block. */
    method EmitBlock(final: bool)
      requires Valid() && !finished
      modifies this, comp, comp.buf, w
      ensures Valid() && finished == final && comp.codeAt == 1 && comp.open == []
      ensures comp.hist == old(comp.hist) && comp.pos == old(comp.pos) && comp.lookaheadSize == old(comp.lookaheadSize)
      ensures comp.savedMatchLen == old(comp.savedMatchLen) && comp.sent == old(comp.sent + comp.open)
      ensures old(|w.all|) + BlockWriter.OUT_BUF_SIZE - 16 == w.end && |w.all| + 50 < w.end
    {
      hide Window, Expand, Reaches, MatchAt, Holds, AllValid, Faith, PutOff, Entered, Streams, Chops, BitsOf,
        Compressor.Valid, BitWriter.Clipped, BitWriter.Stream, FixedBits, DynamicBits, BlockWriter.Plain;
      ghost var sent, open := comp.sent, comp.open;
      comp.OpenFacts();
      comp.BufferHolds();
      BlockSize.HeldIsBuffered(comp.buf[..], comp.open, comp.codeAt, comp.flagsAt, comp.flagsLeft);
      var available, bytes := comp.RawBlock();
      var total := comp.totalLzBytes;
      var block := comp.FlushBlock();
      ghost var ext, b, tried := BlockWriter.FlushBlock(w, block, total, available, bytes, comp.raw, fixed, final);
      assert SameBytes(sent, open, b);
      StreamsNext(bits, blocks, sent, open, ext, b, final);
      blocks, bits := blocks + [b], bits + ext;
      finished := final;
      if final { BlockWriter.Finish(w); }
    }

    /** An empty stored block, so that all input so far can be decoded; it goes into the room left
        by the block before it. */
    method EmitSync()
      requires Valid() && !finished && |w.all| + 50 < w.end
      modifies this, w
      ensures Valid() && !finished && w.bitsIn == 0
    {
      hide Window, Expand, Reaches, MatchAt, Holds, AllValid, Faith, PutOff, Entered, Streams, Chops, BitsOf,
        Compressor.Valid, BitWriter.Valid, BitWriter.Stream;
      ghost var ext := BlockWriter.SyncFlush(w);
      comp.SentReaches();
      assert comp.sent + [] == comp.sent;
      assert SameBytes(comp.sent, [], Deflate.Stored([]));
      StreamsNext(bits, blocks, comp.sent, [], ext, Deflate.Stored([]), false);
      blocks, bits := blocks + [Deflate.Stored([])], bits + ext;
    }

    /** The code buffer is full, or much of the input is in it and it does not shrink. */
    ghost predicate Full()
      reads this, comp
    {
      || comp.codeAt > CODE_BUF_SIZE - 8
      || (comp.totalLzBytes > 31 * 1024 && (comp.codeAt * 115 / 128 >= comp.totalLzBytes || comp.raw))
    }

    /** Writes a block when it is time to. */
    method CutBlock() returns (cut: bool)
      requires Valid() && !finished
      modifies this, comp, comp.buf, w
      ensures Valid() && !finished && comp.codeAt <= CODE_BUF_SIZE - 8
      ensures comp.hist == old(comp.hist) && comp.pos == old(comp.pos) && comp.lookaheadSize == old(comp.lookaheadSize)
      ensures cut == old(Full()) && comp.sent + comp.open == old(comp.sent + comp.open)
      ensures if cut then comp.open == [] else comp.sent == old(comp.sent) && bits == old(bits)
    {
      hide Compressor.Valid, BitWriter.Valid, Streams;
      cut := || comp.codeAt > CODE_BUF_SIZE - 8
             || (comp.totalLzBytes > 31 * 1024 && (comp.codeAt * 115 / 128 >= comp.totalLzBytes || comp.raw));
      if cut {
        EmitBlock(false);
      }
    }

    /** Parses `src`; blocks are written as they fill up. `stalls` says after which blocks the
        output had to wait. */
    method CompressNormal(src: seq<Byte>, flush: bool, stalls: nat -> bool) returns (consumed: nat, stalled: bool)
      requires Valid() && !finished && comp.codeAt <= CODE_BUF_SIZE - 8
      modifies this, comp, comp.dict, comp.next, comp.hash, comp.buf, w
      ensures Valid() && !finished && comp.codeAt <= CODE_BUF_SIZE - 8
      ensures consumed <= |src| && comp.hist == old(comp.hist) + src[..consumed]
      ensures !stalled ==> consumed == |src|
      ensures stalled ==> (exists n: nat :: stalls(n)) && comp.pos > old(comp.pos)
      ensures old(comp.pos) <= comp.pos <= |comp.hist|
      ensures !stalled && flush ==> comp.lookaheadSize == 0 && comp.savedMatchLen == 0
    {
      hide Window, Expand, Reaches, MatchAt, Holds, AllValid, Faith, PutOff, Packed, Streams, BitsOf, Entered,
        BitWriter.Valid, BitWriter.Stream, BitWriter.Complete, Compressor.Offers, Compressor.Chosen, Compressor.Kept,
        Compressor.Valid, Full;
      consumed, stalled := 0, false;
      comp.NothingPutOff();
      ghost var h0 := comp.hist;
      while consumed < |src| || (flush && comp.lookaheadSize > 0)
        invariant Valid() && !finished && comp.codeAt <= CODE_BUF_SIZE - 8
        invariant consumed <= |src| && comp.hist == h0 + src[..consumed] && old(comp.pos) <= comp.pos <= |comp.hist|
        decreases |h0| + |src| - comp.pos
      {
        var i := consumed;
        consumed := comp.Fill(src, consumed);
        assert src[..consumed] == src[..i] + src[i..consumed];
        if !flush && comp.lookaheadSize < MAX_MATCH { break; }
        var offer := comp.ParseStep();
        var cut := CutBlock();
        if cut && stalls(comp.blockIndex) {
          stalled := true;
          return;
        }
      }
      comp.NothingPutOff();
    }

    /** Writes what is left as a block, and what the flush asks for behind it. */
    method EndCall(flush: Flush)
      requires Valid() && !finished && flush != NoFlush && comp.lookaheadSize == 0 && comp.savedMatchLen == 0
      modifies this, comp, comp.dict, comp.next, comp.hash, comp.buf, w
      ensures Valid() && comp.codeAt == 1 && finished == (flush == Finish) && comp.hist == old(comp.hist)
      ensures comp.pos == old(comp.pos)
      ensures AfterAll([], blocks) == comp.hist && w.bitsIn == 0
    {
      hide Window, Expand, Reaches, MatchAt, Holds, AllValid, Faith, PutOff, Packed, Streams, BitsOf, Entered,
        BitWriter.Valid, BitWriter.Stream;
      comp.OpenFacts();
      EmitBlock(flush == Finish);
      if flush != Finish { EmitSync(); }
      StreamsBytes(bits, blocks, comp.sent, finished);
      if flush == FullFlush { comp.ResetDictionary(); }
    }

    /** Compresses `src` after what came before. When the stream is finished, its blocks stand
        for exactly the bytes of all calls. */
    method Compress(src: seq<Byte>, flush: Flush, stalls: nat -> bool) returns (consumed: nat, stalled: bool)
      requires Valid() && !finished && comp.codeAt <= CODE_BUF_SIZE - 8
      modifies this, comp, comp.dict, comp.next, comp.hash, comp.buf, w
      ensures Valid() && comp.codeAt <= CODE_BUF_SIZE - 8 && finished == (flush == Finish && !stalled)
      ensures consumed <= |src| && comp.hist == old(comp.hist) + src[..consumed] && (!stalled ==> consumed == |src|)
      ensures stalled ==> (exists n: nat :: stalls(n)) && comp.pos > old(comp.pos)
      ensures comp.pos <= |comp.hist|
      ensures !stalled && flush != NoFlush ==> AfterAll([], blocks) == comp.hist && w.bitsIn == 0
    {
      hide Window, Expand, Reaches, MatchAt, Holds, AllValid, Faith, PutOff, Packed, Streams, BitsOf, Entered;
      consumed, stalled := CompressNormal(src, flush != NoFlush, stalls);
      if flush != NoFlush && !stalled { EndCall(flush); }
    }

    /** Calls the compressor until it has taken all of `src`: after a call that had to wait, the
        rest is given to the next one. However often it has to wait, this ends. */
    method CompressAll(src: seq<Byte>, flush: Flush, stalls: nat -> bool)
      requires Valid() && !finished && comp.codeAt <= CODE_BUF_SIZE - 8
      modifies this, comp, comp.dict, comp.next, comp.hash, comp.buf, w
      ensures Valid() && comp.codeAt <= CODE_BUF_SIZE - 8 && finished == (flush == Finish)
      ensures comp.hist == old(comp.hist) + src
      ensures flush != NoFlush ==> AfterAll([], blocks) == comp.hist && w.bitsIn == 0
    {
      hide *;
      ghost var h0 := comp.hist;
      var given, stalled := 0, true;
      while stalled
        invariant Valid() && comp.codeAt <= CODE_BUF_SIZE - 8 && finished == (flush == Finish && !stalled)
        invariant given <= |src| && comp.hist == h0 + src[..given] && (!stalled ==> given == |src|)
        invariant !stalled && flush != NoFlush ==> AfterAll([], blocks) == comp.hist && w.bitsIn == 0
        decreases stalled, |h0| + |src| - comp.pos
      {
        var consumed;
        ghost var before := given;
        consumed, stalled := Compress(src[given..], flush, stalls);
        given := given + consumed;
        assert src[..given] == src[..before] + src[before..][..consumed];
      }
      assert src[..given] == src;
    }
  }

  datatype Flush = NoFlush | SyncFlush | FullFlush | Finish

  lemma StreamsBytes(bits: seq<bool>, bs: seq<Block>, sent: seq<LzCode>, done: bool)
    requires Streams(bits, bs, sent, done)
    ensures BlocksBits(0, bits, bs, done) && AllReached([], bs) && AfterAll([], bs) == Expand(sent)
  {
  }

  /** One call of the compressor: more input, and what is to be made decodable. */
  datatype Call = Call(chunk: seq<Byte>, flush: Flush)

  ghost function Joined(calls: seq<Call>): seq<Byte> {
    if calls == [] then [] else Joined(calls[..|calls| - 1]) + calls[|calls| - 1].chunk
  }

  lemma JoinedNext(calls: seq<Call>, i: nat)
    requires i < |calls|
    ensures Joined(calls[..i + 1]) == Joined(calls[..i]) + calls[i].chunk
  {
    assert calls[..i + 1][..i] == calls[..i];
  }

  /** Compressing in any number of calls, with any flushes between them, and decompressing gives
      the input back, whatever the parameters, whatever memory held before and whenever the output
      has to wait, given that the buffer is large enough. */
  method RoundTrip(calls: seq<Call>, last: seq<Byte>, probes: nat, greedy: bool, rle: bool, filter: bool, raw: bool,
                   fixed: bool, left: Leftover, stalls: nat -> bool, out: array<Byte>)
    returns (status: Status, at: nat)
    requires probes < 4096 && left.Valid() && forall i :: 0 <= i < |calls| ==> calls[i].flush != Finish
    requires |Joined(calls)| + |last| <= out.Length
    modifies out
    ensures status == Done && at <= out.Length && out[..at] == Joined(calls) + last
  {
    hide Window, Expand, Reaches, MatchAt, Holds, AllValid, Faith, PutOff, Packed, Streams, BitsOf, Entered,
      BlocksBits, AllReached, AfterAll, Joined;
    var d := new Deflater(probes, greedy, rle, filter, raw, fixed, left);
    var i := 0;
    assert Joined(calls[..0]) == [] by { NoCalls(calls); }
    while i < |calls|
      invariant 0 <= i <= |calls| && d.Valid() && !d.finished && d.comp.codeAt <= CODE_BUF_SIZE - 8
      invariant d.comp.hist == Joined(calls[..i])
    {
      d.CompressAll(calls[i].chunk, calls[i].flush, stalls);
      JoinedNext(calls, i);
      i := i + 1;
    }
    assert calls[..i] == calls;
    d.CompressAll(last, Finish, stalls);
    StreamsBytes(d.bits, d.blocks, d.comp.sent, d.finished);
    NoBits(d.w.bitBuffer);
    ghost var mem := out[..];
    GivesBack(d.w.out, d.bits, d.blocks, mem, out.Length);
    var rest;
    status, at, rest := Decompress(d.w.out, out, out.Length);
  }

  lemma NoCalls(calls: seq<Call>)
    ensures Joined(calls[..0]) == []
  {
  }
}
