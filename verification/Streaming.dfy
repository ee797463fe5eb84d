/** Positions never leave their bar, repeated reads deliver a bar in order, and all readers of bar 2 agree. */
module Streaming {
  import opened Layout
  import opened Transfer
  import opened Chunking
  import opened BlockLaws
  import opened StructPath
  import opened Clients

  /** Whatever happens during a call, the position stays within the accepted range, and it does not move when
      the request is refused. */
  lemma PositionConfined(b: Bars, pos: FilePos, count: Count, data: seq<Word>, at: nat, e: CallEnv)
    requires at + count / 4 <= |data| == |e.words|
    ensures var r := Decode(count, pos);
            var p, q := BlockWrite(b, pos, count, data, at, e).pos, BlockRead(pos, count, at, e).pos;
            && (r.Refused? ==> p == q == pos)
            && (r.Accepted? ==>
                  var base := r.bar.Number() * BAR_SPAN;
                  && base <= pos <= p <= base + 4 * r.bar.Words() && p - pos <= count
                  && base <= pos <= q <= base + 4 * r.bar.Words() && q - pos <= count)
  {
    hide Decode;
  }

  function Unhindered(n: nat): seq<WordEnv> { seq(n, _ => WordEnv(true, Sampled(false))) }

  datatype Drained = Drained(values: seq<Word>, calls: nat, pos: FilePos)

  /** Reading pieces of n words until a call returns no more data. */
  function Drain(b: Bars, pos: FilePos, n: nat): Drained
    requires 4 * n < MAX_POS
    decreases MAX_POS - pos
  {
    var r := BlockRead(pos, 4 * n, 0, Open(Unhindered(n)));
    if r.ret <= 0 then Drained([], 0, pos)
    else
      var rest := Drain(b, r.pos, n);
      Drained(ReadValues(b, pos, 4 * n, 0, Open(Unhindered(n))) + rest.values, 1 + rest.calls, rest.pos)
  }

  /** One call on bar 2. */
  lemma DmaPiece(b: Bars, w: nat, n: nat)
    requires w <= DMA_WORDS && 4 * n < MAX_POS
    ensures var m := Min(n, DMA_WORDS - w);
            && BlockRead(Encode(2, 4 * w), 4 * n, 0, Open(Unhindered(n))) == Read(m, Encode(2, 4 * (w + m)), 4 * m)
            && ReadValues(b, Encode(2, 4 * w), 4 * n, 0, Open(Unhindered(n))) == b.dma[w..w + m]
  {
    assert Decode(4 * n, Encode(2, 4 * w)) == Accepted(DmaBar, w, Min(n, DMA_WORDS - w));
    hide Decode, Encode;
    ReadStopsAtBroken(DmaBar, w, Unhindered(n), 0, Min(n, DMA_WORDS - w));
  }

  /** calls is the quotient of left by n, rounded up. */
  predicate IsCeiling(calls: nat, left: nat, n: nat) { left <= calls * n < left + n }

  lemma CeilingOfNothing(n: nat)
    requires n > 0
    ensures IsCeiling(0, 0, n)
  {
  }

  lemma CeilingStep(rest: nat, left: nat, n: nat)
    requires n > 0 && left > 0 && IsCeiling(rest, left - Min(n, left), n) && (left <= n ==> rest == 0)
    ensures IsCeiling(1 + rest, left, n)
  {
    assert (1 + rest) * n == n + rest * n;
  }

  lemma DrainStep(b: Bars, w: nat, n: nat)
    requires w < DMA_WORDS && 0 < n && 4 * n < MAX_POS
    ensures var m := Min(n, DMA_WORDS - w);
            var rest := Drain(b, Encode(2, 4 * (w + m)), n);
            Drain(b, Encode(2, 4 * w), n) == Drained(b.dma[w..w + m] + rest.values, 1 + rest.calls, rest.pos)
  {
    hide Encode, BlockRead, ReadValues;
    DmaPiece(b, w, n);
  }

  /** The words from w to the end of bar 2 in order, in the number of calls it takes, up to the end of the bar. */
  predicate DeliversRest(d: Drained, b: Bars, w: nat, n: nat)
    requires w <= DMA_WORDS
  {
    && d.values == b.dma[w..] && d.pos == Encode(2, DMA_SIZE)
    && IsCeiling(d.calls, DMA_WORDS - w, n) && (w == DMA_WORDS ==> d.calls == 0)
  }

  lemma DeliversCons(rest: Drained, b: Bars, w: nat, n: nat)
    requires w < DMA_WORDS && 0 < n && DeliversRest(rest, b, w + Min(n, DMA_WORDS - w), n)
    ensures DeliversRest(Drained(b.dma[w..w + Min(n, DMA_WORDS - w)] + rest.values, 1 + rest.calls, rest.pos), b, w, n)
  {
    hide Encode, IsCeiling;
    CeilingStep(rest.calls, DMA_WORDS - w, n);
  }

  lemma DrainAtEnd(b: Bars, n: nat)
    requires 0 < n && 4 * n < MAX_POS
    ensures DeliversRest(Drain(b, Encode(2, DMA_SIZE), n), b, DMA_WORDS, n)
  {
    hide Encode, BlockRead, ReadValues;
    DmaPiece(b, DMA_WORDS, n);
    CeilingOfNothing(n);
  }

  /** Whatever the piece size. */
  lemma {:induction false} DrainDeliversTheBar(b: Bars, w: nat, n: nat)
    requires w <= DMA_WORDS && 0 < n && 4 * n < MAX_POS
    ensures DeliversRest(Drain(b, Encode(2, 4 * w), n), b, w, n)
    decreases DMA_WORDS - w
  {
    hide Encode, Drain, DeliversRest;
    if w == DMA_WORDS {
      DrainAtEnd(b, n);
    } else {
      DrainStep(b, w, n);
      DrainDeliversTheBar(b, w + Min(n, DMA_WORDS - w), n);
      DeliversCons(Drain(b, Encode(2, 4 * (w + Min(n, DMA_WORDS - w))), n), b, w, n);
    }
  }

  lemma BulkReaders(b: Bars, w: nat, n: nat)
    requires 0 < n && w + n <= DMA_WORDS
    ensures StructDma(b, 4 * w, 4 * n, true) == Bulk(4 * n, Bytes(b.dma[w..w + n]))
    ensures IoctlDma(b, 4 * w, 4 * n, true) == Bulk(0, Bytes(b.dma[w..w + n]))
  {
    hide Bytes;
    BytesOfSlice(b.dma, w, w + n);
    assert 4 * w / 4 == w && 4 * w % 4 == 0;
  }

  lemma AreaReaders(b: Bars, slotNr: Word, w: nat, spi: seq<bool>)
    requires 0 < |spi| && w + |spi| <= DMA_WORDS
    ensures NormalReadArea(b, 4 * w, 2, BlockCall(false, spi)) == Filled(b.dma[w..w + |spi|], false)
    ensures StructReadArea(b, slotNr, 4 * w, 2, StructCalls(false, spi), 0) == Filled(b.dma[w..w + |spi|], false)
  {
    hide NormalReadArea, StructReadArea, StructCalls, ReadRange;
    ReadPathsAgree(b, slotNr, 4 * w, 2, false, spi);
    NormalReadLoop(b, 4 * w, 2, spi);
    assert Locate(2, 4 * w) == Good(DmaBar, w);
    ReadStopsAtBroken(DmaBar, w, BlockCall(false, spi).words, 0, |spi|);
  }

  /** For whole words inside the bar, both bulk readers, the block read and the word-by-word reads deliver the
      same bytes. */
  lemma AllReadersAgree(b: Bars, slotNr: Word, w: nat, spi: seq<bool>)
    requires 0 < |spi| && w + |spi| <= DMA_WORDS
    ensures var bytes := Bytes(b.dma[w..w + |spi|]);
            && StructDma(b, 4 * w, 4 * |spi|, true) == Bulk(4 * |spi|, bytes)
            && IoctlDma(b, 4 * w, 4 * |spi|, true) == Bulk(0, bytes)
            && Bytes(NormalReadArea(b, 4 * w, 2, BlockCall(false, spi)).values) == bytes
            && Bytes(StructReadArea(b, slotNr, 4 * w, 2, StructCalls(false, spi), 0).values) == bytes
  {
    hide Bytes, NormalReadArea, StructReadArea, BlockCall, StructCalls, StructDma, IoctlDma;
    BulkReaders(b, w, |spi|);
    AreaReaders(b, slotNr, w, spi);
  }
}
