/** The AES engine fed by the DMA controller: an operation on the message that the selected
    transmit channel's descriptor chain holds. */
module AesDma {
  import opened GuestMemory
  import opened GdmaChain
  import opened Gdma
  import opened Options
  import AesEngine

  /** The channel that serves a peripheral, or the number of channels if none runs. */
  function FirstSelected(channels: seq<Channel>, id: nat): (i: nat)
    ensures i <= |channels| && (i < |channels| ==> Selected(channels[i], id))
    ensures forall k :: 0 <= k < i ==> !Selected(channels[k], id)
  {
    if channels == [] then 0
    else
      var i := FirstSelected(channels[..|channels| - 1], id);
      if i < |channels| - 1 || Selected(channels[i], id) then i else i + 1
  }

  /** The channel's descriptors, from its link on, hold exactly this message. */
  ghost predicate Delivers(m: Mem, c: Channel, start: nat, message: seq<bv8>) {
    exists n: nat ::
      && n <= DESC_LIMIT && Chain(ReaderOf(EnvOf(c.conf)), Walk(m, c.cursor, c.trail), start, n)
      && ChainData(ReaderOf(EnvOf(c.conf)), Walk(m, c.cursor, c.trail), start, n) == message
  }

  /** A fixed-length read succeeds exactly on a message of that length, and delivers it. */
  lemma ReadsMessage(m: Mem, c: Channel, start: nat, length: nat)
    requires length > 0
    ensures var got := ReadFixed(ReaderOf(EnvOf(c.conf)), start, SideOf(m, c), length);
            && (got.ok ==> |got.data| == length && Delivers(m, c, start, got.data))
            && (forall message :: |message| == length && Delivers(m, c, start, message) ==>
                  got.ok && got.data == message)
  {
    var env, w := EnvOf(c.conf), Walk(m, c.cursor, c.trail);
    var r := ReaderOf(env);
    ReaderNonEmpty(env);
    if Fixed(r, w, start, length, DESC_LIMIT).ok {
      var n := FixedReadsChain(r, w, start, length, DESC_LIMIT);
    }
    forall message | |message| == length && Delivers(m, c, start, message)
      ensures Fixed(r, w, start, length, DESC_LIMIT).ok && Fixed(r, w, start, length, DESC_LIMIT).data == message
    {
      var n: nat :| n <= DESC_LIMIT && Chain(r, w, start, n) && ChainData(r, w, start, n) == message;
      ChainIsRead(r, w, start, n, DESC_LIMIT);
    }
  }

  /** The message that the channel serving the peripheral would deliver. */
  ghost predicate Offered(m: Mem, channels: seq<Channel>, prefix: nat, id: nat, message: seq<bv8>) {
    var i := FirstSelected(channels, id);
    i < |channels| && Delivers(m, channels[i], prefix + channels[i].tx.link, message)
  }

  lemma FirstSelectedIs(channels: seq<Channel>, id: nat, i: nat)
    requires i <= |channels| && (i < |channels| ==> Selected(channels[i], id))
    requires forall k :: 0 <= k < i ==> !Selected(channels[k], id)
    ensures FirstSelected(channels, id) == i
  {
  }

  /** What a fixed-length read of the channel that serves the peripheral says about its message. */
  lemma Offers(m: Mem, channels: seq<Channel>, prefix: nat, id: nat, i: nat, length: nat)
    requires length > 0 && i <= |channels| && (i < |channels| ==> Selected(channels[i], id))
    requires forall k :: 0 <= k < i ==> !Selected(channels[k], id)
    ensures i == |channels| ==> forall x :: !Offered(m, channels, prefix, id, x)
    ensures i < |channels| ==>
            var c := channels[i];
            var got := ReadFixed(ReaderOf(EnvOf(c.conf)), prefix + c.tx.link, SideOf(m, c), length);
            && (got.ok ==> |got.data| == length && Offered(m, channels, prefix, id, got.data))
            && (!got.ok ==> forall x :: |x| == length ==> !Offered(m, channels, prefix, id, x))
  {
    FirstSelectedIs(channels, id, i);
    if i < |channels| {
      ReadsMessage(m, channels[i], prefix + channels[i].tx.link, length);
    }
  }

  method TakeMessage(dma: Controller, id: nat, length: nat) returns (input: Option<seq<bv8>>)
    requires dma.Valid() && length > 0
    modifies dma
    ensures dma.Valid()
    ensures input.Some? ==>
              |input.value| == length && Offered(old(dma.mem), old(dma.channels), dma.prefix, id, input.value)
    ensures input.None? ==>
              forall x :: |x| == length ==> !Offered(old(dma.mem), old(dma.channels), dma.prefix, id, x)
  {
    ghost var m, channels := dma.mem, dma.channels;
    var ok, data;
    ghost var i;
    ok, data, i := dma.ReadTx(id, length);
    Offers(m, channels, dma.prefix, id, i, length);
    input := if ok then Some(data) else None;
  }

  /** What an operation leaves in the registers. */
  ghost function RegsAfter(r: AesEngine.Regs, message: seq<bv8>): AesEngine.Regs
    requires AesEngine.RegsOk(r) && AesEngine.KeySize(r.mode) <= 2 && r.blockMode <= 5 && |message| == 16 * r.blockNum
  {
    r.(iv := AesEngine.IvAfter(r, AesEngine.Transformed(r, message)))
  }

  /** One operation; `written` is whether the receive channel took the output. It succeeds exactly
      when the registers are accepted, the output is taken, and the chain of the channel that
      serves the engine holds 16 bytes per block; the output is then the transformed message. */
  method Operate(engine: AesEngine.Engine, dma: Controller, id: nat, written: bool)
    returns (success: bool, output: seq<bv8>, ghost message: seq<bv8>)
    requires AesEngine.RegsOk(engine.regs) && dma.Valid()
    modifies engine, dma
    ensures dma.Valid() && success == (old(AesEngine.Accepts(engine.regs, engine.target)) && written && message != [])
    ensures message != [] ==>
              && |message| == 16 * old(engine.regs).blockNum
              && Offered(old(dma.mem), old(dma.channels), dma.prefix, id, message)
    ensures old(AesEngine.Accepts(engine.regs, engine.target)) && message == [] ==>
              forall x :: |x| == 16 * old(engine.regs).blockNum ==>
                            !Offered(old(dma.mem), old(dma.channels), dma.prefix, id, x)
    ensures success ==>
              && output == AesEngine.Transformed(old(engine.regs), message).text
              && engine.regs == RegsAfter(old(engine.regs), message)
    ensures !success ==> engine.regs == old(engine.regs)
  {
    var input := None;
    if AesEngine.Accepts(engine.regs, engine.target) {
      input := TakeMessage(dma, id, 16 * engine.regs.blockNum);
    }
    message := if input.Some? then input.value else [];
    success, output := engine.TransformDma(input, written);
  }
}
