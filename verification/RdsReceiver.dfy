/** The receiver of the tuner: symbol decoders and block stream together. */
module RdsReceivers {
  import opened BlockStreams
  import opened EndToEnd
  import opened Subcarrier
  import opened SyncMachine

  class RdsReceiver {
    const biphaseDecoder: BiphaseDecoder
    const deltaDecoder: DeltaDecoder
    const decoder: RdsDecoder

    ghost predicate Valid()
      reads biphaseDecoder, biphaseDecoder.clockHistory, decoder, decoder.blockStream,
            decoder.blockStream.blockErrorSum50, decoder.blockStream.blockErrorSum50.history,
            decoder.blockStream.syncBuffer.pulses
    {
      biphaseDecoder.Valid() && decoder.Valid()
    }

    constructor ()
      ensures Valid() && fresh(biphaseDecoder) && fresh(deltaDecoder) && fresh(decoder)
      ensures biphaseDecoder.State() == FRESH && !deltaDecoder.prevInput
      ensures decoder.blockStream.link == Fresh(true)
    {
      biphaseDecoder := new BiphaseDecoder();
      deltaDecoder := new DeltaDecoder();
      decoder := new RdsDecoder();
    }

    /** On a retune the block stream is renewed; the symbol decoders go on from where they were. */
    method Reset()
      requires Valid()
      modifies decoder
      ensures Valid() && decoder.blockStream.link == Fresh(true)
      ensures biphaseDecoder.State() == old(biphaseDecoder.State())
      ensures deltaDecoder.prevInput == old(deltaDecoder.prevInput)
    {
      decoder.Reset();
    }

    /** The bits of a chunk of symbols. */
    method ChunkToBits(symbols: seq<real>) returns (bits: seq<bool>)
      requires biphaseDecoder.Valid()
      modifies biphaseDecoder, biphaseDecoder.clockHistory, deltaDecoder
      ensures biphaseDecoder.Valid()
      ensures biphaseDecoder.State() == Run(old(biphaseDecoder.State()), symbols)
      ensures bits == DecodedBits(old(biphaseDecoder.State()), old(deltaDecoder.prevInput), symbols)
      ensures deltaDecoder.prevInput ==
              LastBit(old(deltaDecoder.prevInput), Values(old(biphaseDecoder.State()), symbols))
    {
      hide Next, Output;
      ghost var s, b := biphaseDecoder.State(), deltaDecoder.prevInput;
      bits := [];
      for i := 0 to |symbols|
        invariant biphaseDecoder.Valid() && biphaseDecoder.State() == Run(s, symbols[..i])
        invariant bits == DecodedBits(s, b, symbols[..i])
        invariant deltaDecoder.prevInput == LastBit(b, Values(s, symbols[..i]))
      {
        assert symbols[..i + 1][..i] == symbols[..i];
        ghost var before := Values(s, symbols[..i]);
        var hasValue, value := biphaseDecoder.Push(symbols[i]);
        if hasValue {
          assert Values(s, symbols[..i + 1]) == before + [value];
          DeltaConcat(b, before, [value]);
          var bit := deltaDecoder.Decode(value);
          bits := bits + [bit];
        } else {
          assert Values(s, symbols[..i + 1]) == before;
        }
      }
      assert symbols[..|symbols|] == symbols;
    }

    /** The groups that a chunk of symbols completes. */
    method Process(symbols: seq<real>) returns (emitted: seq<RdsGroup>)
      requires Valid()
      modifies biphaseDecoder, biphaseDecoder.clockHistory, deltaDecoder, decoder.blockStream,
               decoder.blockStream.blockErrorSum50, decoder.blockStream.blockErrorSum50.history,
               decoder.blockStream.syncBuffer.pulses
      ensures Valid()
      ensures biphaseDecoder.State() == Run(old(biphaseDecoder.State()), symbols)
      ensures deltaDecoder.prevInput ==
              LastBit(old(deltaDecoder.prevInput), Values(old(biphaseDecoder.State()), symbols))
      ensures var bits := DecodedBits(old(biphaseDecoder.State()), old(deltaDecoder.prevInput), symbols);
              var r := Receive(old(decoder.blockStream.link), bits);
              decoder.blockStream.link == r.link && emitted == DeliverAll(r.groups)
    {
      hide DecodedBits, Run, Values, Receive;
      var bits := ChunkToBits(symbols);
      emitted := decoder.EmitGroups(bits);
    }
  }
}
