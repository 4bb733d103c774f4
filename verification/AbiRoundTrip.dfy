/** Decoding what was encoded gives the tokens back. */
module AbiRoundTrip {
  import opened Words
  import opened AbiTypes
  import opened AbiEncoder
  import opened AbiLayout
  import opened AbiDecoder
  import opened AbiSoundness
  import opened AbiPlacement
  import opened AbiSpecification
  import opened AbiReading
  import opened AbiInterop

  ghost predicate RoundTrips(ts: seq<Token>, ks: seq<ParamKind>) {
    Decode(ks, Encode(ts)) == Ok(ts)
  }

  /** The static tuples balance, and array lengths and the encoding fit `u32`. */
  ghost predicate WithinLimits(ts: seq<Token>) {
    BalancedBlock(EncodeTokens(ts)) && LengthsFitAll(ts) && |Encode(ts)| < TWO_32
  }

  /** Round trip. Within the limits, and where tokens and kinds agree on what is dynamic,
      decoding the encoding gives the tokens back, so no slice is out of range; and
      whatever comes back from any encoding was exactly typed. An empty encoding must be
      one that the kinds allow. */
  lemma RoundTrip(ts: seq<Token>, ks: seq<ParamKind>)
    ensures ExactAll(ts, ks) && SameDynamicsAll(ts, ks) && WithinLimits(ts) ==>
              (RoundTrips(ts, ks) <==> Encode(ts) != [] || AllAllowEmpty(ks))
    ensures RoundTrips(ts, ks) ==> ExactAll(ts, ks) && (Encode(ts) != [] || AllAllowEmpty(ks))
  {
    if ExactAll(ts, ks) && SameDynamicsAll(ts, ks) && WithinLimits(ts) {
      AsSpecified(ts);
      ReadsSpecification(ts, ks);
    }
    if RoundTrips(ts, ks) {
      DecodeSound(ks, Encode(ts));
    }
  }

  /** Within the limits the encoder follows the specification. */
  lemma AsSpecified(ts: seq<Token>)
    requires WithinLimits(ts)
    ensures EncodeWords(ts) == EncBlock(ts)
  {
    hide BalancedBlock, LengthsFitAll, EncBlock, EncodeWords;
    MeetsSpecificationIff(ts);
    ChunksOfFlatten(EncodeWords(ts));
    ChunksOfFlatten(EncBlock(ts));
  }

  /** Exactly typed tokens within those limits are determined by their bytes. */
  lemma EncodeInjective(ts: seq<Token>, us: seq<Token>, ks: seq<ParamKind>)
    requires ExactAll(ts, ks) && SameDynamicsAll(ts, ks) && WithinLimits(ts)
    requires ExactAll(us, ks) && SameDynamicsAll(us, ks) && WithinLimits(us)
    requires Encode(ts) == Encode(us)
    ensures ts == us
  {
    hide ExactAll, SameDynamicsAll, LengthsFitAll, BalancedBlock, EncodeWords, EncBlock, DecodeEach, StandEach;
    var ws := EncodeWords(ts);
    ChunksOfFlatten(ws);
    ChunksOfFlatten(EncodeWords(us));
    AsSpecified(ts);
    AsSpecified(us);
    assert ws[0..] == ws && At(ws, 0, ws);
    BlockStands(ts, ks, ws, 0);
    BlockStands(us, ks, ws, 0);
    DecodesEachIff(ks, ws, 0, ts);
    DecodesEachIff(ks, ws, 0, us);
  }
}
