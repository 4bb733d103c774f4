/** The message a miner signs (`create_mine_transaction`, `generate_miner_signature`,
    `EIP712Utils::get_encoded_hash`): the ABI encoding of a chain id, a block nonce and the
    block's transactions. */
module MineMessage {
  import opened Words
  import opened AbiTypes
  import opened AbiEncoder
  import opened AbiLayout
  import opened AbiDecoder
  import opened AbiSoundness
  import opened AbiPlacement
  import opened AbiSpecification
  import opened AbiRoundTrip
  import opened AbiLimits

  datatype QpTransaction = QpTransaction(
    timestamp: u64,
    remoteContract: Address,
    sourceMsgSender: Address,
    sourceBeneficiary: Address,
    token: Address,
    amount: U256,
    methodData: seq<byte>,
    gas: U256,
    fixedFee: U256)

  /** `U256::from(u64)`. */
  function Wide(n: u64): U256 {
    Pow256Values();
    n
  }

  function TxToken(t: QpTransaction): Token {
    Tuple([
      Uint(Wide(t.timestamp)),
      Token.Address(t.remoteContract),
      Token.Address(t.sourceMsgSender),
      Token.Address(t.sourceBeneficiary),
      Token.Address(t.token),
      Uint(t.amount),
      Array([Bytes(t.methodData)]),
      Uint(t.gas),
      Uint(t.fixedFee)])
  }

  function TxTokens(txs: seq<QpTransaction>): (ts: seq<Token>)
    ensures |ts| == |txs|
  {
    if txs == [] then [] else [TxToken(txs[0])] + TxTokens(txs[1..])
  }

  /** The tokens whose encoding is hashed as the message. */
  function Message(chain: u64, nonce: u64, txs: seq<QpTransaction>): seq<Token> {
    [Uint(Wide(chain)), Uint(Wide(nonce)), Array(TxTokens(txs))]
  }

  const UINT: ParamKind := UintKind(256)
  const METHODS: ParamKind := ArrayKind(BytesKind)
  const TX_KINDS: seq<ParamKind> :=
    [UINT, AddressKind, AddressKind, AddressKind, AddressKind, UINT, METHODS, UINT, UINT]
  const TX_KIND: ParamKind := TupleKind(TX_KINDS)
  const MESSAGE_KINDS: seq<ParamKind> := [UINT, UINT, ArrayKind(TX_KIND)]

  lemma TxTokenExact(t: QpTransaction)
    ensures Exact(TxToken(t), TX_KIND)
  {
    hide ExactAll;
    var ts := TxToken(t).items;
    MethodExact(t.methodData);
    assert forall i :: 0 <= i < 9 && i != 6 ==> Exact(ts[i], TX_KINDS[i]);
    ExactAllPointwise(ts, TX_KINDS);
  }

  lemma MethodExact(b: seq<byte>)
    ensures Exact(Array([Bytes(b)]), METHODS) && LengthsFit(Array([Bytes(b)]))
  {
    assert Repeat(BytesKind, 1) == [BytesKind];
    ExactAllPointwise([Bytes(b)], [BytesKind]);
    LengthsFitPointwise([Bytes(b)]);
  }

  lemma {:induction false} TxTokensAt(txs: seq<QpTransaction>, i: nat)
    requires i < |txs|
    ensures TxTokens(txs)[i] == TxToken(txs[i])
  {
    if i == 0 {
    } else {
      TxTokensAt(txs[1..], i - 1);
    }
  }

  lemma TxTokensExact(txs: seq<QpTransaction>)
    ensures ExactAll(TxTokens(txs), Repeat(TX_KIND, |txs|))
  {
    hide Exact, TxToken, Repeat;
    var ts, ks := TxTokens(txs), Repeat(TX_KIND, |txs|);
    forall i | 0 <= i < |ts|
      ensures Exact(ts[i], ks[i])
    {
      TxTokensAt(txs, i);
      TxTokenExact(txs[i]);
      assert ks[i] in ks;
    }
    ExactAllPointwise(ts, ks);
  }

  lemma MessageExact(chain: u64, nonce: u64, txs: seq<QpTransaction>)
    ensures ExactAll(Message(chain, nonce, txs), MESSAGE_KINDS)
  {
    hide ExactAll, TX_KIND;
    TxTokensExact(txs);
    ExactAllPointwise(Message(chain, nonce, txs), MESSAGE_KINDS);
  }

  lemma {:induction false} TxTokensLengthsFit(txs: seq<QpTransaction>)
    ensures LengthsFitAll(TxTokens(txs))
  {
    if txs == [] {
    } else {
      var ts := TxToken(txs[0]).items;
      assert LengthsFitAll(ts) by {
        hide LengthsFitAll;
        MethodExact(txs[0].methodData);
        LengthsFitPointwise(ts);
      }
      TxTokensLengthsFit(txs[1..]);
      assert TxTokens(txs)[1..] == TxTokens(txs[1..]);
    }
  }

  /** Every transaction takes a word of its own, so a block that fits has fewer than 2^32
      of them. */
  lemma {:induction false} TxHeads(txs: seq<QpTransaction>)
    ensures |FlatHeads(EncodeTokens(TxTokens(txs)))| == |txs|
  {
    if txs == [] {
    } else {
      var ts := TxToken(txs[0]).items;
      assert ts[6].IsDynamic();
      DynamicMember(ts, 6);
      EncodeTokensCons(TxTokens(txs));
      TxHeads(txs[1..]);
    }
  }

  lemma {:induction false} DynamicMember(ts: seq<Token>, i: nat)
    requires i < |ts| && ts[i].IsDynamic()
    ensures AnyDynamic(ts)
  {
    if i == 0 {
    } else {
      DynamicMember(ts[1..], i - 1);
    }
  }

  lemma {:induction false} TailFits(ms: seq<Mediate>, i: nat)
    requires i < |ms|
    ensures |Tail(ms[i])| <= |EncodeHeadTail(ms)|
  {
    hide Tail, Heads, FlatHeads;
    FlatHeadsSplit(ms, i);
    assert Tails(ms[i..]) == Tail(ms[i]) + Tails(ms[i..][1..]);
  }

  lemma TransactionsFit(chain: u64, nonce: u64, txs: seq<QpTransaction>)
    requires |Encode(Message(chain, nonce, txs))| < TWO_32
    ensures |txs| < TWO_32
  {
    hide EncodeHeadTail, HeadsLen, TxTokens, Flatten;
    var ts, ms := Message(chain, nonce, txs), EncodeTokens(TxTokens(txs));
    EncodeTokensCons(ts);
    EncodeTokensCons(ts[1..]);
    EncodeTokensCons(ts[1..][1..]);
    assert EncodeTokens(ts)[2] == PrefixedArrayWithLength(ms);
    TailFits(EncodeTokens(ts), 2);
    BlockHoldsHeads(ms);
    TxHeads(txs);
  }

  lemma BlockHoldsHeads(ms: seq<Mediate>)
    ensures |FlatHeads(ms)| <= |EncodeHeadTail(ms)|
  {
    HeadsSize(ms, HeadsLen(ms));
  }

  lemma MessageLengthsFit(chain: u64, nonce: u64, txs: seq<QpTransaction>)
    requires |Encode(Message(chain, nonce, txs))| < TWO_32
    ensures LengthsFitAll(Message(chain, nonce, txs))
  {
    hide LengthsFitAll, Encode;
    TransactionsFit(chain, nonce, txs);
    TxTokensLengthsFit(txs);
    LengthsFitPointwise(Message(chain, nonce, txs));
  }

  lemma KindsAreRegular()
    ensures forall k :: k in MESSAGE_KINDS ==> NoEmptyDynamicArray(k) && OneWordKind(k)
  {
    assert TX_KINDS[6].IsDynamic();
    DynamicKindMember(TX_KINDS, 6);
    assert OneWordKind(METHODS) && NoEmptyDynamicArray(METHODS);
    assert OneWordKind(TX_KIND) && NoEmptyDynamicArray(TX_KIND);
  }

  lemma {:induction false} DynamicKindMember(ks: seq<ParamKind>, i: nat)
    requires i < |ks| && ks[i].IsDynamic()
    ensures AnyDynamicKind(ks)
  {
    if i == 0 {
    } else {
      DynamicKindMember(ks[1..], i - 1);
    }
  }

  lemma MessageRegular(chain: u64, nonce: u64, txs: seq<QpTransaction>)
    requires |Encode(Message(chain, nonce, txs))| < TWO_32
    ensures ExactAll(Message(chain, nonce, txs), MESSAGE_KINDS)
    ensures SameDynamicsAll(Message(chain, nonce, txs), MESSAGE_KINDS)
    ensures WithinLimits(Message(chain, nonce, txs))
  {
    hide *;
    MessageExact(chain, nonce, txs);
    MessageLengthsFit(chain, nonce, txs);
    KindsAreRegular();
    RoundTripByKind(Message(chain, nonce, txs), MESSAGE_KINDS);
  }

  lemma {:induction false} TxTokensInjective(a: seq<QpTransaction>, b: seq<QpTransaction>)
    requires TxTokens(a) == TxTokens(b)
    ensures a == b
  {
    assert |a| == |TxTokens(a)| == |TxTokens(b)| == |b|;
    forall i | 0 <= i < |a|
      ensures a[i] == b[i]
    {
      TxTokensAt(a, i);
      TxTokensAt(b, i);
      TxTokenInjective(a[i], b[i]);
    }
  }

  lemma TxTokenInjective(a: QpTransaction, b: QpTransaction)
    requires TxToken(a) == TxToken(b)
    ensures a == b
  {
    var s, t := TxToken(a).items, TxToken(b).items;
    assert s[0] == t[0] && s[1] == t[1] && s[2] == t[2] && s[3] == t[3] && s[4] == t[4];
    assert s[5] == t[5] && s[6].items[0] == t[6].items[0] && s[7] == t[7] && s[8] == t[8];
  }

  /** The signed pre-image determines the block: the same bytes mean the same chain id, the
      same nonce and the same transactions in the same order. */
  lemma MessageDeterminesBlock(chain: u64, nonce: u64, txs: seq<QpTransaction>,
                               chain': u64, nonce': u64, txs': seq<QpTransaction>)
    requires Encode(Message(chain, nonce, txs)) == Encode(Message(chain', nonce', txs'))
    requires |Encode(Message(chain, nonce, txs))| < TWO_32
    ensures chain == chain' && nonce == nonce' && txs == txs'
  {
    hide Encode, EncodeWords, ExactAll, SameDynamicsAll, WithinLimits;
    var a, b := Message(chain, nonce, txs), Message(chain', nonce', txs');
    MessageRegular(chain, nonce, txs);
    MessageRegular(chain', nonce', txs');
    EncodeInjective(a, b, MESSAGE_KINDS);
    assert a[0] == b[0] && a[1] == b[1] && a[2] == b[2];
    TxTokensInjective(txs, txs');
  }

  // ---------- what the message says ----------

  /** A decoded tuple holds the fields of a transaction, each at its position. */
  predicate HoldsTx(t: Token, tx: QpTransaction) {
    && t.Tuple? && |t.items| == 9
    && t.items[0] == Uint(Wide(tx.timestamp))
    && t.items[1] == Token.Address(tx.remoteContract)
    && t.items[2] == Token.Address(tx.sourceMsgSender)
    && t.items[3] == Token.Address(tx.sourceBeneficiary)
    && t.items[4] == Token.Address(tx.token)
    && t.items[5] == Uint(tx.amount)
    && t.items[6] == Array([Bytes(tx.methodData)])
    && t.items[7] == Uint(tx.gas)
    && t.items[8] == Uint(tx.fixedFee)
  }

  predicate HoldsBlock(ts: seq<Token>, chain: u64, nonce: u64, txs: seq<QpTransaction>) {
    && |ts| == 3 && ts[0] == Uint(Wide(chain)) && ts[1] == Uint(Wide(nonce))
    && ts[2].Array? && |ts[2].items| == |txs|
    && forall i :: 0 <= i < |txs| ==> HoldsTx(ts[2].items[i], txs[i])
  }

  lemma TokenHolds(tx: QpTransaction)
    ensures HoldsTx(TxToken(tx), tx)
  {
  }

  lemma MessageHolds(chain: u64, nonce: u64, txs: seq<QpTransaction>)
    ensures HoldsBlock(Message(chain, nonce, txs), chain, nonce, txs)
  {
    hide HoldsTx, TxToken, TxTokens;
    forall i | 0 <= i < |txs|
      ensures HoldsTx(TxTokens(txs)[i], txs[i])
    {
      TxTokensAt(txs, i);
      TokenHolds(txs[i]);
    }
  }

  /** Whoever decodes the signed pre-image reads the chain id, the nonce and every field of
      every transaction at its position; and the pre-image is the specified encoding of them. */
  lemma MessageReads(chain: u64, nonce: u64, txs: seq<QpTransaction>)
    requires |Encode(Message(chain, nonce, txs))| < TWO_32
    ensures var r := Decode(MESSAGE_KINDS, Encode(Message(chain, nonce, txs)));
            r.Ok? && HoldsBlock(r.value, chain, nonce, txs)
    ensures Encode(Message(chain, nonce, txs)) == Flatten(EncBlock(Message(chain, nonce, txs)))
  {
    hide Encode, EncodeWords, ExactAll, SameDynamicsAll, HoldsBlock, Message, Decode, EncBlock;
    var ts := Message(chain, nonce, txs);
    MessageHolds(chain, nonce, txs);
    MessageRegular(chain, nonce, txs);
    MessageStart(chain, nonce, txs);
    RoundTrip(ts, MESSAGE_KINDS);
    MeetsSpecificationIff(ts);
  }

  /** The pre-image starts with the chain id and then the nonce, for blocks of any size. */
  lemma MessageStart(chain: u64, nonce: u64, txs: seq<QpTransaction>)
    ensures var data := Encode(Message(chain, nonce, txs));
            |data| >= 64 && data[..32] == BigEndian(chain, 32) && data[32..64] == BigEndian(nonce, 32)
  {
    hide EncodeWords, TxTokens, BigEndian;
    var ts := Message(chain, nonce, txs);
    var ws := EncodeWords(ts);
    StaticInBlock(ts, 0);
    StaticInBlock(ts, 1);
    assert ts[..0] == [] && ts[..1] == [ts[0]] && ts[..1][1..] == [];
    assert HeadWords(ts[..1]) == 1 + HeadWords(ts[..1][1..]);
    assert ws[0] == ws[0..1][0] && ws[1] == ws[1..2][0];
    assert Flatten(ws) == ws[0] + (ws[1] + Flatten(ws[1..][1..]));
  }
}
