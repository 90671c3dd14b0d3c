/** The payout round of an authority node (authorityDaemon.js:532-930) as
    functions: the pending proposal a node answers with, the outputs it may
    spend, the fields of an approval request and the checks an approval
    passes before the node signs. The loops that compute them and the
    writes that follow are the methods of `Node.AuthorityNode`. */
module Approval {

  import opened Results
  import opened Decimal
  import opened Database
  import opened Accounting
  import Js
  import Dicts
  import Dingo
  import Sorting
  import TimedMessage
  import Handlers

  const NON_EXISTENT_UTXO: string := "Non-existent UTXO"
  const SEPARATOR: char := '|'
  const PROCESS_DEPOSITS: string := "processDeposits"
  const PROCESS_WITHDRAWALS: string := "processWithdrawals"

  // ---------------------------------------------------------------------
  // computePendingPayouts (authorityDaemon.js:532-600)

  /** JavaScript truthiness, as `if (processDeposits)` reads a flag. */
  predicate Truthy(v: Js.Value) {
    match v
    case Undefined => false
    case Null => false
    case Bool(b) => b
    case Num(n) => n != 0
    case Str(s) => s != ""
    case _ => true
  }

  /** `validateTimedAndSignedMessageOne(x, walletAddresses)`, keeping the data. */
  function ValidatedOne(x: Js.Value, walletAddresses: seq<string>, env: Handlers.Envelope): Result<Js.Value> {
    TimedMessage.ValidateTimedOne(x, walletAddresses, true, env.blocks, env.syncDelay, env.hashOf, env.stringify, env.verify)
  }

  /** The `/computePendingPayouts` answer: a request signed by one of the
      nodes, then the pending payouts for the flags it sets. */
  function PendingProposal(request: Js.Value, wallets: seq<string>, env: Handlers.Envelope,
                           entries: seq<Dingo.Received>, mints: seq<MintRow>,
                           withdrawals: seq<WithdrawalRow>): (r: Result<Payouts>)
    ensures r.Ok? ==> ValidatedOne(request, wallets, env).Ok?
    ensures r.Ok? ==>
      var data := ValidatedOne(request, wallets, env).value;
      && (!Truthy(Js.Get(data, PROCESS_DEPOSITS)) ==> r.value.depositTaxPayouts == [])
      && (!Truthy(Js.Get(data, PROCESS_WITHDRAWALS)) ==> r.value.withdrawalPayouts == [] && r.value.withdrawalTaxPayouts == [])
      && ProposalShape(r.value, Dingo.ReceivedDict(entries), mints, withdrawals)
  {
    var data :- ValidatedOne(request, wallets, env);
    var processDeposits := Truthy(Js.Get(data, PROCESS_DEPOSITS));
    var processWithdrawals := Truthy(Js.Get(data, PROCESS_WITHDRAWALS));
    var p :- PendingPayouts(processDeposits, processWithdrawals, Dingo.ReceivedDict(entries), mints, withdrawals);
    PendingPayoutsSpec(processDeposits, processWithdrawals, Dingo.ReceivedDict(entries), mints, withdrawals);
    Ok(p)
  }

  // ---------------------------------------------------------------------
  // computeUnspent and validateUnspent (authorityDaemon.js:704-756)

  /** The deposit addresses whose outputs the node may spend: those of
      registered rows that have received something. */
  function SpendableDeposits(mints: seq<MintRow>, entries: seq<Dingo.Received>): seq<string> {
    Sorting.MapSeq(DepositKey, DepositRows(Dingo.ReceivedDict(entries), mints))
  }

  /** `computeUnspent()`: the change address's outputs, then those of the
      spendable deposit addresses. `changeRpc` and `depositRpc` are the
      node's `listunspent` answers at the change and the deposit
      confirmation depth. */
  function Unspent(mints: seq<MintRow>, entries: seq<Dingo.Received>, changeAddress: string,
                   changeRpc: seq<string> -> seq<Dingo.Utxo>, depositRpc: seq<string> -> seq<Dingo.Utxo>): seq<Dingo.Utxo> {
    Dingo.ListUnspent(Some([changeAddress]), changeRpc) + Dingo.ListUnspent(Some(SpendableDeposits(mints, entries)), depositRpc)
  }

  /** The node only offers outputs of its change address and of deposit
      addresses that are registered and have received something; with no
      such deposit address it does not ask for deposit outputs at all. */
  lemma UnspentSources(mints: seq<MintRow>, entries: seq<Dingo.Received>, changeAddress: string,
                       changeRpc: seq<string> -> seq<Dingo.Utxo>, depositRpc: seq<string> -> seq<Dingo.Utxo>)
    ensures forall a :: a in SpendableDeposits(mints, entries) <==>
      (exists row :: row in mints && row.depositAddress == a) && Dingo.HasEntry(entries, a)
    ensures |SpendableDeposits(mints, entries)| == 0 ==>
      Unspent(mints, entries, changeAddress, changeRpc, depositRpc) == changeRpc([changeAddress])
    ensures |SpendableDeposits(mints, entries)| > 0 ==>
      Unspent(mints, entries, changeAddress, changeRpc, depositRpc) ==
        changeRpc([changeAddress]) + depositRpc(SpendableDeposits(mints, entries))
  {
    var deposited := Dingo.ReceivedDict(entries);
    var rows := DepositRows(deposited, mints);
    var spendable := SpendableDeposits(mints, entries);
    Dingo.ReceivedDictKeys(entries);
    assert forall a :: a in deposited.keys <==> a in deposited.vals;
    assert spendable == Sorting.MapSeq(DepositKey, rows);
    assert |spendable| == |rows| && forall i :: 0 <= i < |rows| ==> spendable[i] == DepositKey(rows[i]);
    forall a ensures a in spendable <==> (exists row :: row in mints && row.depositAddress == a) && Dingo.HasEntry(entries, a)
    {
      if a in spendable {
        var i :| 0 <= i < |spendable| && spendable[i] == a;
        assert rows[i] in rows;
      }
      if (exists row :: row in mints && row.depositAddress == a) && Dingo.HasEntry(entries, a) {
        var row :| row in mints && row.depositAddress == a;
        assert row in rows;
        var i :| 0 <= i < |rows| && rows[i] == row;
        assert spendable[i] == a;
      }
    }
  }

  /** The key `validateUnspent` compares outputs by:
      `${txid}|${vout}|${address}|${scriptPubKey}|${amount}`. */
  function UtxoHash(u: Dingo.Utxo): string {
    Js.Join([u.txid, IntToString(u.vout), u.address, u.scriptPubKey, u.amount], SEPARATOR)
  }

  /** `_unspent_set`: the keys of the node's own outputs. */
  function Hashes(known: seq<Dingo.Utxo>): set<string> {
    set u | u in known :: UtxoHash(u)
  }

  /** `validateUnspent(unspent)` against the node's own outputs `known`. */
  function UnspentCheck(unspent: seq<Dingo.Utxo>, known: seq<Dingo.Utxo>): (r: Result<()>)
    ensures r.Err? ==> r.error == NON_EXISTENT_UTXO
  {
    Need(forall i :: 0 <= i < |unspent| ==> UtxoHash(unspent[i]) in Hashes(known), NON_EXISTENT_UTXO)
  }

  /** No text field of the output holds the separator. */
  predicate SeparatorFree(u: Dingo.Utxo) {
    SEPARATOR !in u.txid && SEPARATOR !in u.address && SEPARATOR !in u.scriptPubKey && SEPARATOR !in u.amount
  }

  lemma IntToStringSeparatorFree(i: int)
    ensures SEPARATOR !in IntToString(i)
  {
    var n: nat := if i < 0 then -i else i;
    NatToStringValue(n);
    var s := IntToString(i);
    assert forall k :: 0 <= k < |NatToString(n)| ==> NatToString(n)[k] != SEPARATOR;
    if i < 0 {
      assert forall k :: 1 <= k < |s| ==> s[k] == NatToString(n)[k - 1];
    }
  }

  /** The key of an output whose fields hold no separator has exactly four
      separators. */
  lemma HashSeparators(a: Dingo.Utxo)
    requires SeparatorFree(a)
    ensures Js.Count(UtxoHash(a), SEPARATOR) == 4
  {
    var pa := [a.txid, IntToString(a.vout), a.address, a.scriptPubKey, a.amount];
    IntToStringSeparatorFree(a.vout);
    Js.SplitJoin(pa, SEPARATOR);
    Js.SplitLength(UtxoHash(a), SEPARATOR);
  }

  /** The key identifies an output whose fields hold no separator: any
      output with the same key is that output, since a separator in one of
      its fields would give the key a fifth separator. */
  lemma UtxoHashInjective(a: Dingo.Utxo, b: Dingo.Utxo)
    requires SeparatorFree(a)
    requires UtxoHash(a) == UtxoHash(b)
    ensures a == b
  {
    var pa := [a.txid, IntToString(a.vout), a.address, a.scriptPubKey, a.amount];
    var pb := [b.txid, IntToString(b.vout), b.address, b.scriptPubKey, b.amount];
    HashSeparators(a);
    Js.JoinCountSeparator(pb, SEPARATOR, 0);
    Js.JoinCountSeparator(pb, SEPARATOR, 2);
    Js.JoinCountSeparator(pb, SEPARATOR, 3);
    Js.JoinCountSeparator(pb, SEPARATOR, 4);
    assert SeparatorFree(b);
    IntToStringSeparatorFree(a.vout);
    IntToStringSeparatorFree(b.vout);
    Js.SplitJoin(pa, SEPARATOR);
    Js.SplitJoin(pb, SEPARATOR);
    assert pa == pb;
    assert IntToString(a.vout) == pa[1] == pb[1] == IntToString(b.vout);
    IntToStringInjective(a.vout, b.vout);
  }

  /** Every proposed output must be one the node itself holds: when the
      node's own outputs hold no separator, the check passes exactly when
      each proposed output, whatever its fields, is one of the node's own. */
  lemma UnspentCheckExact(unspent: seq<Dingo.Utxo>, known: seq<Dingo.Utxo>)
    requires forall u :: u in known ==> SeparatorFree(u)
    ensures UnspentCheck(unspent, known).Ok? <==> forall i :: 0 <= i < |unspent| ==> unspent[i] in known
  {
    forall i | 0 <= i < |unspent| && UtxoHash(unspent[i]) in Hashes(known) ensures unspent[i] in known {
      var u :| u in known && UtxoHash(u) == UtxoHash(unspent[i]);
      UtxoHashInjective(u, unspent[i]);
    }
  }

  // ---------------------------------------------------------------------
  // The approval request (authorityDaemon.js:865-880)

  /** The fields of an approval request. `approvalChain` is the partly
      signed transaction, or none for the first node of the chain. */
  datatype PayoutsRequest = PayoutsRequest(payouts: Payouts, unspent: seq<Dingo.Utxo>, approvalChain: Option<string>)

  function ReadList<T>(v: Js.Value, read: Js.Value -> Result<T>): Result<seq<T>> {
    if v.Arr? then MapAll(v.items, read) else Err(Handlers.MALFORMED)
  }

  function ReadDepositTaxPayout(v: Js.Value): Result<DepositTaxPayout> {
    var depositAddress :- Handlers.Text(v, "depositAddress");
    var amount :- Handlers.Amount(v, "amount");
    Ok(DepositTaxPayout(depositAddress, amount))
  }

  function ReadWithdrawalPayout(v: Js.Value): Result<WithdrawalPayout> {
    var burnSignature :- Handlers.Text(v, "burnSignature");
    var burnDestination :- Handlers.Text(v, "burnDestination");
    var amount :- Handlers.Amount(v, "amount");
    Ok(WithdrawalPayout(burnSignature, burnDestination, amount))
  }

  function ReadUtxo(v: Js.Value): Result<Dingo.Utxo> {
    var txid :- Handlers.Text(v, "txid");
    var vout := Js.Get(v, "vout");
    var _ :- Need(vout.Num?, Handlers.MALFORMED);
    var address :- Handlers.Text(v, "address");
    var scriptPubKey :- Handlers.Text(v, "scriptPubKey");
    var amount :- Handlers.Amount(v, "amount");
    Ok(Dingo.Utxo(txid, vout.n, address, scriptPubKey, amount))
  }

  /** `approvalChain === null` starts a new chain; a string continues one. */
  function ReadChain(v: Js.Value): Result<Option<string>> {
    if v.Null? then Ok(None)
    else if v.Str? then Ok(Some(v.s))
    else Err(Handlers.MALFORMED)
  }

  function PayoutsRequestOf(data: Js.Value): Result<PayoutsRequest> {
    var dtp :- ReadList(Js.Get(data, "depositTaxPayouts"), ReadDepositTaxPayout);
    var wp :- ReadList(Js.Get(data, "withdrawalPayouts"), ReadWithdrawalPayout);
    var wtp :- ReadList(Js.Get(data, "withdrawalTaxPayouts"), ReadWithdrawalPayout);
    var unspent :- ReadList(Js.Get(data, "unspent"), ReadUtxo);
    var approvalChain :- ReadChain(Js.Get(data, "approvalChain"));
    Ok(PayoutsRequest(Payouts(dtp, wp, wtp), unspent, approvalChain))
  }

  // ---------------------------------------------------------------------
  // The checks before the signature (authorityDaemon.js:865-905)

  /** What a node that approves will sign, and the request it approves. */
  datatype Decision = Decision(request: PayoutsRequest, chain: string)

  /** The chain the node signs for an approval: the proposed outputs are
      its own, the payouts pass `validatePayouts`, the outputs are computed,
      a first node builds the transaction (`createRaw`), and the decoded
      transaction (`decodeRaw`) spends and pays exactly those. */
  function ChainToSign(req: PayoutsRequest, known: seq<Dingo.Utxo>, entries: seq<Dingo.Received>,
                       mints: seq<MintRow>, withdrawals: seq<WithdrawalRow>,
                       taxAddresses: seq<string>, changeAddress: string,
                       createRaw: (seq<Dingo.Utxo>, Dicts.Dict<string>) -> string,
                       decodeRaw: string -> Result<Dingo.DecodedTx>): Result<string> {
    var _ :- UnspentCheck(req.unspent, known);
    CheckedPayoutChain(req, entries, mints, withdrawals, taxAddresses, changeAddress, createRaw, decodeRaw)
  }

  /** The checks of `makeApprovePayoutsHandler` after the outputs are known
      to be the node's own. */
  function CheckedPayoutChain(req: PayoutsRequest, entries: seq<Dingo.Received>,
                              mints: seq<MintRow>, withdrawals: seq<WithdrawalRow>,
                              taxAddresses: seq<string>, changeAddress: string,
                              createRaw: (seq<Dingo.Utxo>, Dicts.Dict<string>) -> string,
                              decodeRaw: string -> Result<Dingo.DecodedTx>): Result<string> {
    var _ :- ValidatePayouts(req.payouts, Dingo.ReceivedDict(entries), mints, withdrawals);
    var vouts :- ComputedVouts(req.payouts, req.unspent, taxAddresses, changeAddress);
    VerifiedChain(req, vouts, createRaw, decodeRaw)
  }

  /** The chain to sign for outputs `vouts`: the one the coordinator sent
      or a new one, once it decodes to a transaction spending the proposed
      outputs and paying `vouts`. */
  function VerifiedChain(req: PayoutsRequest, vouts: Dicts.Dict<string>,
                         createRaw: (seq<Dingo.Utxo>, Dicts.Dict<string>) -> string,
                         decodeRaw: string -> Result<Dingo.DecodedTx>): Result<string> {
    var chain := if req.approvalChain.None? then createRaw(req.unspent, vouts) else req.approvalChain.value;
    var tx :- decodeRaw(chain);
    var _ :- Dingo.VerifyRawTransaction(req.unspent, vouts, tx);
    Ok(chain)
  }

  /** `makeApprovePayoutsHandler` up to the signature: a request signed by
      the payout coordinator, its fields, and the chain to sign. */
  function PayoutDecision(request: Js.Value, coordinatorWallet: string, env: Handlers.Envelope,
                          known: seq<Dingo.Utxo>, entries: seq<Dingo.Received>,
                          mints: seq<MintRow>, withdrawals: seq<WithdrawalRow>,
                          taxAddresses: seq<string>, changeAddress: string,
                          createRaw: (seq<Dingo.Utxo>, Dicts.Dict<string>) -> string,
                          decodeRaw: string -> Result<Dingo.DecodedTx>): Result<Decision> {
    var data :- Handlers.Validated(request, coordinatorWallet, env);
    var req :- PayoutsRequestOf(data);
    var chain :- ChainToSign(req, known, entries, mints, withdrawals, taxAddresses, changeAddress, createRaw, decodeRaw);
    Ok(Decision(req, chain))
  }

  /** A node signs only for outputs it holds itself, for a proposal that
      passes every payout check, and for outputs that with the network fee
      spend the inputs to the satoshi. */
  lemma ChainToSignChecks(req: PayoutsRequest, known: seq<Dingo.Utxo>, entries: seq<Dingo.Received>,
                         mints: seq<MintRow>, withdrawals: seq<WithdrawalRow>,
                         taxAddresses: seq<string>, changeAddress: string,
                         createRaw: (seq<Dingo.Utxo>, Dicts.Dict<string>) -> string,
                         decodeRaw: string -> Result<Dingo.DecodedTx>)
    requires ChainToSign(req, known, entries, mints, withdrawals, taxAddresses, changeAddress, createRaw, decodeRaw).Ok?
    ensures forall i :: 0 <= i < |req.unspent| ==> UtxoHash(req.unspent[i]) in Hashes(known)
    ensures (forall u :: u in known ==> SeparatorFree(u)) ==> forall i :: 0 <= i < |req.unspent| ==> req.unspent[i] in known
    ensures PayoutsValid(req.payouts, Dingo.ReceivedDict(entries), mints, withdrawals)
    ensures RawVouts(req.payouts, req.unspent, taxAddresses, changeAddress).Ok?
    ensures UnspentTotal(req.unspent).Ok?
    ensures Dicts.Total(RawVouts(req.payouts, req.unspent, taxAddresses, changeAddress).value) + NetworkFee(req.payouts)
      == UnspentTotal(req.unspent).value
  {
    var deposited := Dingo.ReceivedDict(entries);
    assert UnspentCheck(req.unspent, known).Ok?;
    if forall u :: u in known ==> SeparatorFree(u) {
      UnspentCheckExact(req.unspent, known);
    }
    assert ValidatePayouts(req.payouts, deposited, mints, withdrawals).Ok?;
    ValidatePayoutsSpec(req.payouts, deposited, mints, withdrawals);
    assert ComputedVouts(req.payouts, req.unspent, taxAddresses, changeAddress).Ok?;
  }

  /** The transaction signed spends exactly the proposed outputs and pays
      exactly the computed outputs. A continued chain is signed as it came,
      a new one is the transaction built from the proposal. */
  lemma ChainToSignTransaction(req: PayoutsRequest, known: seq<Dingo.Utxo>, entries: seq<Dingo.Received>,
                         mints: seq<MintRow>, withdrawals: seq<WithdrawalRow>,
                         taxAddresses: seq<string>, changeAddress: string,
                         createRaw: (seq<Dingo.Utxo>, Dicts.Dict<string>) -> string,
                         decodeRaw: string -> Result<Dingo.DecodedTx>)
    requires ChainToSign(req, known, entries, mints, withdrawals, taxAddresses, changeAddress, createRaw, decodeRaw).Ok?
    ensures ComputedVouts(req.payouts, req.unspent, taxAddresses, changeAddress).Ok?
    ensures var chain := ChainToSign(req, known, entries, mints, withdrawals, taxAddresses, changeAddress, createRaw, decodeRaw).value;
      var vouts := ComputedVouts(req.payouts, req.unspent, taxAddresses, changeAddress).value;
      && (req.approvalChain.Some? ==> chain == req.approvalChain.value)
      && (req.approvalChain.None? ==> chain == createRaw(req.unspent, vouts))
      && decodeRaw(chain).Ok?
      && Dingo.CheckVins(req.unspent, decodeRaw(chain).value.vin).Ok?
      && Dingo.PayoutsMatch(vouts, decodeRaw(chain).value.vout)
  {
    var vouts := ComputedVouts(req.payouts, req.unspent, taxAddresses, changeAddress).value;
    var chain := if req.approvalChain.None? then createRaw(req.unspent, vouts) else req.approvalChain.value;
    assert decodeRaw(chain).Ok?;
    var tx := decodeRaw(chain).value;
    assert Dingo.VerifyRawTransaction(req.unspent, vouts, tx).Ok?;
    Dingo.CheckVoutsSpec(vouts, tx.vout);
  }

  /** The checks run in the handler's order: an output the node does not
      hold is refused before the payouts are looked at, and a proposal that
      fails `validatePayouts` is refused with that error before any
      transaction is built. */
  lemma ChainToSignOrder(req: PayoutsRequest, known: seq<Dingo.Utxo>, entries: seq<Dingo.Received>,
                         mints: seq<MintRow>, withdrawals: seq<WithdrawalRow>,
                         taxAddresses: seq<string>, changeAddress: string,
                         createRaw: (seq<Dingo.Utxo>, Dicts.Dict<string>) -> string,
                         decodeRaw: string -> Result<Dingo.DecodedTx>)
    ensures UnspentCheck(req.unspent, known).Err? ==>
      ChainToSign(req, known, entries, mints, withdrawals, taxAddresses, changeAddress, createRaw, decodeRaw) ==
        Err(NON_EXISTENT_UTXO)
    ensures UnspentCheck(req.unspent, known).Ok? &&
            ValidatePayouts(req.payouts, Dingo.ReceivedDict(entries), mints, withdrawals).Err? ==>
      ChainToSign(req, known, entries, mints, withdrawals, taxAddresses, changeAddress, createRaw, decodeRaw) ==
        Err(ValidatePayouts(req.payouts, Dingo.ReceivedDict(entries), mints, withdrawals).error)
  {
  }
}
