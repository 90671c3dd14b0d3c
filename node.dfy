/** One authority node of the bridge (authorityDaemon.js): its settings, its
    database, and the request handlers that read and write that database.
    The node's wallet, the destination ledger and the clock are parameters
    of the handlers; what each must do is stated by the functions of
    `Handlers` and `Approval`, and each handler here is proved to do it. */
module Node {

  import opened Results
  import opened Decimal
  import opened Database
  import opened Accounting
  import Js
  import Dicts
  import Dingo
  import SplToken
  import Handlers
  import Approval
  import Settlement
  import Sorting

  /** What `createmultisig` answers. */
  datatype Multisig = Multisig(address: string, redeemScript: string)

  /** A mint the coordinator asked for and this node may sign: the mint,
      the amount in satoshi, and the row with its raised approved amount. */
  datatype MintDecision = MintDecision(mintAddress: string, amount: int, row: MintRow)

  /** `makeApproveMintHandler` up to the signature: a request signed by the
      coordinator, its `mint` fields, and the approval checks. */
  function MintAttempt(mints: seq<MintRow>, request: Js.Value, coordinatorWallet: string, env: Handlers.Envelope,
                       entries: seq<Dingo.Received>): Result<MintDecision> {
    var data :- Handlers.Validated(request, coordinatorWallet, env);
    var req :- Handlers.MintRequestOf(data);
    var row :- Handlers.MintApproval(mints, entries, req);
    var amount :- ParseBigInt(req.mintAmount);
    Ok(MintDecision(req.mintAddress, amount, row))
  }

  /** A signed mint comes from the coordinator, names a registered mint
      with one row, and raises that row's approved amount by exactly the
      signed amount, never past what its deposits earn after tax. */
  lemma MintAttemptSpec(mints: seq<MintRow>, request: Js.Value, coordinatorWallet: string, env: Handlers.Envelope,
                        entries: seq<Dingo.Received>)
    requires MintAttempt(mints, request, coordinatorWallet, env, entries).Ok?
    ensures Handlers.Accepted(request, coordinatorWallet, env)
    ensures var d := MintAttempt(mints, request, coordinatorWallet, env, entries).value;
      exists i :: && Handlers.OnlyMint(mints, i, d.mintAddress)
                  && d.row == mints[i].(approvedAmount := mints[i].approvedAmount + d.amount)
                  && d.row.approvedAmount <= AmountAfterTax(Handlers.DepositOf(entries, Handlers.MintRequestOf(Js.Get(request, Handlers.DATA)).value).value)
  {
    var req := Handlers.MintRequestOf(Js.Get(request, Handlers.DATA)).value;
    Handlers.MintApprovalSpec(mints, entries, req);
    Handlers.MintApprovalBound(mints, entries, req);
  }

  /** With deposit addresses unique, the approval rewrites the approved
      amount of the mint's own row and leaves every other row as it was. */
  lemma MintUpdateOnlyRow(mints: seq<MintRow>, d: MintDecision, i: int)
    requires DistinctDepositAddresses(mints)
    requires 0 <= i < |mints|
    requires d.row == mints[i].(approvedAmount := mints[i].approvedAmount + d.amount)
    ensures |UpdateMints(mints, [d.row])| == |mints|
    ensures UpdateMints(mints, [d.row])[i] == d.row
    ensures forall j :: 0 <= j < |mints| && j != i ==> UpdateMints(mints, [d.row])[j] == mints[j]
  {
    UpdateMintsLast(mints, [d.row], i, 0);
    forall j | 0 <= j < |mints| && j != i ensures UpdateMints(mints, [d.row])[j] == mints[j] {
      UpdateMintsUnmatched(mints, [d.row], j);
    }
  }

  /** The statuses `queryBurnHistory` writes into the history, one per burn. */
  function Statuses(withdrawals: seq<WithdrawalRow>, signatures: seq<string>): Result<seq<Option<string>>> {
    MapAll(signatures, StatusStep(withdrawals))
  }

  function StatusStep(withdrawals: seq<WithdrawalRow>): string -> Result<Option<string>> {
    (s: string) => Handlers.BurnStatus(withdrawals, s)
  }

  /** Every burn of the history gets its own status, in order, unless the
      status of one of them cannot be read. */
  lemma StatusesSpec(withdrawals: seq<WithdrawalRow>, signatures: seq<string>)
    ensures Statuses(withdrawals, signatures).Ok? <==>
      forall i :: 0 <= i < |signatures| ==> Handlers.BurnStatus(withdrawals, signatures[i]).Ok?
    ensures Statuses(withdrawals, signatures).Ok? ==>
      && |Statuses(withdrawals, signatures).value| == |signatures|
      && forall i :: 0 <= i < |signatures| ==>
           Handlers.BurnStatus(withdrawals, signatures[i]) == Ok(Statuses(withdrawals, signatures).value[i])
  {
    MapAllSpec(signatures, StatusStep(withdrawals));
  }

  /** The `/submitWithdrawal` checks on an unsigned request: `verifyAddress`
      is the source chain's `validateaddress` and `getTransaction` the
      destination ledger's answer for a signature. */
  function WithdrawalAttempt(withdrawals: seq<WithdrawalRow>, request: Js.Value, verifyAddress: string -> bool,
                             getTransaction: string -> Option<SplToken.TxMessage>): Result<WithdrawalRow> {
    var claim :- Handlers.BurnClaimOf(request);
    Handlers.WithdrawalOf(withdrawals, claim, verifyAddress(claim.burnDestination), getTransaction(claim.burnSignature))
  }

  /** A recorded withdrawal is a valid claim for a burn not yet recorded,
      so recording it keeps burn signatures unique. */
  lemma WithdrawalAttemptSpec(withdrawals: seq<WithdrawalRow>, request: Js.Value, verifyAddress: string -> bool,
                              getTransaction: string -> Option<SplToken.TxMessage>)
    requires DistinctBurns(withdrawals)
    requires WithdrawalAttempt(withdrawals, request, verifyAddress, getTransaction).Ok?
    ensures var claim := Handlers.BurnClaimOf(request).value;
      Handlers.ClaimValid(withdrawals, claim, verifyAddress(claim.burnDestination), getTransaction(claim.burnSignature))
    ensures DistinctBurns(withdrawals + [WithdrawalAttempt(withdrawals, request, verifyAddress, getTransaction).value])
    ensures WithdrawalAttempt(withdrawals + [WithdrawalAttempt(withdrawals, request, verifyAddress, getTransaction).value],
                              request, verifyAddress, getTransaction) == Err(Handlers.ALREADY_SUBMITTED)
  {
    var claim := Handlers.BurnClaimOf(request).value;
    var valid := verifyAddress(claim.burnDestination);
    var tx := getTransaction(claim.burnSignature);
    Handlers.WithdrawalOfSpec(withdrawals, claim, valid, tx);
    Handlers.WithdrawalKeepsBurnsDistinct(withdrawals, claim, valid, tx);
  }

  // ---------------------------------------------------------------------
  // The loops of the handlers

  /** `for (const x of xs) { const y = f(x); if (y) out.push(y); }` where a
      step may throw. */
  method CollectLoop<A, B>(xs: seq<A>, f: A -> Result<Option<B>>) returns (r: Result<seq<B>>)
    ensures r == Collect(xs, f)
  {
    var out: seq<B> := [];
    var i := 0;
    while i < |xs|
      invariant 0 <= i <= |xs|
      invariant Collect(xs[..i], f) == Ok(out)
    {
      CollectStep(xs, i, f);
      var step := f(xs[i]);
      if step.Err? {
        CollectStopped(xs, i + 1, f);
        return Err(step.error);
      }
      out := out + if step.value.Some? then [step.value.value] else [];
      i := i + 1;
    }
    assert xs[..i] == xs;
    r := Ok(out);
  }

  /** `for (const x of xs) out.push(f(x));` where a step may throw. */
  method MapAllLoop<A, B>(xs: seq<A>, f: A -> Result<B>) returns (r: Result<seq<B>>)
    ensures r == MapAll(xs, f)
  {
    var out: seq<B> := [];
    var i := 0;
    while i < |xs|
      invariant 0 <= i <= |xs|
      invariant MapAll(xs[..i], f) == Ok(out)
    {
      MapAllStep(xs, i, f);
      var step := f(xs[i]);
      if step.Err? {
        MapAllStopped(xs, i + 1, f);
        return Err(step.error);
      }
      out := out + [step.value];
      i := i + 1;
    }
    assert xs[..i] == xs;
    r := Ok(out);
  }

  /** The withdrawal loop of `computePendingPayouts`: a payout and a tax
      payout for each unapproved withdrawal, in order. */
  method WithdrawalPayoutLoop(unapproved: seq<WithdrawalRow>)
    returns (withdrawalPayouts: seq<WithdrawalPayout>, withdrawalTaxPayouts: seq<WithdrawalPayout>)
    ensures withdrawalPayouts == Sorting.MapSeq(WithdrawalPayoutOf, unapproved)
    ensures withdrawalTaxPayouts == Sorting.MapSeq(WithdrawalTaxPayoutOf, unapproved)
  {
    withdrawalPayouts := [];
    withdrawalTaxPayouts := [];
    var i := 0;
    while i < |unapproved|
      invariant 0 <= i <= |unapproved|
      invariant withdrawalPayouts == Sorting.MapSeq(WithdrawalPayoutOf, unapproved[..i])
      invariant withdrawalTaxPayouts == Sorting.MapSeq(WithdrawalTaxPayoutOf, unapproved[..i])
    {
      withdrawalPayouts := withdrawalPayouts + [WithdrawalPayoutOf(unapproved[i])];
      withdrawalTaxPayouts := withdrawalTaxPayouts + [WithdrawalTaxPayoutOf(unapproved[i])];
      i := i + 1;
    }
    assert unapproved[..i] == unapproved;
  }

  /** The keys of `_unspent_set` grow by one output per step. */
  lemma HashesStep(known: seq<Dingo.Utxo>, i: nat)
    requires i < |known|
    ensures Approval.Hashes(known[..i + 1]) == Approval.Hashes(known[..i]) + {Approval.UtxoHash(known[i])}
  {
    assert known[..i + 1] == known[..i] + [known[i]];
  }

  /** The set-building loop of `validateUnspent`. */
  method HashSetLoop(known: seq<Dingo.Utxo>) returns (seen: set<string>)
    ensures seen == Approval.Hashes(known)
  {
    seen := {};
    var i := 0;
    while i < |known|
      invariant 0 <= i <= |known|
      invariant seen == Approval.Hashes(known[..i])
    {
      HashesStep(known, i);
      seen := seen + {Approval.UtxoHash(known[i])};
      i := i + 1;
    }
    assert known[..i] == known;
  }

  /** The checking loop of `validateUnspent`: the first output whose key is
      not in the set is refused. */
  method UnspentCheckLoop(unspent: seq<Dingo.Utxo>, known: seq<Dingo.Utxo>) returns (r: Result<()>)
    ensures r == Approval.UnspentCheck(unspent, known)
  {
    var seen := HashSetLoop(known);
    var i := 0;
    while i < |unspent|
      invariant 0 <= i <= |unspent|
      invariant forall j :: 0 <= j < i ==> Approval.UtxoHash(unspent[j]) in seen
    {
      if Approval.UtxoHash(unspent[i]) !in seen {
        return Err(Approval.NON_EXISTENT_UTXO);
      }
      i := i + 1;
    }
    r := Ok(());
  }

  lemma WithdrawalVoutsStep(wp: seq<WithdrawalPayout>, i: nat)
    requires i < |wp|
    requires WithdrawalVouts(wp[..i]).Ok?
    ensures ParseBigInt(wp[i].amount).Err? ==> WithdrawalVouts(wp[..i + 1]) == Err(ParseBigInt(wp[i].amount).error)
    ensures ParseBigInt(wp[i].amount).Ok? ==>
      WithdrawalVouts(wp[..i + 1]) == Ok(Dicts.AddTo(WithdrawalVouts(wp[..i]).value, wp[i].burnDestination, ParseBigInt(wp[i].amount).value))
  {
    assert wp[..i + 1][..i] == wp[..i];
  }

  lemma {:induction false} WithdrawalVoutsStopped(wp: seq<WithdrawalPayout>, k: nat)
    requires k <= |wp|
    requires WithdrawalVouts(wp[..k]).Err?
    ensures WithdrawalVouts(wp) == WithdrawalVouts(wp[..k])
    decreases |wp|
  {
    if k == |wp| {
      assert wp[..k] == wp;
    } else {
      var n := |wp| - 1;
      assert wp[..n][..k] == wp[..k];
      WithdrawalVoutsStopped(wp[..n], k);
      WithdrawalVoutsInitFailed(wp);
    }
  }

  /** The withdrawal loop of `computeVouts`. */
  method WithdrawalVoutsLoop(wp: seq<WithdrawalPayout>) returns (r: Result<Dicts.Dict<int>>)
    ensures r == WithdrawalVouts(wp)
  {
    var vouts: Dicts.Dict<int> := Dicts.Empty();
    var i := 0;
    while i < |wp|
      invariant 0 <= i <= |wp|
      invariant WithdrawalVouts(wp[..i]) == Ok(vouts)
    {
      WithdrawalVoutsStep(wp, i);
      var amount := ParseBigInt(wp[i].amount);
      if amount.Err? {
        WithdrawalVoutsStopped(wp, i + 1);
        return Err(amount.error);
      }
      vouts := Dicts.AddTo(vouts, wp[i].burnDestination, amount.value);
      i := i + 1;
    }
    assert wp[..i] == wp;
    r := Ok(vouts);
  }

  /** The tax loop of `computeVouts`. */
  method PayEachLoop(d: Dicts.Dict<int>, addresses: seq<string>, x: int) returns (r: Dicts.Dict<int>)
    requires d.Valid()
    ensures r == PayEach(d, addresses, x)
  {
    r := d;
    var i := 0;
    while i < |addresses|
      invariant 0 <= i <= |addresses|
      invariant r == PayEach(d, addresses[..i], x)
    {
      assert addresses[..i + 1][..i] == addresses[..i];
      r := Dicts.AddTo(r, addresses[i], x);
      i := i + 1;
    }
    assert addresses[..i] == addresses;
  }

  /** The conversion loop of `computeVouts`, over the keys in order. */
  method DustLoop(d: Dicts.Dict<int>) returns (r: Dicts.Dict<string>)
    requires d.Valid()
    ensures r == DustFiltered(d, d.keys)
  {
    r := Dicts.Empty();
    var i := 0;
    while i < |d.keys|
      invariant 0 <= i <= |d.keys|
      invariant r == DustFiltered(d, d.keys[..i])
    {
      assert d.keys[..i + 1][..i] == d.keys[..i];
      assert d.keys[i] in d.vals;
      if d.vals[d.keys[i]] >= DUST_THRESHOLD {
        r := Dicts.Put(r, d.keys[i], Coins(d.vals[d.keys[i]]));
      }
      i := i + 1;
    }
    assert d.keys[..i] == d.keys;
  }

  lemma ApplyDepositTaxesStep(rows: map<string, MintRow>, dtp: seq<DepositTaxPayout>, i: nat)
    requires i < |dtp|
    requires Settlement.ApplyDepositTaxes(rows, dtp[..i]).Ok?
    ensures var taxed := Settlement.ApplyDepositTaxes(rows, dtp[..i]).value;
      var address := dtp[i].depositAddress;
      && (address !in taxed ==> Settlement.ApplyDepositTaxes(rows, dtp[..i + 1]) == Err(Settlement.UNDEFINED_TAX))
      && (address in taxed && ParseBigInt(dtp[i].amount).Err? ==>
            Settlement.ApplyDepositTaxes(rows, dtp[..i + 1]) == Err(ParseBigInt(dtp[i].amount).error))
      && (address in taxed && ParseBigInt(dtp[i].amount).Ok? ==>
            Settlement.ApplyDepositTaxes(rows, dtp[..i + 1]) ==
              Ok(taxed[address := taxed[address].(approvedTax := taxed[address].approvedTax + ParseBigInt(dtp[i].amount).value)]))
  {
    assert dtp[..i + 1][..i] == dtp[..i];
  }

  lemma {:induction false} ApplyDepositTaxesStopped(rows: map<string, MintRow>, dtp: seq<DepositTaxPayout>, k: nat)
    requires k <= |dtp|
    requires Settlement.ApplyDepositTaxes(rows, dtp[..k]).Err?
    ensures Settlement.ApplyDepositTaxes(rows, dtp) == Settlement.ApplyDepositTaxes(rows, dtp[..k])
    decreases |dtp|
  {
    if k == |dtp| {
      assert dtp[..k] == dtp;
    } else {
      var n := |dtp| - 1;
      assert dtp[..n][..k] == dtp[..k];
      ApplyDepositTaxesStopped(rows, dtp[..n], k);
    }
  }

  /** The deposit loop of `applyPayouts`, on the rows read by address. */
  method DepositTaxLoop(rows: map<string, MintRow>, dtp: seq<DepositTaxPayout>) returns (r: Result<map<string, MintRow>>)
    ensures r == Settlement.ApplyDepositTaxes(rows, dtp)
  {
    var taxed := rows;
    var i := 0;
    while i < |dtp|
      invariant 0 <= i <= |dtp|
      invariant Settlement.ApplyDepositTaxes(rows, dtp[..i]) == Ok(taxed)
    {
      ApplyDepositTaxesStep(rows, dtp, i);
      var address := dtp[i].depositAddress;
      if address !in taxed {
        ApplyDepositTaxesStopped(rows, dtp, i + 1);
        return Err(Settlement.UNDEFINED_TAX);
      }
      var tax := ParseBigInt(dtp[i].amount);
      if tax.Err? {
        ApplyDepositTaxesStopped(rows, dtp, i + 1);
        return Err(tax.error);
      }
      taxed := taxed[address := taxed[address].(approvedTax := taxed[address].approvedTax + tax.value)];
      i := i + 1;
    }
    assert dtp[..i] == dtp;
    r := Ok(taxed);
  }

  // ---------------------------------------------------------------------
  // Recording a payout (authorityDaemon.js:827-863)

  /** How `applyPayouts` ends: the error of the deposit step, else the error
      of the withdrawal step, else success. */
  function ApplyOutcome(mints: seq<MintRow>, withdrawals: seq<WithdrawalRow>, p: Payouts): Result<()> {
    var _ :- Settlement.AppliedMints(mints, p.depositTaxPayouts);
    var _ :- Settlement.AppliedWithdrawals(withdrawals, p.withdrawalPayouts, p.withdrawalTaxPayouts);
    Ok(())
  }

  /** The mint table after `applyPayouts`: written when the deposit step
      succeeds, whatever the withdrawal step does after it. */
  function MintsAfter(mints: seq<MintRow>, p: Payouts): seq<MintRow> {
    var m := Settlement.AppliedMints(mints, p.depositTaxPayouts);
    if m.Ok? then m.value else mints
  }

  /** The withdrawal table after `applyPayouts`: written only when both
      steps succeed. */
  function WithdrawalsAfter(mints: seq<MintRow>, withdrawals: seq<WithdrawalRow>, p: Payouts): seq<WithdrawalRow> {
    var w := Settlement.AppliedWithdrawals(withdrawals, p.withdrawalPayouts, p.withdrawalTaxPayouts);
    if Settlement.AppliedMints(mints, p.depositTaxPayouts).Ok? && w.Ok? then w.value else withdrawals
  }

  /** A proposal that passes `validatePayouts` is always recorded in full:
      with deposit addresses unique, neither step of `applyPayouts` can
      fail after the node has signed. */
  lemma ValidPayoutsRecorded(p: Payouts, deposited: Dicts.Dict<Dingo.Received>,
                             mints: seq<MintRow>, withdrawals: seq<WithdrawalRow>)
    requires DistinctDepositAddresses(mints)
    requires PayoutsValid(p, deposited, mints, withdrawals)
    ensures ApplyOutcome(mints, withdrawals, p) == Ok(())
    ensures MintsAfter(mints, p) == Settlement.AppliedMints(mints, p.depositTaxPayouts).value
    ensures WithdrawalsAfter(mints, withdrawals, p) ==
      Settlement.AppliedWithdrawals(withdrawals, p.withdrawalPayouts, p.withdrawalTaxPayouts).value
  {
    var dtp := p.depositTaxPayouts;
    var rows := DepositRows(deposited, mints);
    forall q | 0 <= q < |dtp|
      ensures (exists i :: 0 <= i < |mints| && mints[i].depositAddress == dtp[q].depositAddress) && ParseBigInt(dtp[q].amount).Ok?
    {
      assert DepositTaxAllowed(dtp[q], deposited, rows);
      var j :| 0 <= j < |rows| && Dicts.IsLastWithKey(rows, DepositKey, j, dtp[q].depositAddress) && TaxFits(dtp[q], deposited, rows[j]);
      assert rows[j] in rows;
      var i :| 0 <= i < |mints| && mints[i] == rows[j];
    }
    Settlement.AppliedMintsOk(mints, dtp);
    var wp := p.withdrawalPayouts;
    var wtp := p.withdrawalTaxPayouts;
    forall k | 0 <= k < |wp| ensures Settlement.PayoutRecordable(withdrawals, wp, wtp, k) {
      assert WithdrawalPairAllowed(wp[k], wtp[k], withdrawals);
    }
    Settlement.AppliedWithdrawalsOk(withdrawals, wp, wtp);
  }

  /** A proposal a node approves was signed by the payout coordinator and
      passes every payout check, so recording it after the signature never
      fails, and the node's answer is the signed chain. */
  lemma ApprovedPayoutsRecorded(request: Js.Value, coordinatorWallet: string, env: Handlers.Envelope,
                                known: seq<Dingo.Utxo>, entries: seq<Dingo.Received>,
                                mints: seq<MintRow>, withdrawals: seq<WithdrawalRow>,
                                taxAddresses: seq<string>, changeAddress: string,
                                createRaw: (seq<Dingo.Utxo>, Dicts.Dict<string>) -> string,
                                decodeRaw: string -> Result<Dingo.DecodedTx>)
    requires DistinctDepositAddresses(mints)
    requires Approval.PayoutDecision(request, coordinatorWallet, env, known, entries, mints, withdrawals,
                                     taxAddresses, changeAddress, createRaw, decodeRaw).Ok?
    ensures Handlers.Accepted(request, coordinatorWallet, env)
    ensures var d := Approval.PayoutDecision(request, coordinatorWallet, env, known, entries, mints, withdrawals,
                                             taxAddresses, changeAddress, createRaw, decodeRaw).value;
      && PayoutsValid(d.request.payouts, Dingo.ReceivedDict(entries), mints, withdrawals)
      && ApplyOutcome(mints, withdrawals, d.request.payouts) == Ok(())
  {
    var data := Handlers.Validated(request, coordinatorWallet, env);
    var req := Approval.PayoutsRequestOf(data.value).value;
    Approval.ChainToSignChecks(req, known, entries, mints, withdrawals, taxAddresses, changeAddress, createRaw, decodeRaw);
    ValidPayoutsRecorded(req.payouts, Dingo.ReceivedDict(entries), mints, withdrawals);
  }

  /** The first part of `computeVouts`: the withdrawals, then the tax shares. */
  method TaxedVoutsLoop(p: Payouts, taxAddresses: seq<string>) returns (r: Result<Dicts.Dict<int>>)
    ensures r == TaxedVouts(p, taxAddresses)
  {
    var withdrawn := WithdrawalVoutsLoop(p.withdrawalPayouts);
    if withdrawn.Err? {
      return Err(withdrawn.error);
    }
    var share := TaxShare(p, taxAddresses);
    if share.Err? {
      return Err(share.error);
    }
    var vouts := PayEachLoop(withdrawn.value, taxAddresses, share.value);
    r := Ok(vouts);
  }

  /** `computeVouts` before the dust filter: the outputs and the change. */
  method RawVoutsLoop(p: Payouts, unspent: seq<Dingo.Utxo>, taxAddresses: seq<string>, changeAddress: string)
    returns (r: Result<Dicts.Dict<int>>)
    ensures r == RawVouts(p, unspent, taxAddresses, changeAddress)
  {
    var taxed := TaxedVoutsLoop(p, taxAddresses);
    if taxed.Err? {
      return Err(taxed.error);
    }
    r := WithChange(taxed.value, p, unspent, changeAddress);
  }

  class AuthorityNode {
    /** The node's database. */
    const store: Store
    /** The wallet addresses of all authority nodes, in their order. */
    const wallets: seq<string>
    /** The wallet address of the payout coordinator. */
    const coordinatorWallet: string
    /** How many signatures the multisig deposit addresses need. */
    const authorityThreshold: int
    /** Where the network tax is paid out. */
    const taxAddresses: seq<string>
    /** The node's change address. */
    const changeAddress: string

    /** A node with a fresh, empty database. */
    constructor (wallets: seq<string>, coordinatorWallet: string, authorityThreshold: int,
                 taxAddresses: seq<string>, changeAddress: string)
      ensures fresh(store)
      ensures store.used == [] && store.mints == [] && store.withdrawals == []
      ensures this.wallets == wallets && this.coordinatorWallet == coordinatorWallet
      ensures this.authorityThreshold == authorityThreshold
      ensures this.taxAddresses == taxAddresses && this.changeAddress == changeAddress
    {
      store := new Store();
      this.wallets := wallets;
      this.coordinatorWallet := coordinatorWallet;
      this.authorityThreshold := authorityThreshold;
      this.taxAddresses := taxAddresses;
      this.changeAddress := changeAddress;
    }

    // -------------------------------------------------------------------
    // registerMintDepositAddress (authorityDaemon.js:246-315)

    /** Registers the multisig deposit address built from every node's
        fresh address. A registration that fails its checks or reuses an
        address changes nothing; otherwise the addresses are marked used
        before the multisig is built, so they stay used even when that
        fails. `createMultisig` is the wallet's `createmultisig`. */
    method RegisterMintDepositAddress(responses: seq<Js.Value>, env: Handlers.Envelope,
                                      decode: string -> Option<seq<SplToken.byte>>,
                                      createMultisig: (int, seq<string>) -> Result<Multisig>)
      returns (r: Result<string>)
      modifies store
      ensures store.withdrawals == old(store.withdrawals)
      ensures var g := Handlers.RegistrationOf(responses, wallets, env, decode);
        && (g.Err? ==> r == Err(g.error) && unchanged(store))
        && (g.Ok? && HasUsedDepositAddresses(old(store.used), g.value.depositAddresses) ==>
              r == Err(Handlers.ADDRESS_REUSED) && unchanged(store))
        && (g.Ok? && !HasUsedDepositAddresses(old(store.used), g.value.depositAddresses) ==>
              var ms := createMultisig(authorityThreshold, g.value.depositAddresses);
              && store.used == old(store.used) + g.value.depositAddresses
              && (ms.Err? ==> r == Err(ms.error) && store.mints == old(store.mints))
              && (ms.Ok? ==>
                    && r == Ok(ms.value.address)
                    && store.mints == old(store.mints) + [MintRow(g.value.mintAddress, ms.value.address, ms.value.redeemScript, 0, 0)]))
    {
      var g := Handlers.RegistrationOf(responses, wallets, env, decode);
      if g.Err? {
        return Err(g.error);
      }
      var registration := g.value;
      if HasUsedDepositAddresses(store.used, registration.depositAddresses) {
        return Err(Handlers.ADDRESS_REUSED);
      }
      store.RegisterUsedDepositAddresses(registration.depositAddresses);
      var ms := createMultisig(authorityThreshold, registration.depositAddresses);
      if ms.Err? {
        return Err(ms.error);
      }
      store.RegisterMintDepositAddress(registration.mintAddress, ms.value.address, ms.value.redeemScript);
      r := Ok(ms.value.address);
    }

    // -------------------------------------------------------------------
    // computePendingMint (authorityDaemon.js:366-394)

    /** The pending mints over the registered rows with deposits;
        `entries` is the wallet's `listreceivedbyaddress` answer. */
    method ComputePendingMint(entries: seq<Dingo.Received>) returns (r: Result<seq<PendingMint>>)
      ensures r == PendingMints(Dingo.ReceivedDict(entries), DepositRows(Dingo.ReceivedDict(entries), store.mints))
    {
      var deposited := Dingo.ListReceivedByAddress(entries);
      var rows := GetMintDepositAddresses(store.mints, Some(deposited.keys));
      r := CollectLoop(rows, PendingStep(deposited));
    }

    // -------------------------------------------------------------------
    // approveMint and approveMintTest (authorityDaemon.js:396-464)

    /** Approves a mint the coordinator asked for: outside test mode the
        node signs the mint for the amount in coins and raises the row's
        approved amount; in test mode nothing is kept, and no signature is
        returned. `signMint` is the destination ledger's mint signature. */
    method ApproveMint(request: Js.Value, env: Handlers.Envelope, entries: seq<Dingo.Received>, test: bool,
                       signMint: (string, string) -> string)
      returns (r: Result<Option<string>>)
      modifies store
      ensures store.used == old(store.used) && store.withdrawals == old(store.withdrawals)
      ensures var d := MintAttempt(old(store.mints), request, coordinatorWallet, env, entries);
        && (d.Err? ==> r == Err(d.error) && store.mints == old(store.mints))
        && (d.Ok? && test ==> r == Ok(None) && store.mints == old(store.mints))
        && (d.Ok? && !test ==>
              && r == Ok(Some(signMint(d.value.mintAddress, Coins(d.value.amount))))
              && store.mints == UpdateMints(old(store.mints), [d.value.row]))
    {
      var data := Handlers.Validated(request, coordinatorWallet, env);
      if data.Err? {
        return Err(data.error);
      }
      var req := Handlers.MintRequestOf(data.value);
      if req.Err? {
        return Err(req.error);
      }
      var row := Handlers.MintApproval(store.mints, entries, req.value);
      if row.Err? {
        return Err(row.error);
      }
      var amount := ParseBigInt(req.value.mintAmount);
      if amount.Err? {
        return Err(amount.error);
      }
      if !test {
        var signature := signMint(req.value.mintAddress, Coins(amount.value));
        store.UpdateMintDepositAddresses([row.value]);
        r := Ok(Some(signature));
      } else {
        r := Ok(None);
      }
    }

    // -------------------------------------------------------------------
    // queryBurnHistory (authorityDaemon.js:466-489)

    /** The status of each burn of the history, by its signature. */
    method QueryBurnHistory(signatures: seq<string>) returns (r: Result<seq<Option<string>>>)
      ensures r == Statuses(store.withdrawals, signatures)
    {
      r := MapAllLoop(signatures, StatusStep(store.withdrawals));
    }

    // -------------------------------------------------------------------
    // submitWithdrawal (authorityDaemon.js:491-526)

    /** Records a withdrawal claim that passes every check, and nothing
        else. */
    method SubmitWithdrawal(request: Js.Value, verifyAddress: string -> bool,
                            getTransaction: string -> Option<SplToken.TxMessage>)
      returns (r: Result<()>)
      modifies store
      ensures store.used == old(store.used) && store.mints == old(store.mints)
      ensures var w := WithdrawalAttempt(old(store.withdrawals), request, verifyAddress, getTransaction);
        && (w.Err? ==> r == Err(w.error) && store.withdrawals == old(store.withdrawals))
        && (w.Ok? ==> r == Ok(()) && store.withdrawals == old(store.withdrawals) + [w.value])
    {
      var claim := Handlers.BurnClaimOf(request);
      if claim.Err? {
        return Err(claim.error);
      }
      var valid := verifyAddress(claim.value.burnDestination);
      var row := Handlers.WithdrawalOf(store.withdrawals, claim.value, valid, getTransaction(claim.value.burnSignature));
      if row.Err? {
        return Err(row.error);
      }
      store.RegisterWithdrawal(row.value.burnSignature, row.value.burnAmount, row.value.burnDestination);
      r := Ok(());
    }

    // -------------------------------------------------------------------
    // computePendingPayouts (authorityDaemon.js:532-604)

    /** The node's own proposal for a request signed by one of the nodes;
        `entries` is the wallet's `listreceivedbyaddress` answer. */
    method ComputePendingPayouts(request: Js.Value, env: Handlers.Envelope, entries: seq<Dingo.Received>)
      returns (r: Result<Payouts>)
      ensures r == Approval.PendingProposal(request, wallets, env, entries, store.mints, store.withdrawals)
    {
      var data := Approval.ValidatedOne(request, wallets, env);
      if data.Err? {
        return Err(data.error);
      }
      var depositTaxPayouts: seq<DepositTaxPayout> := [];
      if Approval.Truthy(Js.Get(data.value, Approval.PROCESS_DEPOSITS)) {
        var deposited := Dingo.ListReceivedByAddress(entries);
        var rows := GetMintDepositAddresses(store.mints, Some(deposited.keys));
        var collected := CollectLoop(rows, DepositTaxStep(deposited));
        if collected.Err? {
          return Err(collected.error);
        }
        depositTaxPayouts := collected.value;
      }
      var withdrawalPayouts: seq<WithdrawalPayout> := [];
      var withdrawalTaxPayouts: seq<WithdrawalPayout> := [];
      if Approval.Truthy(Js.Get(data.value, Approval.PROCESS_WITHDRAWALS)) {
        var unapproved := GetUnapprovedWithdrawals(store.withdrawals);
        withdrawalPayouts, withdrawalTaxPayouts := WithdrawalPayoutLoop(unapproved);
      }
      r := Ok(Payouts(depositTaxPayouts, withdrawalPayouts, withdrawalTaxPayouts));
    }

    // -------------------------------------------------------------------
    // computeUnspent and validateUnspent (authorityDaemon.js:705-756)

    /** The outputs of the change address and of the registered deposit
        addresses with deposits. `changeRpc` and `depositRpc` are the
        wallet's `listunspent` at the two confirmation depths. */
    method ComputeUnspent(entries: seq<Dingo.Received>, changeRpc: seq<string> -> seq<Dingo.Utxo>,
                          depositRpc: seq<string> -> seq<Dingo.Utxo>) returns (u: seq<Dingo.Utxo>)
      ensures u == Approval.Unspent(store.mints, entries, changeAddress, changeRpc, depositRpc)
    {
      var changeUtxos := Dingo.ListUnspent(Some([changeAddress]), changeRpc);
      var deposited := Dingo.ListReceivedByAddress(entries);
      var rows := GetMintDepositAddresses(store.mints, Some(deposited.keys));
      var depositUtxos := Dingo.ListUnspent(Some(Sorting.MapSeq(DepositKey, rows)), depositRpc);
      u := changeUtxos + depositUtxos;
    }

    /** Refuses a proposed output the node does not hold itself. */
    method ValidateUnspent(unspent: seq<Dingo.Utxo>, entries: seq<Dingo.Received>,
                           changeRpc: seq<string> -> seq<Dingo.Utxo>, depositRpc: seq<string> -> seq<Dingo.Utxo>)
      returns (r: Result<()>)
      ensures r == Approval.UnspentCheck(unspent, Approval.Unspent(store.mints, entries, changeAddress, changeRpc, depositRpc))
    {
      var known := ComputeUnspent(entries, changeRpc, depositRpc);
      r := UnspentCheckLoop(unspent, known);
    }

    // -------------------------------------------------------------------
    // computeVouts (authorityDaemon.js:758-825)

    /** The outputs of the payout transaction, in coins. */
    method ComputeVouts(p: Payouts, unspent: seq<Dingo.Utxo>) returns (r: Result<Dicts.Dict<string>>)
      ensures r == ComputedVouts(p, unspent, taxAddresses, changeAddress)
    {
      var raw := RawVoutsLoop(p, unspent, taxAddresses, changeAddress);
      if raw.Err? {
        return Err(raw.error);
      }
      var final := DustLoop(raw.value);
      r := Ok(final);
    }

    // -------------------------------------------------------------------
    // applyPayouts (authorityDaemon.js:827-863)

    /** Raises the approved tax of each paid deposit row, writes those rows
        back, then raises the approved amount and tax of each paid
        withdrawal and writes those back. */
    method ApplyPayouts(p: Payouts) returns (r: Result<()>)
      modifies store
      ensures store.used == old(store.used)
      ensures r == ApplyOutcome(old(store.mints), old(store.withdrawals), p)
      ensures store.mints == MintsAfter(old(store.mints), p)
      ensures store.withdrawals == WithdrawalsAfter(old(store.mints), old(store.withdrawals), p)
    {
      var byAddress := Settlement.PayoutRows(store.mints, p.depositTaxPayouts);
      var taxed := DepositTaxLoop(byAddress.vals, p.depositTaxPayouts);
      if taxed.Err? {
        return Err(taxed.error);
      }
      assert Settlement.TaxedRows(store.mints, p.depositTaxPayouts) == Ok(Dicts.Dict(byAddress.keys, taxed.value));
      store.UpdateMintDepositAddresses(Dicts.Values(Dicts.Dict(byAddress.keys, taxed.value)));
      var pairs := Settlement.PayoutPairs(p.withdrawalPayouts, p.withdrawalTaxPayouts);
      var updates := MapAllLoop(pairs, Settlement.WithdrawalStep(store.withdrawals));
      if updates.Err? {
        return Err(updates.error);
      }
      store.UpdateWithdrawals(updates.value);
      r := Ok(());
    }

    /** The checks of `makeApprovePayoutsHandler` before the signature,
        against the node's own outputs and tables. */
    method CheckedChain(req: Approval.PayoutsRequest, entries: seq<Dingo.Received>,
                        changeRpc: seq<string> -> seq<Dingo.Utxo>, depositRpc: seq<string> -> seq<Dingo.Utxo>,
                        createRaw: (seq<Dingo.Utxo>, Dicts.Dict<string>) -> string,
                        decodeRaw: string -> Result<Dingo.DecodedTx>)
      returns (r: Result<string>)
      ensures r == Approval.ChainToSign(req, Approval.Unspent(store.mints, entries, changeAddress, changeRpc, depositRpc),
                                        entries, store.mints, store.withdrawals, taxAddresses, changeAddress, createRaw, decodeRaw)
    {
      var owned := ValidateUnspent(req.unspent, entries, changeRpc, depositRpc);
      if owned.Err? {
        return Err(owned.error);
      }
      r := CheckedPayoutChain(req, entries, createRaw, decodeRaw);
    }

    /** The rest of the checks of `makeApprovePayoutsHandler`, then the
        chain to sign. */
    method CheckedPayoutChain(req: Approval.PayoutsRequest, entries: seq<Dingo.Received>,
                              createRaw: (seq<Dingo.Utxo>, Dicts.Dict<string>) -> string,
                              decodeRaw: string -> Result<Dingo.DecodedTx>)
      returns (r: Result<string>)
      ensures r == Approval.CheckedPayoutChain(req, entries, store.mints, store.withdrawals, taxAddresses, changeAddress,
                                               createRaw, decodeRaw)
    {
      var p := req.payouts;
      var unspent := req.unspent;
      var deposited := Dingo.ListReceivedByAddress(entries);
      var valid := ValidatePayouts(p, deposited, store.mints, store.withdrawals);
      if valid.Err? {
        return Err(valid.error);
      }
      var vouts := ComputeVouts(p, unspent);
      if vouts.Err? {
        return Err(vouts.error);
      }
      r := Approval.VerifiedChain(req, vouts.value, createRaw, decodeRaw);
    }

    // -------------------------------------------------------------------
    // makeApprovePayoutsHandler (authorityDaemon.js:865-925)

    /** Approves a payout proposal of the payout coordinator: checks the
        outputs, the payouts and the transaction, then signs and records
        the payouts, or in test mode returns the unsigned chain and records
        nothing. `signRaw` is the wallet's `signrawtransaction`. */
    method ApprovePayouts(request: Js.Value, env: Handlers.Envelope, entries: seq<Dingo.Received>,
                          changeRpc: seq<string> -> seq<Dingo.Utxo>, depositRpc: seq<string> -> seq<Dingo.Utxo>,
                          createRaw: (seq<Dingo.Utxo>, Dicts.Dict<string>) -> string,
                          decodeRaw: string -> Result<Dingo.DecodedTx>,
                          signRaw: string -> string, test: bool)
      returns (r: Result<string>)
      modifies store
      ensures store.used == old(store.used)
      ensures var d := Approval.PayoutDecision(request, coordinatorWallet, env,
                Approval.Unspent(old(store.mints), entries, changeAddress, changeRpc, depositRpc),
                entries, old(store.mints), old(store.withdrawals), taxAddresses, changeAddress, createRaw, decodeRaw);
        && (d.Err? ==> r == Err(d.error) && store.mints == old(store.mints) && store.withdrawals == old(store.withdrawals))
        && (d.Ok? && test ==> r == Ok(d.value.chain) && store.mints == old(store.mints) && store.withdrawals == old(store.withdrawals))
        && (d.Ok? && !test ==>
              var p := d.value.request.payouts;
              var outcome := ApplyOutcome(old(store.mints), old(store.withdrawals), p);
              && r == (if outcome.Ok? then Ok(signRaw(d.value.chain)) else Err(outcome.error))
              && store.mints == MintsAfter(old(store.mints), p)
              && store.withdrawals == WithdrawalsAfter(old(store.mints), old(store.withdrawals), p))
    {
      var data := Handlers.Validated(request, coordinatorWallet, env);
      if data.Err? {
        return Err(data.error);
      }
      var req := Approval.PayoutsRequestOf(data.value);
      if req.Err? {
        return Err(req.error);
      }
      var chain := CheckedChain(req.value, entries, changeRpc, depositRpc, createRaw, decodeRaw);
      if chain.Err? {
        return Err(chain.error);
      }
      if test {
        return Ok(chain.value);
      }
      var next := signRaw(chain.value);
      var applied := ApplyPayouts(req.value.payouts);
      if applied.Err? {
        return Err(applied.error);
      }
      r := Ok(next);
    }
  }
}
