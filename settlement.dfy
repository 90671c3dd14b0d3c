/** Recording an approved payout in the node's tables (`applyPayouts` in
    authorityDaemon.js:827-863): the deposit tax payouts raise the approved
    tax of their rows, and each withdrawal pair raises the approved amount
    and tax of its withdrawal. The tables are written in two steps, deposits
    first; a failure in the withdrawal step leaves the deposit step written. */
module Settlement {

  import opened Results
  import opened Decimal
  import Dicts
  import Sorting
  import opened Database
  import opened Accounting

  // ---------------------------------------------------------------------
  // Deposit tax payouts

  /** What reading `approvedTax` of a missing row throws. */
  const UNDEFINED_TAX: string := "TypeError: Cannot read properties of undefined (reading 'approvedTax')"

  function PayoutAddress(q: DepositTaxPayout): string {
    q.depositAddress
  }

  /** The rows the deposit step reads: those named by a payout, indexed by
      deposit address. */
  function PayoutRows(mints: seq<MintRow>, dtp: seq<DepositTaxPayout>): Dicts.Dict<MintRow> {
    RowsByDeposit(GetMintDepositAddresses(mints, Some(Sorting.MapSeq(PayoutAddress, dtp))))
  }

  /** The deposit loop of `applyPayouts`: each payout adds its amount to the
      approved tax of the row under its address. The rows are changed in
      place, so the dictionary keeps its keys and their order. */
  function ApplyDepositTaxes(rows: map<string, MintRow>, dtp: seq<DepositTaxPayout>): (r: Result<map<string, MintRow>>)
    ensures r.Ok? ==> r.value.Keys == rows.Keys
    decreases |dtp|
  {
    if |dtp| == 0 then Ok(rows)
    else
      var n := |dtp| - 1;
      var taxed :- ApplyDepositTaxes(rows, dtp[..n]);
      var address := dtp[n].depositAddress;
      var _ :- Need(address in taxed, UNDEFINED_TAX);
      var tax :- ParseBigInt(dtp[n].amount);
      Ok(taxed[address := taxed[address].(approvedTax := taxed[address].approvedTax + tax)])
  }

  /** The tax the payouts name for one address, summed. */
  function TaxFor(dtp: seq<DepositTaxPayout>, address: string): int
    decreases |dtp|
  {
    if |dtp| == 0 then 0
    else
      var n := |dtp| - 1;
      var amount := ParseBigInt(dtp[n].amount);
      TaxFor(dtp[..n], address) + if dtp[n].depositAddress == address && amount.Ok? then amount.value else 0
  }

  /** The deposit step succeeds exactly when every payout names a row and
      every amount reads. */
  lemma {:induction false} ApplyDepositTaxesOk(rows: map<string, MintRow>, dtp: seq<DepositTaxPayout>)
    ensures ApplyDepositTaxes(rows, dtp).Ok? <==>
      forall i :: 0 <= i < |dtp| ==> dtp[i].depositAddress in rows && ParseBigInt(dtp[i].amount).Ok?
    decreases |dtp|
  {
    if |dtp| > 0 {
      var n := |dtp| - 1;
      ApplyDepositTaxesOk(rows, dtp[..n]);
      assert forall i :: 0 <= i < n ==> dtp[..n][i] == dtp[i];
    }
  }

  /** After the deposit step each row has gained the sum of its payouts,
      and nothing else about it has changed. */
  lemma {:induction false} ApplyDepositTaxesRows(rows: map<string, MintRow>, dtp: seq<DepositTaxPayout>)
    requires ApplyDepositTaxes(rows, dtp).Ok?
    ensures var taxed := ApplyDepositTaxes(rows, dtp).value;
      forall k :: k in taxed ==> taxed[k] == rows[k].(approvedTax := rows[k].approvedTax + TaxFor(dtp, k))
    decreases |dtp|
  {
    if |dtp| > 0 {
      var n := |dtp| - 1;
      ApplyDepositTaxesRows(rows, dtp[..n]);
    }
  }

  /** The rows of the deposit step after its loop, still filed by address. */
  function TaxedRows(mints: seq<MintRow>, dtp: seq<DepositTaxPayout>): (r: Result<Dicts.Dict<MintRow>>)
    ensures r.Ok? ==> r.value.Valid()
  {
    var byAddress := PayoutRows(mints, dtp);
    Dicts.IndexByKeys(GetMintDepositAddresses(mints, Some(Sorting.MapSeq(PayoutAddress, dtp))), DepositKey);
    var taxed :- ApplyDepositTaxes(byAddress.vals, dtp);
    Ok(Dicts.Dict(byAddress.keys, taxed))
  }

  /** The mint table after the deposit step. */
  function AppliedMints(mints: seq<MintRow>, dtp: seq<DepositTaxPayout>): Result<seq<MintRow>> {
    var taxed :- TaxedRows(mints, dtp);
    Ok(UpdateMints(mints, Dicts.Values(taxed)))
  }

  lemma {:induction false} TaxForUnnamed(dtp: seq<DepositTaxPayout>, address: string)
    requires forall q :: 0 <= q < |dtp| ==> dtp[q].depositAddress != address
    ensures TaxFor(dtp, address) == 0
    decreases |dtp|
  {
    if |dtp| > 0 {
      var n := |dtp| - 1;
      assert forall q :: 0 <= q < n ==> dtp[..n][q] == dtp[q];
      TaxForUnnamed(dtp[..n], address);
    }
  }

  /** The rows read by the deposit step are filed under their own address. */
  lemma PayoutRowsKeyed(mints: seq<MintRow>, dtp: seq<DepositTaxPayout>)
    ensures PayoutRows(mints, dtp).Valid()
    ensures forall k :: k in PayoutRows(mints, dtp).vals ==> PayoutRows(mints, dtp).vals[k].depositAddress == k
  {
    var rows := GetMintDepositAddresses(mints, Some(Sorting.MapSeq(PayoutAddress, dtp)));
    Dicts.IndexByKeys(rows, DepositKey);
    forall k | k in PayoutRows(mints, dtp).vals
      ensures PayoutRows(mints, dtp).vals[k].depositAddress == k
    {
      Dicts.IndexByLast(rows, DepositKey, k);
    }
  }

  /** The address filter of the deposit step lists the payouts' addresses. */
  lemma PayoutAddressesNamed(dtp: seq<DepositTaxPayout>, k: string)
    ensures k in Sorting.MapSeq(PayoutAddress, dtp) <==> exists q :: 0 <= q < |dtp| && dtp[q].depositAddress == k
  {
    var addresses := Sorting.MapSeq(PayoutAddress, dtp);
    assert forall q :: 0 <= q < |dtp| ==> addresses[q] == PayoutAddress(dtp[q]);
  }

  /** With one row per address, a row named by a payout is the one the
      deposit step reads for its address; an unnamed row is not read. */
  lemma PayoutRowsHold(mints: seq<MintRow>, dtp: seq<DepositTaxPayout>, i: int)
    requires DistinctDepositAddresses(mints)
    requires 0 <= i < |mints|
    ensures var k := mints[i].depositAddress;
      && (k in PayoutRows(mints, dtp).vals <==> exists q :: 0 <= q < |dtp| && dtp[q].depositAddress == k)
      && (k in PayoutRows(mints, dtp).vals ==> PayoutRows(mints, dtp).vals[k] == mints[i])
  {
    var k := mints[i].depositAddress;
    var addresses := Sorting.MapSeq(PayoutAddress, dtp);
    var rows := GetMintDepositAddresses(mints, Some(addresses));
    Dicts.IndexByKeys(rows, DepositKey);
    PayoutAddressesNamed(dtp, k);
    if k in addresses {
      PayoutRowNamed(mints, dtp, i);
    } else {
      forall j | 0 <= j < |rows| ensures DepositKey(rows[j]) != k {
        assert rows[j] in rows;
      }
    }
  }

  lemma PayoutRowNamed(mints: seq<MintRow>, dtp: seq<DepositTaxPayout>, i: int)
    requires DistinctDepositAddresses(mints)
    requires 0 <= i < |mints|
    requires mints[i].depositAddress in Sorting.MapSeq(PayoutAddress, dtp)
    ensures mints[i].depositAddress in PayoutRows(mints, dtp).vals
    ensures PayoutRows(mints, dtp).vals[mints[i].depositAddress] == mints[i]
  {
    var k := mints[i].depositAddress;
    var rows := GetMintDepositAddresses(mints, Some(Sorting.MapSeq(PayoutAddress, dtp)));
    Dicts.IndexByKeys(rows, DepositKey);
    assert mints[i] in rows;
    var j :| 0 <= j < |rows| && rows[j] == mints[i];
    assert DepositKey(rows[j]) == k;
    Dicts.IndexByLast(rows, DepositKey, k);
    var l :| Dicts.IsLastWithKey(rows, DepositKey, l, k) && rows[l] == PayoutRows(mints, dtp).vals[k];
    assert rows[l] in mints;
  }

  /** The mint table after the deposit step succeeds exactly when every
      payout names a registered address and carries a readable amount. */
  lemma AppliedMintsOk(mints: seq<MintRow>, dtp: seq<DepositTaxPayout>)
    requires DistinctDepositAddresses(mints)
    ensures AppliedMints(mints, dtp).Ok? <==>
      forall q :: 0 <= q < |dtp| ==>
        (exists i :: 0 <= i < |mints| && mints[i].depositAddress == dtp[q].depositAddress) && ParseBigInt(dtp[q].amount).Ok?
  {
    var byAddress := PayoutRows(mints, dtp);
    ApplyDepositTaxesOk(byAddress.vals, dtp);
    forall q | 0 <= q < |dtp|
      ensures dtp[q].depositAddress in byAddress.vals <==> exists i :: 0 <= i < |mints| && mints[i].depositAddress == dtp[q].depositAddress
    {
      var k := dtp[q].depositAddress;
      if k in byAddress.vals {
        PayoutRowsKeyed(mints, dtp);
        var rows := GetMintDepositAddresses(mints, Some(Sorting.MapSeq(PayoutAddress, dtp)));
        Dicts.IndexByKeys(rows, DepositKey);
        var j :| 0 <= j < |rows| && DepositKey(rows[j]) == k;
        assert rows[j] in rows;
        var i :| 0 <= i < |mints| && mints[i] == rows[j];
      }
      if exists i :: 0 <= i < |mints| && mints[i].depositAddress == k {
        var i :| 0 <= i < |mints| && mints[i].depositAddress == k;
        PayoutRowsHold(mints, dtp, i);
      }
    }
  }

  /** Each taxed row is written back under its own address. */
  lemma TaxedRowsKeyed(mints: seq<MintRow>, dtp: seq<DepositTaxPayout>)
    requires TaxedRows(mints, dtp).Ok?
    ensures var d := TaxedRows(mints, dtp).value;
      && d.keys == PayoutRows(mints, dtp).keys
      && forall m :: 0 <= m < |Dicts.Values(d)| ==> Dicts.Values(d)[m].depositAddress == d.keys[m]
    ensures var d := TaxedRows(mints, dtp).value;
      forall k :: k in d.vals ==>
        d.vals[k] == PayoutRows(mints, dtp).vals[k].(approvedTax := PayoutRows(mints, dtp).vals[k].approvedTax + TaxFor(dtp, k))
  {
    PayoutRowsKeyed(mints, dtp);
    ApplyDepositTaxesRows(PayoutRows(mints, dtp).vals, dtp);
  }

  /** A row the deposit step read takes the taxed copy written back. */
  lemma AppliedNamedRow(mints: seq<MintRow>, dtp: seq<DepositTaxPayout>, i: int)
    requires AppliedMints(mints, dtp).Ok?
    requires 0 <= i < |mints|
    requires mints[i].depositAddress in TaxedRows(mints, dtp).value.vals
    ensures |AppliedMints(mints, dtp).value| == |mints|
    ensures var k := mints[i].depositAddress;
      var read := PayoutRows(mints, dtp).vals[k];
      AppliedMints(mints, dtp).value[i] == mints[i].(approvedAmount := read.approvedAmount, approvedTax := read.approvedTax + TaxFor(dtp, k))
  {
    var d := TaxedRows(mints, dtp).value;
    var updates := Dicts.Values(d);
    TaxedRowsKeyed(mints, dtp);
    var k := mints[i].depositAddress;
    var m :| 0 <= m < |d.keys| && d.keys[m] == k;
    assert updates[m] == d.vals[k];
    assert forall l :: m < l < |updates| ==> updates[l].depositAddress != k;
    UpdateMintsLast(mints, updates, i, m);
  }

  /** A row the deposit step did not read is left as it was. */
  lemma AppliedUnnamedRow(mints: seq<MintRow>, dtp: seq<DepositTaxPayout>, i: int)
    requires AppliedMints(mints, dtp).Ok?
    requires 0 <= i < |mints|
    requires mints[i].depositAddress !in TaxedRows(mints, dtp).value.vals
    ensures |AppliedMints(mints, dtp).value| == |mints|
    ensures AppliedMints(mints, dtp).value[i] == mints[i]
  {
    var d := TaxedRows(mints, dtp).value;
    var updates := Dicts.Values(d);
    TaxedRowsKeyed(mints, dtp);
    assert forall m :: 0 <= m < |updates| ==> updates[m].depositAddress != mints[i].depositAddress;
    UpdateMintsUnmatched(mints, updates, i);
  }

  /** One row of the mint table after the deposit step. */
  lemma AppliedMintRow(mints: seq<MintRow>, dtp: seq<DepositTaxPayout>, i: int)
    requires DistinctDepositAddresses(mints)
    requires AppliedMints(mints, dtp).Ok?
    requires 0 <= i < |mints|
    ensures |AppliedMints(mints, dtp).value| == |mints|
    ensures AppliedMints(mints, dtp).value[i] ==
      mints[i].(approvedTax := mints[i].approvedTax + TaxFor(dtp, mints[i].depositAddress))
  {
    var k := mints[i].depositAddress;
    PayoutRowsHold(mints, dtp, i);
    TaxedRowsKeyed(mints, dtp);
    if k in TaxedRows(mints, dtp).value.vals {
      AppliedNamedRow(mints, dtp, i);
    } else {
      AppliedUnnamedRow(mints, dtp, i);
      TaxForUnnamed(dtp, k);
    }
  }

  /** With one row per address, the deposit step adds to each row's approved
      tax the sum of the payouts naming it, and changes nothing else. */
  lemma AppliedMintsSpec(mints: seq<MintRow>, dtp: seq<DepositTaxPayout>)
    requires DistinctDepositAddresses(mints)
    requires AppliedMints(mints, dtp).Ok?
    ensures var r := AppliedMints(mints, dtp).value;
      && |r| == |mints|
      && forall i :: 0 <= i < |mints| ==>
        r[i] == mints[i].(approvedTax := mints[i].approvedTax + TaxFor(dtp, mints[i].depositAddress))
  {
    UpdateMintsSpec(mints, Dicts.Values(TaxedRows(mints, dtp).value));
    forall i | 0 <= i < |mints|
      ensures AppliedMints(mints, dtp).value[i] ==
        mints[i].(approvedTax := mints[i].approvedTax + TaxFor(dtp, mints[i].depositAddress))
    {
      AppliedMintRow(mints, dtp, i);
    }
  }

  // ---------------------------------------------------------------------
  // Withdrawal payouts

  /** What reading a counter of a missing withdrawal throws. */
  const NULL_WITHDRAWAL: string := "TypeError: Cannot read properties of null (reading 'approvedAmount')"

  /** What reading the amount of a missing tax payout throws. */
  const UNDEFINED_AMOUNT: string := "TypeError: Cannot read properties of undefined (reading 'amount')"

  /** `withdrawalTaxPayouts[i]`, which is `undefined` past its end. */
  function TaxPayoutAt(wtp: seq<WithdrawalPayout>, i: int): Option<WithdrawalPayout> {
    if 0 <= i < |wtp| then Some(wtp[i]) else None
  }

  /** One step of the withdrawal loop: the stored row for the burn, with the
      payout added to its approved amount and the tax payout to its tax. */
  function WithdrawalUpdate(withdrawals: seq<WithdrawalRow>, p: WithdrawalPayout, t: Option<WithdrawalPayout>): (r: Result<WithdrawalRow>)
    ensures r.Ok? ==> r.value.burnSignature == p.burnSignature
  {
    var found :- GetWithdrawal(withdrawals, p.burnSignature);
    var _ :- Need(found.Some?, NULL_WITHDRAWAL);
    var w := found.value;
    var amount :- ParseBigInt(p.amount);
    var _ :- Need(t.Some?, UNDEFINED_AMOUNT);
    var tax :- ParseBigInt(t.value.amount);
    Ok(w.(approvedAmount := w.approvedAmount + amount, approvedTax := w.approvedTax + tax))
  }

  /** Payout `i` beside the tax payout at the same index. */
  function PayoutPairs(wp: seq<WithdrawalPayout>, wtp: seq<WithdrawalPayout>): seq<(WithdrawalPayout, Option<WithdrawalPayout>)> {
    seq(|wp|, i requires 0 <= i < |wp| => (wp[i], TaxPayoutAt(wtp, i)))
  }

  function WithdrawalStep(withdrawals: seq<WithdrawalRow>): ((WithdrawalPayout, Option<WithdrawalPayout>)) -> Result<WithdrawalRow> {
    (q: (WithdrawalPayout, Option<WithdrawalPayout>)) => WithdrawalUpdate(withdrawals, q.0, q.1)
  }

  /** The rows pushed by the withdrawal loop, one per payout, each read from
      the table as it was before the loop. */
  function WithdrawalUpdates(withdrawals: seq<WithdrawalRow>, wp: seq<WithdrawalPayout>, wtp: seq<WithdrawalPayout>): Result<seq<WithdrawalRow>> {
    MapAll(PayoutPairs(wp, wtp), WithdrawalStep(withdrawals))
  }

  /** The loop pushes the step of every payout, in order, or fails. */
  lemma WithdrawalUpdatesEach(withdrawals: seq<WithdrawalRow>, wp: seq<WithdrawalPayout>, wtp: seq<WithdrawalPayout>)
    ensures WithdrawalUpdates(withdrawals, wp, wtp).Ok? <==>
      forall i :: 0 <= i < |wp| ==> WithdrawalUpdate(withdrawals, wp[i], TaxPayoutAt(wtp, i)).Ok?
    ensures WithdrawalUpdates(withdrawals, wp, wtp).Ok? ==>
      && |WithdrawalUpdates(withdrawals, wp, wtp).value| == |wp|
      && forall i :: 0 <= i < |wp| ==>
        WithdrawalUpdate(withdrawals, wp[i], TaxPayoutAt(wtp, i)) == Ok(WithdrawalUpdates(withdrawals, wp, wtp).value[i])
  {
    var pairs := PayoutPairs(wp, wtp);
    var step := WithdrawalStep(withdrawals);
    MapAllSpec(pairs, step);
    assert forall i :: 0 <= i < |wp| ==> step(pairs[i]) == WithdrawalUpdate(withdrawals, wp[i], TaxPayoutAt(wtp, i));
  }

  /** The withdrawal table after the withdrawal step. */
  function AppliedWithdrawals(withdrawals: seq<WithdrawalRow>, wp: seq<WithdrawalPayout>, wtp: seq<WithdrawalPayout>): Result<seq<WithdrawalRow>> {
    var updates :- WithdrawalUpdates(withdrawals, wp, wtp);
    Ok(UpdateWithdrawalRows(withdrawals, updates))
  }

  /** A withdrawal step succeeds exactly when every payout names one stored
      withdrawal, has a tax payout at its index, and both amounts read. */
  lemma WithdrawalUpdateOk(withdrawals: seq<WithdrawalRow>, p: WithdrawalPayout, t: Option<WithdrawalPayout>)
    ensures WithdrawalUpdate(withdrawals, p, t).Ok? <==>
      && (exists j :: 0 <= j < |withdrawals| && OnlyWithdrawal(withdrawals, j, p.burnSignature))
      && ParseBigInt(p.amount).Ok? && t.Some? && ParseBigInt(t.value.amount).Ok?
  {
    var found := GetWithdrawal(withdrawals, p.burnSignature);
    if found.Ok? && found.value.Some? {
      var w := found.value.value;
      var j :| 0 <= j < |withdrawals| && withdrawals[j] == w;
      assert OnlyWithdrawal(withdrawals, j, p.burnSignature);
    }
    if exists j :: 0 <= j < |withdrawals| && OnlyWithdrawal(withdrawals, j, p.burnSignature) {
      var j :| 0 <= j < |withdrawals| && OnlyWithdrawal(withdrawals, j, p.burnSignature);
      assert withdrawals[j].burnSignature == p.burnSignature;
    }
  }

  /** A successful step adds both amounts to the one stored row. */
  lemma WithdrawalUpdateRow(withdrawals: seq<WithdrawalRow>, p: WithdrawalPayout, t: Option<WithdrawalPayout>, j: int)
    requires WithdrawalUpdate(withdrawals, p, t).Ok?
    requires 0 <= j < |withdrawals| && withdrawals[j].burnSignature == p.burnSignature
    ensures WithdrawalUpdate(withdrawals, p, t).value ==
      withdrawals[j].(approvedAmount := withdrawals[j].approvedAmount + ParseBigInt(p.amount).value,
                      approvedTax := withdrawals[j].approvedTax + ParseBigInt(t.value.amount).value)
  {
    var found := GetWithdrawal(withdrawals, p.burnSignature);
    var w := found.value.value;
    var k :| 0 <= k < |withdrawals| && withdrawals[k] == w;
    assert withdrawals[k].burnSignature == withdrawals[j].burnSignature;
  }

  /** The pushed rows are the payouts' burns, in payout order. */
  lemma WithdrawalUpdatesNamed(withdrawals: seq<WithdrawalRow>, wp: seq<WithdrawalPayout>, wtp: seq<WithdrawalPayout>)
    requires WithdrawalUpdates(withdrawals, wp, wtp).Ok?
    ensures var updates := WithdrawalUpdates(withdrawals, wp, wtp).value;
      forall l :: 0 <= l < |updates| ==> updates[l].burnSignature == wp[l].burnSignature
  {
    WithdrawalUpdatesEach(withdrawals, wp, wtp);
  }

  /** `withdrawalPayouts[i]` is the last payout for burn `s`. */
  predicate LastPayoutFor(wp: seq<WithdrawalPayout>, i: int, s: string) {
    && 0 <= i < |wp|
    && wp[i].burnSignature == s
    && forall l :: i < l < |wp| ==> wp[l].burnSignature != s
  }

  /** After the withdrawal step a row named by a payout carries its stored
      counters plus the amounts of the LAST payout naming it: every update
      starts from the row as it was before the step, so an earlier payout
      for the same burn is overwritten. A row no payout names is left as
      it was. */
  lemma AppliedWithdrawalRow(withdrawals: seq<WithdrawalRow>, wp: seq<WithdrawalPayout>, wtp: seq<WithdrawalPayout>, j: int, i: int)
    requires AppliedWithdrawals(withdrawals, wp, wtp).Ok?
    requires 0 <= j < |withdrawals|
    requires LastPayoutFor(wp, i, withdrawals[j].burnSignature)
    ensures |AppliedWithdrawals(withdrawals, wp, wtp).value| == |withdrawals|
    ensures ParseBigInt(wp[i].amount).Ok? && i < |wtp| && ParseBigInt(wtp[i].amount).Ok?
    ensures AppliedWithdrawals(withdrawals, wp, wtp).value[j] ==
      withdrawals[j].(approvedAmount := withdrawals[j].approvedAmount + ParseBigInt(wp[i].amount).value,
                      approvedTax := withdrawals[j].approvedTax + ParseBigInt(wtp[i].amount).value)
  {
    var updates := WithdrawalUpdates(withdrawals, wp, wtp).value;
    WithdrawalUpdatesAt(withdrawals, wp, wtp, j, i);
    WithdrawalUpdatesNamed(withdrawals, wp, wtp);
    UpdateWithdrawalsLast(withdrawals, updates, j, i);
  }

  /** The row pushed for payout `i` is stored row `j` with both amounts added. */
  lemma WithdrawalUpdatesAt(withdrawals: seq<WithdrawalRow>, wp: seq<WithdrawalPayout>, wtp: seq<WithdrawalPayout>, j: int, i: int)
    requires WithdrawalUpdates(withdrawals, wp, wtp).Ok?
    requires 0 <= j < |withdrawals| && 0 <= i < |wp| && wp[i].burnSignature == withdrawals[j].burnSignature
    ensures ParseBigInt(wp[i].amount).Ok? && i < |wtp| && ParseBigInt(wtp[i].amount).Ok?
    ensures WithdrawalUpdates(withdrawals, wp, wtp).value[i] ==
      withdrawals[j].(approvedAmount := withdrawals[j].approvedAmount + ParseBigInt(wp[i].amount).value,
                      approvedTax := withdrawals[j].approvedTax + ParseBigInt(wtp[i].amount).value)
  {
    WithdrawalUpdatesEach(withdrawals, wp, wtp);
    WithdrawalUpdateOk(withdrawals, wp[i], TaxPayoutAt(wtp, i));
    WithdrawalUpdateRow(withdrawals, wp[i], TaxPayoutAt(wtp, i), j);
  }

  lemma AppliedWithdrawalUnnamed(withdrawals: seq<WithdrawalRow>, wp: seq<WithdrawalPayout>, wtp: seq<WithdrawalPayout>, j: int)
    requires AppliedWithdrawals(withdrawals, wp, wtp).Ok?
    requires 0 <= j < |withdrawals|
    requires forall i :: 0 <= i < |wp| ==> wp[i].burnSignature != withdrawals[j].burnSignature
    ensures |AppliedWithdrawals(withdrawals, wp, wtp).value| == |withdrawals|
    ensures AppliedWithdrawals(withdrawals, wp, wtp).value[j] == withdrawals[j]
  {
    var updates := WithdrawalUpdates(withdrawals, wp, wtp).value;
    WithdrawalUpdatesNamed(withdrawals, wp, wtp);
    UpdateWithdrawalsUnmatched(withdrawals, updates, j);
  }

  /** Payout `i` names exactly one stored burn, has a tax payout at its
      index, and both amounts read. */
  predicate PayoutRecordable(withdrawals: seq<WithdrawalRow>, wp: seq<WithdrawalPayout>, wtp: seq<WithdrawalPayout>, i: int)
    requires 0 <= i < |wp|
  {
    && (exists j :: 0 <= j < |withdrawals| && OnlyWithdrawal(withdrawals, j, wp[i].burnSignature))
    && ParseBigInt(wp[i].amount).Ok? && i < |wtp| && ParseBigInt(wtp[i].amount).Ok?
  }

  /** The withdrawal step succeeds exactly when every payout can be recorded. */
  lemma AppliedWithdrawalsOk(withdrawals: seq<WithdrawalRow>, wp: seq<WithdrawalPayout>, wtp: seq<WithdrawalPayout>)
    ensures AppliedWithdrawals(withdrawals, wp, wtp).Ok? <==>
      forall i :: 0 <= i < |wp| ==> PayoutRecordable(withdrawals, wp, wtp, i)
  {
    WithdrawalUpdatesEach(withdrawals, wp, wtp);
    forall i | 0 <= i < |wp|
      ensures WithdrawalUpdate(withdrawals, wp[i], TaxPayoutAt(wtp, i)).Ok? <==> PayoutRecordable(withdrawals, wp, wtp, i)
    {
      WithdrawalUpdateOk(withdrawals, wp[i], TaxPayoutAt(wtp, i));
    }
  }
}
