/** The amounts the authority node works with (authorityDaemon.js): the
    thresholds, the 1% tax, what a deposit address may still mint or pay
    in tax, the check of a proposed payout, the outputs of the payout
    transaction, and the counters that an approved payout writes back.

    Every amount is satoshi held as a BigInt; the payloads carry them as
    decimal strings. Everything here is a function of what the node reads:
    the `listreceivedbyaddress` entries and the table contents. */
module Accounting {

  import opened Results
  import Js
  import opened Decimal
  import Dicts
  import Sorting
  import Dingo
  import opened Database

  // ---------------------------------------------------------------------
  // Constants and the tax split (authorityDaemon.js:30-44)

  /** `toSatoshi("100000")`: the least amount worth minting or withdrawing. */
  const AMOUNT_THRESHOLD: int := 10_000_000_000_000
  /** `toSatoshi("1")`: outputs below it are dropped. */
  const DUST_THRESHOLD: int := 100_000_000
  /** `toSatoshi("20")`, charged once per deposit and per withdrawal paid. */
  const PAYOUT_NETWORK_FEE_PER_TX: int := 2_000_000_000

  const INSUFFICIENT_FUNDS: string := "Insufficient funds"

  /** The three constants are the satoshi of 100000, 1 and 20 coins. */
  lemma ThresholdInSatoshi()
    ensures Dingo.Sat("100000") == Ok(IntToString(AMOUNT_THRESHOLD))
  {
    HundredThousandShown();
    Dingo.ToSatoshiOfCoins(100000);
  }

  lemma HundredThousandShown()
    ensures IntToString(100000) == "100000"
  {
    assert NatToString(10) == "10";
    assert NatToString(100) == "100";
    assert NatToString(1000) == NatToString(100) + "0";
    assert NatToString(10000) == NatToString(1000) + "0";
    assert NatToString(100000) == NatToString(10000) + "0";
  }

  lemma DustInSatoshi()
    ensures Dingo.Sat("1") == Ok(IntToString(DUST_THRESHOLD))
  {
    Dingo.ToSatoshiOfCoins(1);
    assert IntToString(1) == "1";
  }

  lemma FeeInSatoshi()
    ensures Dingo.Sat("20") == Ok(IntToString(PAYOUT_NETWORK_FEE_PER_TX))
  {
    Dingo.ToSatoshiOfCoins(20);
    assert IntToString(20) == "20";
  }

  predicate MeetsThreshold(x: int) {
    x >= AMOUNT_THRESHOLD
  }

  /** `taxAmount(x)`: one hundredth, truncated toward zero. */
  function TaxAmount(x: int): int {
    TruncDiv(x, 100)
  }

  /** `amountAfterTax(x)`: what is left once the tax is taken. */
  function AmountAfterTax(x: int): int {
    x - TruncDiv(x, 100)
  }

  /** The tax and the rest make up the amount; on a non-negative amount the
      tax is the floor of one percent and never exceeds the rest. */
  lemma TaxSplit(x: int)
    ensures TaxAmount(x) + AmountAfterTax(x) == x
    ensures x >= 0 ==> 100 * TaxAmount(x) <= x < 100 * TaxAmount(x) + 100
    ensures x >= 0 ==> 0 <= TaxAmount(x) <= AmountAfterTax(x)
  {
  }

  /** `BigInt(dingo.toSatoshi(s))`: coins read as satoshi. */
  function Satoshi(amount: string): (r: Result<int>)
    ensures r.Ok? <==> Dingo.Sat(amount).Ok?
    ensures r.Ok? ==> Dingo.Sat(amount) == Ok(IntToString(r.value))
    ensures r.Err? ==> r.error == Dingo.Sat(amount).error
  {
    if amount == "" then Err("Expected string input")
    else
      var gwei :- DecimalToGwei(amount);
      Ok(TruncDiv(gwei, 10))
  }

  /** A whole number of coins reads as that many times 10^8 satoshi. */
  lemma SatoshiOfCoins(n: int)
    ensures Satoshi(IntToString(n)) == Ok(n * Dingo.COIN)
  {
    Dingo.ToSatoshiOfCoins(n);
    IntToStringInjective(Satoshi(IntToString(n)).value, n * Dingo.COIN);
  }

  // ---------------------------------------------------------------------
  // Loops that may throw

  /** `for (const x of xs) { ...; if (...) out.push(y); }` where `f` is one
      step: an error stops the loop, `Some(y)` pushes `y`. */
  function Collect<A, B>(xs: seq<A>, f: A -> Result<Option<B>>): Result<seq<B>>
    decreases |xs|
  {
    if |xs| == 0 then Ok([])
    else
      var init :- Collect(xs[..|xs| - 1], f);
      var last :- f(xs[|xs| - 1]);
      Ok(init + if last.Some? then [last.value] else [])
  }

  /** The loop succeeds when every step does, and then pushes exactly the
      values of the steps that push; otherwise it fails with the error of
      the first step that fails. */
  lemma {:induction false} CollectSpec<A, B>(xs: seq<A>, f: A -> Result<Option<B>>)
    ensures Collect(xs, f).Ok? <==> forall i :: 0 <= i < |xs| ==> f(xs[i]).Ok?
    ensures Collect(xs, f).Ok? ==>
      forall y :: y in Collect(xs, f).value <==> exists i :: 0 <= i < |xs| && f(xs[i]) == Ok(Some(y))
    ensures Collect(xs, f).Err? ==>
      exists i :: 0 <= i < |xs| && f(xs[i]).Err? && Collect(xs, f).error == f(xs[i]).error &&
        forall j :: 0 <= j < i ==> f(xs[j]).Ok?
    decreases |xs|
  {
    if |xs| > 0 {
      var n := |xs| - 1;
      var init := xs[..n];
      CollectSpec(init, f);
      assert forall i :: 0 <= i < n ==> init[i] == xs[i];
      if Collect(init, f).Err? {
        var i :| 0 <= i < |init| && f(init[i]).Err? && Collect(init, f).error == f(init[i]).error &&
          forall j :: 0 <= j < i ==> f(init[j]).Ok?;
        assert f(xs[i]).Err?;
      } else if f(xs[n]).Err? {
        assert forall j :: 0 <= j < n ==> f(xs[j]).Ok?;
      }
    }
  }

  /** One more step of the loop. */
  lemma CollectStep<A, B>(xs: seq<A>, i: nat, f: A -> Result<Option<B>>)
    requires i < |xs|
    requires Collect(xs[..i], f).Ok?
    ensures f(xs[i]).Err? ==> Collect(xs[..i + 1], f) == Err(f(xs[i]).error)
    ensures f(xs[i]).Ok? ==>
      Collect(xs[..i + 1], f) == Ok(Collect(xs[..i], f).value + if f(xs[i]).value.Some? then [f(xs[i]).value.value] else [])
  {
    assert xs[..i + 1][..i] == xs[..i];
  }

  /** Once a step has failed, the rest of the loop does not run. */
  lemma {:induction false} CollectStopped<A, B>(xs: seq<A>, k: nat, f: A -> Result<Option<B>>)
    requires k <= |xs|
    requires Collect(xs[..k], f).Err?
    ensures Collect(xs, f) == Collect(xs[..k], f)
    decreases |xs|
  {
    if k == |xs| {
      assert xs[..k] == xs;
    } else {
      var n := |xs| - 1;
      assert xs[..n][..k] == xs[..k];
      CollectStopped(xs[..n], k, f);
    }
  }

  /** `for (const x of xs) out.push(f(x));` where a step may throw. */
  function MapAll<A, B>(xs: seq<A>, f: A -> Result<B>): (r: Result<seq<B>>)
    ensures r.Ok? ==> |r.value| == |xs|
    decreases |xs|
  {
    if |xs| == 0 then Ok([])
    else
      var init :- MapAll(xs[..|xs| - 1], f);
      var last :- f(xs[|xs| - 1]);
      Ok(init + [last])
  }

  /** The loop succeeds exactly when every step does, and then pushes the
      value of each step in order. */
  lemma {:induction false} MapAllSpec<A, B>(xs: seq<A>, f: A -> Result<B>)
    ensures MapAll(xs, f).Ok? <==> forall i :: 0 <= i < |xs| ==> f(xs[i]).Ok?
    ensures MapAll(xs, f).Ok? ==> forall i :: 0 <= i < |xs| ==> f(xs[i]) == Ok(MapAll(xs, f).value[i])
    decreases |xs|
  {
    if |xs| > 0 {
      var n := |xs| - 1;
      var init := xs[..n];
      MapAllSpec(init, f);
      assert forall i :: 0 <= i < n ==> init[i] == xs[i];
      if MapAll(xs, f).Ok? {
        var r := MapAll(xs, f).value;
        assert forall i :: 0 <= i < n ==> r[i] == MapAll(init, f).value[i];
      }
    }
  }

  lemma MapAllStep<A, B>(xs: seq<A>, i: nat, f: A -> Result<B>)
    requires i < |xs|
    requires MapAll(xs[..i], f).Ok?
    ensures f(xs[i]).Err? ==> MapAll(xs[..i + 1], f) == Err(f(xs[i]).error)
    ensures f(xs[i]).Ok? ==> MapAll(xs[..i + 1], f) == Ok(MapAll(xs[..i], f).value + [f(xs[i]).value])
  {
    assert xs[..i + 1][..i] == xs[..i];
  }

  lemma {:induction false} MapAllStopped<A, B>(xs: seq<A>, k: nat, f: A -> Result<B>)
    requires k <= |xs|
    requires MapAll(xs[..k], f).Err?
    ensures MapAll(xs, f) == MapAll(xs[..k], f)
    decreases |xs|
  {
    if k == |xs| {
      assert xs[..k] == xs;
    } else {
      var n := |xs| - 1;
      assert xs[..n][..k] == xs[..k];
      MapAllStopped(xs[..n], k, f);
    }
  }

  /** `for (const x of xs) check(x);` */
  function Every<A>(xs: seq<A>, check: A -> Result<()>): Result<()>
    decreases |xs|
  {
    if |xs| == 0 then Ok(())
    else
      var _ :- check(xs[0]);
      Every(xs[1..], check)
  }

  /** The checks all pass, or the first that fails gives the error. */
  lemma {:induction false} EverySpec<A>(xs: seq<A>, check: A -> Result<()>)
    ensures Every(xs, check).Ok? <==> forall i :: 0 <= i < |xs| ==> check(xs[i]).Ok?
    ensures Every(xs, check).Err? ==>
      exists i :: 0 <= i < |xs| && check(xs[i]).Err? && Every(xs, check).error == check(xs[i]).error && forall j :: 0 <= j < i ==> check(xs[j]).Ok?
    decreases |xs|
  {
    if |xs| > 0 {
      EverySpec(xs[1..], check);
      if check(xs[0]).Ok? && Every(xs[1..], check).Err? {
        var i :| 0 <= i < |xs[1..]| && check(xs[1..][i]).Err? && Every(xs[1..], check).error == check(xs[1..][i]).error && forall j :: 0 <= j < i ==> check(xs[1..][j]).Ok?;
        assert check(xs[i + 1]).Err?;
        assert forall j :: 1 <= j < i + 1 ==> xs[j] == xs[1..][j - 1];
      }
      assert forall i :: 1 <= i < |xs| ==> xs[i] == xs[1..][i - 1];
    }
  }

  /** `BigInt(x.amount)` summed: `reduce((a, b) => a + BigInt(b.amount), 0n)`. */
  function SumAmounts(amounts: seq<string>): Result<int>
    decreases |amounts|
  {
    if |amounts| == 0 then Ok(0)
    else
      var init :- SumAmounts(amounts[..|amounts| - 1]);
      var last :- ParseBigInt(amounts[|amounts| - 1]);
      Ok(init + last)
  }

  // ---------------------------------------------------------------------
  // Pending mints (authorityDaemon.js:366-394)

  /** One entry of `pendingMint`; the amounts are decimal strings. */
  datatype PendingMint = PendingMint(mintAddress: string, depositAddress: string,
                                     approvedAmount: string, mintAmount: string)

  /** `toSatoshi(deposited[address].amount.toString())` as a BigInt; reading
      the amount of an address with no entry is a TypeError. */
  function DepositedSatoshi(deposited: Dicts.Dict<Dingo.Received>, address: string): (r: Result<int>)
    ensures address !in deposited.vals ==> r.Err?
    ensures address in deposited.vals ==> r == Satoshi(deposited.vals[address].amount)
  {
    if address in deposited.vals then Satoshi(deposited.vals[address].amount)
    else Err("TypeError: Cannot read properties of undefined (reading 'amount')")
  }

  /** What a registered deposit address may still mint: its deposits after
      tax less what was already approved. */
  function Mintable(deposited: Dicts.Dict<Dingo.Received>, a: MintRow): Result<int> {
    var depositedAmount :- DepositedSatoshi(deposited, a.depositAddress);
    Ok(AmountAfterTax(depositedAmount) - a.approvedAmount)
  }

  /** One step of the `computePendingMint` loop. */
  function PendingMintOf(deposited: Dicts.Dict<Dingo.Received>, a: MintRow): Result<Option<PendingMint>> {
    var mintable :- Mintable(deposited, a);
    if MeetsThreshold(mintable) then
      Ok(Some(PendingMint(a.mintAddress, a.depositAddress, IntToString(a.approvedAmount), IntToString(mintable))))
    else Ok(None)
  }

  function PendingStep(deposited: Dicts.Dict<Dingo.Received>): MintRow -> Result<Option<PendingMint>> {
    (a: MintRow) => PendingMintOf(deposited, a)
  }

  /** The `pendingMint` list of `computePendingMint` over the given rows. */
  function PendingMints(deposited: Dicts.Dict<Dingo.Received>, rows: seq<MintRow>): Result<seq<PendingMint>> {
    Collect(rows, PendingStep(deposited))
  }

  /** The pending mints are exactly the rows that may still mint at least
      the threshold, each with that amount. */
  lemma PendingMintsSpec(deposited: Dicts.Dict<Dingo.Received>, rows: seq<MintRow>)
    ensures PendingMints(deposited, rows).Ok? <==> forall i :: 0 <= i < |rows| ==> Mintable(deposited, rows[i]).Ok?
    ensures PendingMints(deposited, rows).Ok? ==> forall i :: 0 <= i < |rows| && MeetsThreshold(Mintable(deposited, rows[i]).value) ==>
      PendingMint(rows[i].mintAddress, rows[i].depositAddress, IntToString(rows[i].approvedAmount),
                  IntToString(Mintable(deposited, rows[i]).value)) in PendingMints(deposited, rows).value
    ensures PendingMints(deposited, rows).Ok? ==> forall p :: p in PendingMints(deposited, rows).value ==>
      exists i :: && 0 <= i < |rows|
                  && p.mintAddress == rows[i].mintAddress && p.depositAddress == rows[i].depositAddress
                  && p.approvedAmount == IntToString(rows[i].approvedAmount)
                  && MeetsThreshold(Mintable(deposited, rows[i]).value)
                  && p.mintAmount == IntToString(Mintable(deposited, rows[i]).value)
  {
    PendingMintsOk(deposited, rows);
    if PendingMints(deposited, rows).Ok? {
      PendingMintsComplete(deposited, rows);
      PendingMintsSound(deposited, rows);
    }
  }

  /** One step of `computePendingMint`, spelled out. */
  lemma PendingMintOfSpec(deposited: Dicts.Dict<Dingo.Received>, a: MintRow)
    ensures PendingMintOf(deposited, a).Ok? <==> Mintable(deposited, a).Ok?
    ensures PendingMintOf(deposited, a).Ok? && MeetsThreshold(Mintable(deposited, a).value) ==>
      PendingMintOf(deposited, a) == Ok(Some(PendingMint(a.mintAddress, a.depositAddress, IntToString(a.approvedAmount),
                                                         IntToString(Mintable(deposited, a).value))))
    ensures PendingMintOf(deposited, a).Ok? && PendingMintOf(deposited, a).value.Some? ==>
      var p := PendingMintOf(deposited, a).value.value;
      && p.mintAddress == a.mintAddress && p.depositAddress == a.depositAddress
      && p.approvedAmount == IntToString(a.approvedAmount)
      && MeetsThreshold(Mintable(deposited, a).value)
      && p.mintAmount == IntToString(Mintable(deposited, a).value)
  {
  }

  lemma PendingMintsOk(deposited: Dicts.Dict<Dingo.Received>, rows: seq<MintRow>)
    ensures PendingMints(deposited, rows).Ok? <==> forall i :: 0 <= i < |rows| ==> Mintable(deposited, rows[i]).Ok?
  {
    var f := PendingStep(deposited);
    CollectSpec(rows, f);
    forall i | 0 <= i < |rows| ensures f(rows[i]).Ok? <==> Mintable(deposited, rows[i]).Ok? {
      PendingMintOfSpec(deposited, rows[i]);
    }
  }

  lemma PendingMintsComplete(deposited: Dicts.Dict<Dingo.Received>, rows: seq<MintRow>)
    requires PendingMints(deposited, rows).Ok?
    requires forall i :: 0 <= i < |rows| ==> Mintable(deposited, rows[i]).Ok?
    ensures forall i :: 0 <= i < |rows| && MeetsThreshold(Mintable(deposited, rows[i]).value) ==>
      PendingMint(rows[i].mintAddress, rows[i].depositAddress, IntToString(rows[i].approvedAmount),
                  IntToString(Mintable(deposited, rows[i]).value)) in PendingMints(deposited, rows).value
  {
    var f := PendingStep(deposited);
    CollectSpec(rows, f);
    forall i | 0 <= i < |rows| && MeetsThreshold(Mintable(deposited, rows[i]).value)
      ensures PendingMint(rows[i].mintAddress, rows[i].depositAddress, IntToString(rows[i].approvedAmount),
                          IntToString(Mintable(deposited, rows[i]).value)) in PendingMints(deposited, rows).value
    {
      PendingMintOfSpec(deposited, rows[i]);
      assert f(rows[i]).Ok?;
    }
  }

  lemma PendingMintsSound(deposited: Dicts.Dict<Dingo.Received>, rows: seq<MintRow>)
    requires PendingMints(deposited, rows).Ok?
    requires forall i :: 0 <= i < |rows| ==> Mintable(deposited, rows[i]).Ok?
    ensures forall p :: p in PendingMints(deposited, rows).value ==>
      exists i :: && 0 <= i < |rows|
                  && p.mintAddress == rows[i].mintAddress && p.depositAddress == rows[i].depositAddress
                  && p.approvedAmount == IntToString(rows[i].approvedAmount)
                  && MeetsThreshold(Mintable(deposited, rows[i]).value)
                  && p.mintAmount == IntToString(Mintable(deposited, rows[i]).value)
  {
    var f := PendingStep(deposited);
    CollectSpec(rows, f);
    forall p | p in PendingMints(deposited, rows).value
      ensures exists i :: && 0 <= i < |rows|
                          && p.mintAddress == rows[i].mintAddress && p.depositAddress == rows[i].depositAddress
                          && p.approvedAmount == IntToString(rows[i].approvedAmount)
                          && MeetsThreshold(Mintable(deposited, rows[i]).value)
                          && p.mintAmount == IntToString(Mintable(deposited, rows[i]).value)
    {
      var i :| 0 <= i < |rows| && f(rows[i]) == Ok(Some(p));
      PendingMintOfSpec(deposited, rows[i]);
    }
  }

  // ---------------------------------------------------------------------
  // Pending payouts (authorityDaemon.js:532-585)

  datatype DepositTaxPayout = DepositTaxPayout(depositAddress: string, amount: string)

  datatype WithdrawalPayout = WithdrawalPayout(burnSignature: string, burnDestination: string, amount: string)

  /** The three lists a payout proposal carries. */
  datatype Payouts = Payouts(depositTaxPayouts: seq<DepositTaxPayout>,
                             withdrawalPayouts: seq<WithdrawalPayout>,
                             withdrawalTaxPayouts: seq<WithdrawalPayout>)

  /** The tax a registered deposit address has earned so far. */
  function ApprovableTax(deposited: Dicts.Dict<Dingo.Received>, a: MintRow): Result<int> {
    var depositedAmount :- DepositedSatoshi(deposited, a.depositAddress);
    Ok(TaxAmount(depositedAmount))
  }

  /** One step of the deposit loop of `computePendingPayouts`: the tax not
      yet approved, if any; more approved than approvable is an error. */
  function DepositTaxOf(deposited: Dicts.Dict<Dingo.Received>, a: MintRow): Result<Option<DepositTaxPayout>> {
    var approvable :- ApprovableTax(deposited, a);
    TaxDue(a, approvable)
  }

  /** The payout owed to row `a` once `approvable` tax has been earned. */
  function TaxDue(a: MintRow, approvable: int): Result<Option<DepositTaxPayout>> {
    if approvable > a.approvedTax then
      Ok(Some(DepositTaxPayout(a.depositAddress, IntToString(approvable - a.approvedTax))))
    else if approvable < a.approvedTax then Err("Deposit approved tax exceeds approvable")
    else Ok(None)
  }

  function WithdrawalPayoutOf(w: WithdrawalRow): WithdrawalPayout {
    WithdrawalPayout(w.burnSignature, w.burnDestination, IntToString(AmountAfterTax(w.burnAmount)))
  }

  function WithdrawalTaxPayoutOf(w: WithdrawalRow): WithdrawalPayout {
    WithdrawalPayout(w.burnSignature, w.burnDestination, IntToString(TaxAmount(w.burnAmount)))
  }

  /** The deposit addresses that have received something. */
  function DepositRows(deposited: Dicts.Dict<Dingo.Received>, mints: seq<MintRow>): seq<MintRow> {
    GetMintDepositAddresses(mints, Some(deposited.keys))
  }

  function DepositTaxStep(deposited: Dicts.Dict<Dingo.Received>): MintRow -> Result<Option<DepositTaxPayout>> {
    (a: MintRow) => DepositTaxOf(deposited, a)
  }

  /** The deposit loop of `computePendingPayouts`. */
  function DepositTaxPayouts(deposited: Dicts.Dict<Dingo.Received>, mints: seq<MintRow>): Result<seq<DepositTaxPayout>> {
    Collect(DepositRows(deposited, mints), DepositTaxStep(deposited))
  }

  /** Each deposit payout is the unapproved tax of one row with a balance. */
  lemma DepositTaxPayoutsSpec(deposited: Dicts.Dict<Dingo.Received>, mints: seq<MintRow>)
    requires DepositTaxPayouts(deposited, mints).Ok?
    ensures forall q :: q in DepositTaxPayouts(deposited, mints).value ==> TaxOfSomeRow(q, deposited, DepositRows(deposited, mints))
  {
    var rows := DepositRows(deposited, mints);
    var f := DepositTaxStep(deposited);
    CollectSpec(rows, f);
    forall q | q in DepositTaxPayouts(deposited, mints).value
      ensures TaxOfSomeRow(q, deposited, rows)
    {
      var i :| 0 <= i < |rows| && f(rows[i]) == Ok(Some(q));
      assert DepositTaxOf(deposited, rows[i]) == Ok(Some(q));
    }
  }

  /** `q` is the payout one of `rows` asks for. */
  predicate TaxOfSomeRow(q: DepositTaxPayout, deposited: Dicts.Dict<Dingo.Received>, rows: seq<MintRow>) {
    exists i :: 0 <= i < |rows| && DepositTaxOf(deposited, rows[i]) == Ok(Some(q))
  }

  /** `computePendingPayouts(processDeposits, processWithdrawals)`. */
  function PendingPayouts(processDeposits: bool, processWithdrawals: bool, deposited: Dicts.Dict<Dingo.Received>,
                          mints: seq<MintRow>, withdrawals: seq<WithdrawalRow>): Result<Payouts>
  {
    var depositTaxPayouts :- if processDeposits then DepositTaxPayouts(deposited, mints) else Ok([]);
    var unapproved := if processWithdrawals then GetUnapprovedWithdrawals(withdrawals) else [];
    Ok(Payouts(depositTaxPayouts, Sorting.MapSeq(WithdrawalPayoutOf, unapproved),
               Sorting.MapSeq(WithdrawalTaxPayoutOf, unapproved)))
  }

  /** The shape of a proposal the node makes itself: each deposit payout is
      the unapproved tax of a row with a balance, and the two withdrawal
      lists pair up, entry by entry, the amount after tax and the tax of a
      withdrawal with no approved tax. */
  predicate ProposalShape(p: Payouts, deposited: Dicts.Dict<Dingo.Received>,
                          mints: seq<MintRow>, withdrawals: seq<WithdrawalRow>) {
    && (forall q :: q in p.depositTaxPayouts ==>
          TaxOfSomeRow(q, deposited, DepositRows(deposited, mints)))
    && |p.withdrawalPayouts| == |p.withdrawalTaxPayouts|
    && forall k :: 0 <= k < |p.withdrawalPayouts| ==>
         PaysUnapproved(p.withdrawalPayouts[k], p.withdrawalTaxPayouts[k], withdrawals)
  }

  /** `a` and `b` are the amount after tax and the tax of one withdrawal
      that has no approved tax yet. */
  predicate PaysUnapproved(a: WithdrawalPayout, b: WithdrawalPayout, withdrawals: seq<WithdrawalRow>) {
    exists w :: && w in withdrawals && w.approvedTax == 0
                && a == WithdrawalPayoutOf(w) && b == WithdrawalTaxPayoutOf(w)
  }

  /** What the node's own proposal holds: each deposit payout comes from a
      row with a balance, and the withdrawal lists pair up the unapproved
      withdrawals. */
  lemma PendingPayoutsSpec(processDeposits: bool, processWithdrawals: bool, deposited: Dicts.Dict<Dingo.Received>,
                           mints: seq<MintRow>, withdrawals: seq<WithdrawalRow>)
    requires PendingPayouts(processDeposits, processWithdrawals, deposited, mints, withdrawals).Ok?
    ensures var p := PendingPayouts(processDeposits, processWithdrawals, deposited, mints, withdrawals).value;
      && (!processDeposits ==> p.depositTaxPayouts == [])
      && (!processWithdrawals ==> p.withdrawalPayouts == [] && p.withdrawalTaxPayouts == [])
      && ProposalShape(p, deposited, mints, withdrawals)
  {
    var p := PendingPayouts(processDeposits, processWithdrawals, deposited, mints, withdrawals).value;
    if processDeposits {
      DepositTaxPayoutsSpec(deposited, mints);
    }
    var unapproved := if processWithdrawals then GetUnapprovedWithdrawals(withdrawals) else [];
    assert p.withdrawalPayouts == Sorting.MapSeq(WithdrawalPayoutOf, unapproved);
    assert p.withdrawalTaxPayouts == Sorting.MapSeq(WithdrawalTaxPayoutOf, unapproved);
    UnapprovedPairs(withdrawals, unapproved);
  }

  /** Each position of the two withdrawal lists pays one unapproved
      withdrawal its amount after tax and its tax. */
  lemma UnapprovedPairs(withdrawals: seq<WithdrawalRow>, unapproved: seq<WithdrawalRow>)
    requires forall w :: w in unapproved ==> w in withdrawals && w.approvedTax == 0
    ensures forall k :: 0 <= k < |unapproved| ==>
      PaysUnapproved(Sorting.MapSeq(WithdrawalPayoutOf, unapproved)[k],
                     Sorting.MapSeq(WithdrawalTaxPayoutOf, unapproved)[k], withdrawals)
  {
    forall k | 0 <= k < |unapproved|
      ensures PaysUnapproved(Sorting.MapSeq(WithdrawalPayoutOf, unapproved)[k],
                             Sorting.MapSeq(WithdrawalTaxPayoutOf, unapproved)[k], withdrawals)
    {
      var w := unapproved[k];
      assert w in unapproved;
      assert Sorting.MapSeq(WithdrawalPayoutOf, unapproved)[k] == WithdrawalPayoutOf(w);
      assert Sorting.MapSeq(WithdrawalTaxPayoutOf, unapproved)[k] == WithdrawalTaxPayoutOf(w);
    }
  }

  // ---------------------------------------------------------------------
  // Checking a proposal (authorityDaemon.js:605-703)

  function DepositAmountOf(p: DepositTaxPayout): string {
    p.amount
  }

  function WithdrawalAmountOf(p: WithdrawalPayout): string {
    p.amount
  }

  /** The tax a proposal pays out: deposit taxes, then withdrawal taxes. */
  function TotalTax(p: Payouts): Result<int> {
    var fromDeposits :- SumAmounts(Sorting.MapSeq(DepositAmountOf, p.depositTaxPayouts));
    var fromWithdrawals :- SumAmounts(Sorting.MapSeq(WithdrawalAmountOf, p.withdrawalTaxPayouts));
    Ok(fromDeposits + fromWithdrawals)
  }

  /** The network fee: one fee per deposit and per withdrawal paid. */
  function NetworkFee(p: Payouts): int {
    (|p.depositTaxPayouts| + |p.withdrawalPayouts|) * PAYOUT_NETWORK_FEE_PER_TX
  }

  /** The sum of amounts reads when every amount does. */
  lemma {:induction false} SumAmountsOk(amounts: seq<string>)
    ensures SumAmounts(amounts).Ok? <==> forall i :: 0 <= i < |amounts| ==> ParseBigInt(amounts[i]).Ok?
    decreases |amounts|
  {
    if |amounts| > 0 {
      var n := |amounts| - 1;
      SumAmountsOk(amounts[..n]);
      assert forall i :: 0 <= i < n ==> amounts[..n][i] == amounts[i];
    }
  }

  /** The fee check as written: the message formats the fee with
      `fromSatoshi`, which refuses the BigInt it is given, so the refusal
      reads "Expected string input". */
  function FeeCheckAsWritten(totalTax: int, fee: int): Result<()> {
    if totalTax < fee then
      var text :- Dingo.FromSatoshi(Js.Num(fee));
      Err("Insufficient tax to cover network fees of " + text)
    else Ok(())
  }

  lemma FeeMessageLost(totalTax: int, fee: int)
    requires totalTax < fee
    ensures FeeCheckAsWritten(totalTax, fee) == Err("Expected string input")
  {
  }

  /** The fee check with the fee formatted as coins, as the message means. */
  function FeeCheck(totalTax: int, fee: int): (r: Result<()>)
    ensures r.Ok? <==> totalTax >= fee
    ensures r.Err? ==> Dingo.FromSatoshi(Js.Str(IntToString(fee))).Ok?
    ensures r.Err? ==> r.error == "Insufficient tax to cover network fees of " + Dingo.FromSatoshi(Js.Str(IntToString(fee))).value
  {
    if totalTax < fee then
      Dingo.SatoshiRoundTrip(fee);
      Err("Insufficient tax to cover network fees of " + Dingo.FromSatoshi(Js.Str(IntToString(fee))).value)
    else Ok(())
  }

  function DepositKey(a: MintRow): string {
    a.depositAddress
  }

  /** `depositAddresses[x.depositAddress] = x` for each row with a balance. */
  function RowsByDeposit(rows: seq<MintRow>): Dicts.Dict<MintRow> {
    Dicts.IndexBy(rows, DepositKey)
  }

  /** One step of the deposit loop of `validatePayouts`. */
  function CheckDepositTax(q: DepositTaxPayout, deposited: Dicts.Dict<Dingo.Received>,
                           byAddress: Dicts.Dict<MintRow>): Result<()> {
    var _ :- Need(q.depositAddress in deposited.vals, "Dingo address has zero balance");
    var _ :- Need(q.depositAddress in byAddress.vals, "Dingo address not registered");
    CheckTaxFits(q, deposited, byAddress.vals[q.depositAddress])
  }

  /** The amount checks of one deposit payout against its registered row. */
  function CheckTaxFits(q: DepositTaxPayout, deposited: Dicts.Dict<Dingo.Received>, a: MintRow): (r: Result<()>)
    ensures r.Ok? <==> TaxFits(q, deposited, a)
  {
    var approvable :- ApprovableTax(deposited, a);
    var amount :- ParseBigInt(q.amount);
    Need(amount + a.approvedTax <= approvable, "Requested tax amount more than remaining approvable tax")
  }

  /** The requested tax, added to what the row has had approved, stays
      within what its deposits have earned. */
  predicate TaxFits(q: DepositTaxPayout, deposited: Dicts.Dict<Dingo.Received>, a: MintRow) {
    && ApprovableTax(deposited, a).Ok?
    && ParseBigInt(q.amount).Ok?
    && ParseBigInt(q.amount).value + a.approvedTax <= ApprovableTax(deposited, a).value
  }

  /** A deposit payout is allowed when its address has a balance and the
      last of its rows among `rows` leaves room for the requested tax. */
  predicate DepositTaxAllowed(q: DepositTaxPayout, deposited: Dicts.Dict<Dingo.Received>, rows: seq<MintRow>) {
    && q.depositAddress in deposited.vals
    && exists i :: 0 <= i < |rows| && Dicts.IsLastWithKey(rows, DepositKey, i, q.depositAddress) && TaxFits(q, deposited, rows[i])
  }

  lemma CheckDepositTaxSpec(q: DepositTaxPayout, deposited: Dicts.Dict<Dingo.Received>, rows: seq<MintRow>)
    ensures CheckDepositTax(q, deposited, RowsByDeposit(rows)).Ok? <==> DepositTaxAllowed(q, deposited, rows)
    ensures q.depositAddress !in deposited.vals ==>
      CheckDepositTax(q, deposited, RowsByDeposit(rows)) == Err("Dingo address has zero balance")
    ensures q.depositAddress in deposited.vals && (forall i :: 0 <= i < |rows| ==> rows[i].depositAddress != q.depositAddress) ==>
      CheckDepositTax(q, deposited, RowsByDeposit(rows)) == Err("Dingo address not registered")
  {
    var byAddress := RowsByDeposit(rows);
    var k := q.depositAddress;
    Dicts.IndexByKeys(rows, DepositKey);
    if k in byAddress.vals {
      Dicts.IndexByLast(rows, DepositKey, k);
      var i :| Dicts.IsLastWithKey(rows, DepositKey, i, k) && rows[i] == byAddress.vals[k];
      forall j | Dicts.IsLastWithKey(rows, DepositKey, j, k) ensures j == i {
      }
    } else {
      assert forall i :: 0 <= i < |rows| ==> DepositKey(rows[i]) != k;
    }
  }

  /** `withdrawals[i]` is the only row for burn `s`. */
  predicate OnlyWithdrawal(withdrawals: seq<WithdrawalRow>, i: int, s: string) {
    && 0 <= i < |withdrawals|
    && withdrawals[i].burnSignature == s
    && forall j :: 0 <= j < |withdrawals| && j != i ==> withdrawals[j].burnSignature != s
  }

  /** The two payouts of one withdrawal pay an unapproved burn its amount
      after tax and its tax, both to the burn's destination. */
  predicate PaysBurn(a: WithdrawalPayout, b: WithdrawalPayout, w: WithdrawalRow) {
    && w.approvedAmount == 0 && w.approvedTax == 0
    && a.burnDestination == w.burnDestination
    && b.burnDestination == w.burnDestination
    && ParseBigInt(a.amount) == Ok(AmountAfterTax(w.burnAmount))
    && ParseBigInt(b.amount) == Ok(TaxAmount(w.burnAmount))
  }

  predicate WithdrawalPairAllowed(a: WithdrawalPayout, b: WithdrawalPayout, withdrawals: seq<WithdrawalRow>) {
    && a.burnSignature == b.burnSignature
    && exists i :: 0 <= i < |withdrawals| && OnlyWithdrawal(withdrawals, i, a.burnSignature) && PaysBurn(a, b, withdrawals[i])
  }

  /** One step of the withdrawal loop of `validatePayouts`. */
  function CheckWithdrawal(a: WithdrawalPayout, b: WithdrawalPayout, withdrawals: seq<WithdrawalRow>): Result<()> {
    var _ :- Need(a.burnSignature == b.burnSignature, "Mismatch in withdrawal and withdrawal tax payout signatures");
    var found :- GetWithdrawal(withdrawals, a.burnSignature);
    var _ :- Need(found.Some?, "Withdrawal not registered");
    CheckPaysBurn(a, b, found.value)
  }

  /** The checks of one withdrawal pair against its registered row. */
  function CheckPaysBurn(a: WithdrawalPayout, b: WithdrawalPayout, w: WithdrawalRow): (r: Result<()>)
    ensures r.Ok? <==> PaysBurn(a, b, w)
  {
    var _ :- Need(w.approvedAmount == 0 && w.approvedTax == 0, "Withdrawal already approved");
    var _ :- Need(a.burnDestination == w.burnDestination, "Withdrawal destination incorrect");
    var _ :- Need(b.burnDestination == w.burnDestination, "Withdrawal tax destination incorrect");
    var amount :- ParseBigInt(a.amount);
    var _ :- Need(amount == AmountAfterTax(w.burnAmount), "Withdrawal amount incorrect");
    var tax :- ParseBigInt(b.amount);
    Need(tax == TaxAmount(w.burnAmount), "Withdrawal tax amount incorrect")
  }

  lemma CheckWithdrawalSpec(a: WithdrawalPayout, b: WithdrawalPayout, withdrawals: seq<WithdrawalRow>)
    ensures CheckWithdrawal(a, b, withdrawals).Ok? <==> WithdrawalPairAllowed(a, b, withdrawals)
    ensures (&& a.burnSignature == b.burnSignature
             && forall i :: 0 <= i < |withdrawals| ==> withdrawals[i].burnSignature != a.burnSignature) ==>
      CheckWithdrawal(a, b, withdrawals) == Err("Withdrawal not registered")
  {
    CheckWithdrawalAccepts(a, b, withdrawals);
    CheckWithdrawalSound(a, b, withdrawals);
    CheckWithdrawalUnregistered(a, b, withdrawals);
  }

  lemma CheckWithdrawalAccepts(a: WithdrawalPayout, b: WithdrawalPayout, withdrawals: seq<WithdrawalRow>)
    ensures WithdrawalPairAllowed(a, b, withdrawals) ==> CheckWithdrawal(a, b, withdrawals).Ok?
  {
    var s := a.burnSignature;
    GetWithdrawalOnly(withdrawals, s);
    if WithdrawalPairAllowed(a, b, withdrawals) {
      var i :| OnlyWithdrawal(withdrawals, i, s) && PaysBurn(a, b, withdrawals[i]);
      assert GetWithdrawal(withdrawals, s) == Ok(Some(withdrawals[i]));
    }
  }

  lemma CheckWithdrawalSound(a: WithdrawalPayout, b: WithdrawalPayout, withdrawals: seq<WithdrawalRow>)
    ensures CheckWithdrawal(a, b, withdrawals).Ok? ==> WithdrawalPairAllowed(a, b, withdrawals)
  {
    var s := a.burnSignature;
    var r := GetWithdrawal(withdrawals, s);
    GetWithdrawalOnly(withdrawals, s);
    if CheckWithdrawal(a, b, withdrawals).Ok? {
      var i :| OnlyWithdrawal(withdrawals, i, s) && withdrawals[i] == r.value.value;
      assert CheckPaysBurn(a, b, withdrawals[i]).Ok?;
    }
  }

  lemma CheckWithdrawalUnregistered(a: WithdrawalPayout, b: WithdrawalPayout, withdrawals: seq<WithdrawalRow>)
    ensures (&& a.burnSignature == b.burnSignature
             && forall i :: 0 <= i < |withdrawals| ==> withdrawals[i].burnSignature != a.burnSignature) ==>
      CheckWithdrawal(a, b, withdrawals) == Err("Withdrawal not registered")
  {
  }

  /** `getWithdrawal(s)` finds a row exactly when that row is the only one
      for `s`. */
  lemma GetWithdrawalOnly(withdrawals: seq<WithdrawalRow>, s: string)
    ensures forall j :: OnlyWithdrawal(withdrawals, j, s) ==> GetWithdrawal(withdrawals, s) == Ok(Some(withdrawals[j]))
    ensures GetWithdrawal(withdrawals, s).Ok? && GetWithdrawal(withdrawals, s).value.Some? ==>
      exists i :: OnlyWithdrawal(withdrawals, i, s) && withdrawals[i] == GetWithdrawal(withdrawals, s).value.value
  {
    var r := GetWithdrawal(withdrawals, s);
    if r.Ok? && r.value.Some? {
      var w := r.value.value;
      var i :| 0 <= i < |withdrawals| && withdrawals[i] == w;
      assert OnlyWithdrawal(withdrawals, i, s);
      forall j | OnlyWithdrawal(withdrawals, j, s) ensures r == Ok(Some(withdrawals[j])) {
        assert j == i;
      }
    }
  }

  /** `withdrawalPayouts[i]` beside `withdrawalTaxPayouts[i]`. */
  function Zip(xs: seq<WithdrawalPayout>, ys: seq<WithdrawalPayout>): (r: seq<(WithdrawalPayout, WithdrawalPayout)>)
    requires |xs| == |ys|
    ensures |r| == |xs| && forall k :: 0 <= k < |xs| ==> r[k] == (xs[k], ys[k])
  {
    seq(|xs|, k requires 0 <= k < |xs| => (xs[k], ys[k]))
  }

  /** The deposit loop of `validatePayouts`, against the rows of the
      addresses with a balance. */
  function CheckDepositTaxes(dtp: seq<DepositTaxPayout>, deposited: Dicts.Dict<Dingo.Received>,
                             rows: seq<MintRow>): Result<()> {
    var byAddress := RowsByDeposit(rows);
    Every(dtp, (q: DepositTaxPayout) => CheckDepositTax(q, deposited, byAddress))
  }

  lemma CheckDepositTaxesSpec(dtp: seq<DepositTaxPayout>, deposited: Dicts.Dict<Dingo.Received>, rows: seq<MintRow>)
    ensures CheckDepositTaxes(dtp, deposited, rows).Ok? <==>
      forall k :: 0 <= k < |dtp| ==> DepositTaxAllowed(dtp[k], deposited, rows)
  {
    var byAddress := RowsByDeposit(rows);
    var check := (q: DepositTaxPayout) => CheckDepositTax(q, deposited, byAddress);
    EverySpec(dtp, check);
    forall k | 0 <= k < |dtp| ensures check(dtp[k]).Ok? <==> DepositTaxAllowed(dtp[k], deposited, rows) {
      CheckDepositTaxSpec(dtp[k], deposited, rows);
    }
  }

  /** The withdrawal loop of `validatePayouts`. */
  function CheckWithdrawals(wp: seq<WithdrawalPayout>, wtp: seq<WithdrawalPayout>,
                            withdrawals: seq<WithdrawalRow>): Result<()>
    requires |wp| == |wtp|
  {
    Every(Zip(wp, wtp), (pr: (WithdrawalPayout, WithdrawalPayout)) => CheckWithdrawal(pr.0, pr.1, withdrawals))
  }

  lemma CheckWithdrawalsSpec(wp: seq<WithdrawalPayout>, wtp: seq<WithdrawalPayout>, withdrawals: seq<WithdrawalRow>)
    requires |wp| == |wtp|
    ensures CheckWithdrawals(wp, wtp, withdrawals).Ok? <==>
      forall k :: 0 <= k < |wp| ==> WithdrawalPairAllowed(wp[k], wtp[k], withdrawals)
  {
    var pairs := Zip(wp, wtp);
    var check := (pr: (WithdrawalPayout, WithdrawalPayout)) => CheckWithdrawal(pr.0, pr.1, withdrawals);
    EverySpec(pairs, check);
    forall k | 0 <= k < |pairs| ensures check(pairs[k]).Ok? <==> WithdrawalPairAllowed(wp[k], wtp[k], withdrawals) {
      CheckWithdrawalSpec(wp[k], wtp[k], withdrawals);
    }
  }

  /** `validatePayouts(depositTaxPayouts, withdrawalPayouts, withdrawalTaxPayouts)`
      against the received entries and the two tables. */
  function ValidatePayouts(p: Payouts, deposited: Dicts.Dict<Dingo.Received>,
                           mints: seq<MintRow>, withdrawals: seq<WithdrawalRow>): Result<()> {
    var totalTax :- TotalTax(p);
    var _ :- FeeCheck(totalTax, NetworkFee(p));
    var _ :- CheckDepositTaxes(p.depositTaxPayouts, deposited, DepositRows(deposited, mints));
    var _ :- Need(|p.withdrawalPayouts| == |p.withdrawalTaxPayouts|,
                  "Withdrawal and withdrawal tax payouts mismatch in count");
    CheckWithdrawals(p.withdrawalPayouts, p.withdrawalTaxPayouts, withdrawals)
  }

  /** The conditions under which a proposal is accepted. */
  predicate PayoutsValid(p: Payouts, deposited: Dicts.Dict<Dingo.Received>,
                         mints: seq<MintRow>, withdrawals: seq<WithdrawalRow>) {
    && TotalTax(p).Ok?
    && TotalTax(p).value >= NetworkFee(p)
    && (forall k :: 0 <= k < |p.depositTaxPayouts| ==>
          DepositTaxAllowed(p.depositTaxPayouts[k], deposited, DepositRows(deposited, mints)))
    && |p.withdrawalPayouts| == |p.withdrawalTaxPayouts|
    && forall k :: 0 <= k < |p.withdrawalPayouts| ==>
         WithdrawalPairAllowed(p.withdrawalPayouts[k], p.withdrawalTaxPayouts[k], withdrawals)
  }

  /** A proposal passes exactly when the tax covers the network fee, every
      deposit payout fits what its address has earned, and the withdrawal
      payouts pair up, each pair paying one registered, unapproved burn. */
  lemma ValidatePayoutsSpec(p: Payouts, deposited: Dicts.Dict<Dingo.Received>,
                            mints: seq<MintRow>, withdrawals: seq<WithdrawalRow>)
    ensures ValidatePayouts(p, deposited, mints, withdrawals).Ok? <==> PayoutsValid(p, deposited, mints, withdrawals)
  {
    var r := ValidatePayouts(p, deposited, mints, withdrawals);
    var rows := DepositRows(deposited, mints);
    if TotalTax(p).Ok? && TotalTax(p).value >= NetworkFee(p) {
      CheckDepositTaxesSpec(p.depositTaxPayouts, deposited, rows);
      if CheckDepositTaxes(p.depositTaxPayouts, deposited, rows).Ok? && |p.withdrawalPayouts| == |p.withdrawalTaxPayouts| {
        CheckWithdrawalsSpec(p.withdrawalPayouts, p.withdrawalTaxPayouts, withdrawals);
        assert r == CheckWithdrawals(p.withdrawalPayouts, p.withdrawalTaxPayouts, withdrawals);
      }
    }
  }

  // ---------------------------------------------------------------------
  // The node's own proposal passes its own check

  /** No two rows share a deposit address. */
  predicate DistinctDepositAddresses(rows: seq<MintRow>) {
    forall i, j :: 0 <= i < j < |rows| ==> rows[i].depositAddress != rows[j].depositAddress
  }

  /** No two rows share a burn signature. */
  predicate DistinctBurns(rows: seq<WithdrawalRow>) {
    forall i, j :: 0 <= i < j < |rows| ==> rows[i].burnSignature != rows[j].burnSignature
  }

  lemma {:induction false} FilterKeepsDistinct(rows: seq<MintRow>, p: MintRow -> bool)
    requires DistinctDepositAddresses(rows)
    ensures DistinctDepositAddresses(Filter(rows, p))
    decreases |rows|
  {
    if |rows| > 0 {
      var rest := rows[1..];
      FilterKeepsDistinct(rest, p);
      FilterMembers(rest, p);
      var f := Filter(rest, p);
      forall j | 0 <= j < |f| ensures f[j].depositAddress != rows[0].depositAddress {
        assert f[j] in rest;
        var m :| 0 <= m < |rest| && rest[m] == f[j];
        assert rows[m + 1] == f[j];
      }
    }
  }

  lemma DepositRowsDistinct(deposited: Dicts.Dict<Dingo.Received>, mints: seq<MintRow>)
    requires DistinctDepositAddresses(mints)
    ensures DistinctDepositAddresses(DepositRows(deposited, mints))
  {
    var p := (r: MintRow) => Selected(Some(deposited.keys), r);
    assert DepositRows(deposited, mints) == Filter(mints, p);
    FilterKeepsDistinct(mints, p);
  }

  /** A deposit payout the node proposes asks for exactly the tax its row
      has not had approved. */
  lemma DepositTaxOfFits(deposited: Dicts.Dict<Dingo.Received>, a: MintRow, q: DepositTaxPayout)
    requires DepositTaxOf(deposited, a) == Ok(Some(q))
    ensures q.depositAddress == a.depositAddress
    ensures TaxFits(q, deposited, a)
    ensures ParseBigInt(q.amount) == Ok(ApprovableTax(deposited, a).value - a.approvedTax)
  {
    DepositTaxOfAmount(deposited, a, q);
    var approvable := ApprovableTax(deposited, a).value;
    ParseShown(approvable - a.approvedTax, q.amount);
    TaxFitsOf(q, deposited, a, approvable);
  }

  lemma DepositTaxOfAmount(deposited: Dicts.Dict<Dingo.Received>, a: MintRow, q: DepositTaxPayout)
    requires DepositTaxOf(deposited, a) == Ok(Some(q))
    ensures ApprovableTax(deposited, a).Ok?
    ensures q.depositAddress == a.depositAddress
    ensures q.amount == IntToString(ApprovableTax(deposited, a).value - a.approvedTax)
  {
    var approvable := ApprovableTax(deposited, a).value;
    assert TaxDue(a, approvable) == Ok(Some(q));
  }

  lemma ParseShown(n: int, s: string)
    requires s == IntToString(n)
    ensures ParseBigInt(s) == Ok(n)
  {
    ParseIntToString(n);
  }

  lemma TaxFitsOf(q: DepositTaxPayout, deposited: Dicts.Dict<Dingo.Received>, a: MintRow, approvable: int)
    requires ApprovableTax(deposited, a) == Ok(approvable)
    requires ParseBigInt(q.amount) == Ok(approvable - a.approvedTax)
    ensures TaxFits(q, deposited, a)
  {
  }

  lemma ProposalDepositAllowed(q: DepositTaxPayout, deposited: Dicts.Dict<Dingo.Received>, mints: seq<MintRow>)
    requires deposited.Valid()
    requires DistinctDepositAddresses(mints)
    requires TaxOfSomeRow(q, deposited, DepositRows(deposited, mints))
    ensures DepositTaxAllowed(q, deposited, DepositRows(deposited, mints))
    ensures ParseBigInt(q.amount).Ok?
  {
    var rows := DepositRows(deposited, mints);
    var i :| 0 <= i < |rows| && DepositTaxOf(deposited, rows[i]) == Ok(Some(q));
    var a := rows[i];
    DepositRowHasBalance(deposited, mints, a);
    DepositTaxOfFits(deposited, a, q);
    DepositRowsDistinct(deposited, mints);
    DistinctIsLast(rows, i);
    assert Dicts.IsLastWithKey(rows, DepositKey, i, q.depositAddress) && TaxFits(q, deposited, rows[i]);
  }

  lemma DepositRowHasBalance(deposited: Dicts.Dict<Dingo.Received>, mints: seq<MintRow>, a: MintRow)
    requires deposited.Valid() && a in DepositRows(deposited, mints)
    ensures a.depositAddress in deposited.vals
  {
    assert Selected(Some(deposited.keys), a);
  }

  /** With distinct deposit addresses every row is the last with its own. */
  lemma DistinctIsLast(rows: seq<MintRow>, i: int)
    requires DistinctDepositAddresses(rows) && 0 <= i < |rows|
    ensures Dicts.IsLastWithKey(rows, DepositKey, i, rows[i].depositAddress)
  {
  }

  lemma ProposalWithdrawalAllowed(a: WithdrawalPayout, b: WithdrawalPayout, withdrawals: seq<WithdrawalRow>)
    requires DistinctBurns(withdrawals)
    requires forall i :: 0 <= i < |withdrawals| && withdrawals[i].approvedTax == 0 ==> withdrawals[i].approvedAmount == 0
    requires PaysUnapproved(a, b, withdrawals)
    ensures WithdrawalPairAllowed(a, b, withdrawals)
    ensures ParseBigInt(b.amount).Ok?
  {
    var w :| && w in withdrawals && w.approvedTax == 0
             && a == WithdrawalPayoutOf(w) && b == WithdrawalTaxPayoutOf(w);
    var i :| 0 <= i < |withdrawals| && withdrawals[i] == w;
    ParseIntToString(AmountAfterTax(w.burnAmount));
    ParseIntToString(TaxAmount(w.burnAmount));
    assert OnlyWithdrawal(withdrawals, i, a.burnSignature);
    assert PaysBurn(a, b, withdrawals[i]);
  }

  /** A proposal shaped like the node's own fits every deposit and
      withdrawal check; only the fee check is left. */
  lemma ProposalShapeValid(p: Payouts, deposited: Dicts.Dict<Dingo.Received>,
                           mints: seq<MintRow>, withdrawals: seq<WithdrawalRow>)
    requires deposited.Valid()
    requires DistinctDepositAddresses(mints) && DistinctBurns(withdrawals)
    requires forall i :: 0 <= i < |withdrawals| && withdrawals[i].approvedTax == 0 ==> withdrawals[i].approvedAmount == 0
    requires ProposalShape(p, deposited, mints, withdrawals)
    ensures TotalTax(p).Ok?
    ensures PayoutsValid(p, deposited, mints, withdrawals) <==> TotalTax(p).value >= NetworkFee(p)
  {
    ProposalDepositsAllowed(p, deposited, mints, withdrawals);
    ProposalWithdrawalsAllowed(p, deposited, mints, withdrawals);
  }

  lemma ProposalDepositsAllowed(p: Payouts, deposited: Dicts.Dict<Dingo.Received>,
                                mints: seq<MintRow>, withdrawals: seq<WithdrawalRow>)
    requires deposited.Valid()
    requires DistinctDepositAddresses(mints)
    requires ProposalShape(p, deposited, mints, withdrawals)
    ensures SumAmounts(Sorting.MapSeq(DepositAmountOf, p.depositTaxPayouts)).Ok?
    ensures forall k :: 0 <= k < |p.depositTaxPayouts| ==>
      DepositTaxAllowed(p.depositTaxPayouts[k], deposited, DepositRows(deposited, mints))
  {
    var dtp := p.depositTaxPayouts;
    forall k | 0 <= k < |dtp|
      ensures DepositTaxAllowed(dtp[k], deposited, DepositRows(deposited, mints)) && ParseBigInt(dtp[k].amount).Ok?
    {
      assert dtp[k] in dtp;
      ProposalDepositAllowed(dtp[k], deposited, mints);
    }
    SumAmountsOk(Sorting.MapSeq(DepositAmountOf, dtp));
  }

  lemma ProposalWithdrawalsAllowed(p: Payouts, deposited: Dicts.Dict<Dingo.Received>,
                                   mints: seq<MintRow>, withdrawals: seq<WithdrawalRow>)
    requires DistinctBurns(withdrawals)
    requires forall i :: 0 <= i < |withdrawals| && withdrawals[i].approvedTax == 0 ==> withdrawals[i].approvedAmount == 0
    requires ProposalShape(p, deposited, mints, withdrawals)
    ensures SumAmounts(Sorting.MapSeq(WithdrawalAmountOf, p.withdrawalTaxPayouts)).Ok?
    ensures forall k :: 0 <= k < |p.withdrawalPayouts| ==>
      WithdrawalPairAllowed(p.withdrawalPayouts[k], p.withdrawalTaxPayouts[k], withdrawals)
  {
    var wp := p.withdrawalPayouts;
    var wtp := p.withdrawalTaxPayouts;
    forall k | 0 <= k < |wp| ensures WithdrawalPairAllowed(wp[k], wtp[k], withdrawals) && ParseBigInt(wtp[k].amount).Ok? {
      ProposalWithdrawalAllowed(wp[k], wtp[k], withdrawals);
    }
    SumAmountsOk(Sorting.MapSeq(WithdrawalAmountOf, wtp));
  }

  /** What `computePendingPayouts` proposes passes `validatePayouts` on the
      same chain state and tables, unless its tax does not cover the
      network fee: given that deposit addresses and burn signatures are
      unique and that a withdrawal without approved tax has no approved
      amount either. */
  lemma ProposalPasses(processDeposits: bool, processWithdrawals: bool, deposited: Dicts.Dict<Dingo.Received>,
                       mints: seq<MintRow>, withdrawals: seq<WithdrawalRow>)
    requires deposited.Valid()
    requires DistinctDepositAddresses(mints) && DistinctBurns(withdrawals)
    requires forall i :: 0 <= i < |withdrawals| && withdrawals[i].approvedTax == 0 ==> withdrawals[i].approvedAmount == 0
    requires PendingPayouts(processDeposits, processWithdrawals, deposited, mints, withdrawals).Ok?
    ensures var p := PendingPayouts(processDeposits, processWithdrawals, deposited, mints, withdrawals).value;
      && TotalTax(p).Ok?
      && ValidatePayouts(p, deposited, mints, withdrawals) == FeeCheck(TotalTax(p).value, NetworkFee(p))
  {
    var p := PendingPayouts(processDeposits, processWithdrawals, deposited, mints, withdrawals).value;
    PendingPayoutsSpec(processDeposits, processWithdrawals, deposited, mints, withdrawals);
    ProposalVerdict(p, deposited, mints, withdrawals);
  }

  lemma ProposalVerdict(p: Payouts, deposited: Dicts.Dict<Dingo.Received>,
                        mints: seq<MintRow>, withdrawals: seq<WithdrawalRow>)
    requires deposited.Valid()
    requires DistinctDepositAddresses(mints) && DistinctBurns(withdrawals)
    requires forall i :: 0 <= i < |withdrawals| && withdrawals[i].approvedTax == 0 ==> withdrawals[i].approvedAmount == 0
    requires ProposalShape(p, deposited, mints, withdrawals)
    ensures TotalTax(p).Ok?
    ensures ValidatePayouts(p, deposited, mints, withdrawals) == FeeCheck(TotalTax(p).value, NetworkFee(p))
  {
    ProposalShapeValid(p, deposited, mints, withdrawals);
    if TotalTax(p).value < NetworkFee(p) {
      FeeRefusal(p, deposited, mints, withdrawals);
    } else {
      ValidAccepted(p, deposited, mints, withdrawals);
    }
  }

  lemma ValidAccepted(p: Payouts, deposited: Dicts.Dict<Dingo.Received>,
                      mints: seq<MintRow>, withdrawals: seq<WithdrawalRow>)
    requires PayoutsValid(p, deposited, mints, withdrawals)
    ensures ValidatePayouts(p, deposited, mints, withdrawals) == Ok(())
    ensures FeeCheck(TotalTax(p).value, NetworkFee(p)) == Ok(())
  {
    ValidatePayoutsSpec(p, deposited, mints, withdrawals);
    var r := ValidatePayouts(p, deposited, mints, withdrawals);
    assert r.Ok?;
    assert r.value == ();
  }

  /** A proposal whose tax reads is refused on the fee exactly as the fee
      check refuses it. */
  lemma FeeRefusal(p: Payouts, deposited: Dicts.Dict<Dingo.Received>,
                   mints: seq<MintRow>, withdrawals: seq<WithdrawalRow>)
    requires TotalTax(p).Ok? && TotalTax(p).value < NetworkFee(p)
    ensures ValidatePayouts(p, deposited, mints, withdrawals) == FeeCheck(TotalTax(p).value, NetworkFee(p))
  {
  }

  // ---------------------------------------------------------------------
  // Outputs of the payout transaction (authorityDaemon.js:759-825)

  /** The withdrawal loop of `computeVouts`: each destination collects the
      amounts of its payouts. */
  function WithdrawalVouts(wp: seq<WithdrawalPayout>): (r: Result<Dicts.Dict<int>>)
    ensures r.Ok? ==> r.value.Valid()
    decreases |wp|
  {
    if |wp| == 0 then
      Dicts.EmptyValid<int>();
      Ok(Dicts.Empty())
    else
      var n := |wp| - 1;
      var d :- WithdrawalVouts(wp[..n]);
      var amount :- ParseBigInt(wp[n].amount);
      Dicts.AddToValid(d, wp[n].burnDestination, amount);
      Ok(Dicts.AddTo(d, wp[n].burnDestination, amount))
  }

  /** A failure in the earlier payouts is the loop's failure. */
  lemma WithdrawalVoutsInitFailed(wp: seq<WithdrawalPayout>)
    requires |wp| > 0 && WithdrawalVouts(wp[..|wp| - 1]).Err?
    ensures WithdrawalVouts(wp) == WithdrawalVouts(wp[..|wp| - 1])
  {
  }

  /** The withdrawal outputs add up to the withdrawal payouts. */
  lemma {:induction false} WithdrawalVoutsTotal(wp: seq<WithdrawalPayout>)
    ensures WithdrawalVouts(wp).Ok? <==> SumAmounts(Sorting.MapSeq(WithdrawalAmountOf, wp)).Ok?
    ensures WithdrawalVouts(wp).Ok? ==>
      Dicts.Total(WithdrawalVouts(wp).value) == SumAmounts(Sorting.MapSeq(WithdrawalAmountOf, wp)).value
    decreases |wp|
  {
    if |wp| > 0 {
      var n := |wp| - 1;
      WithdrawalVoutsTotal(wp[..n]);
      var amounts := Sorting.MapSeq(WithdrawalAmountOf, wp);
      assert amounts[..n] == Sorting.MapSeq(WithdrawalAmountOf, wp[..n]);
      assert amounts[n] == WithdrawalAmountOf(wp[n]) == wp[n].amount;
      if WithdrawalVouts(wp[..n]).Ok? && ParseBigInt(wp[n].amount).Ok? {
        Dicts.TotalAddTo(WithdrawalVouts(wp[..n]).value, wp[n].burnDestination, ParseBigInt(wp[n].amount).value);
      }
    }
  }

  /** The withdrawal outputs are keyed by exactly the payout destinations. */
  lemma {:induction false} WithdrawalVoutsKeys(wp: seq<WithdrawalPayout>)
    requires WithdrawalVouts(wp).Ok?
    ensures forall k :: k in WithdrawalVouts(wp).value.vals <==>
      exists i :: 0 <= i < |wp| && wp[i].burnDestination == k
    decreases |wp|
  {
    if |wp| > 0 {
      var n := |wp| - 1;
      var init := wp[..n];
      WithdrawalVoutsKeys(init);
      var d := WithdrawalVouts(init).value;
      var last := wp[n].burnDestination;
      WithdrawalVoutsLast(wp);
      forall k ensures k in WithdrawalVouts(wp).value.vals <==> exists i :: 0 <= i < |wp| && wp[i].burnDestination == k {
        if k in d.vals {
          var i :| 0 <= i < n && init[i].burnDestination == k;
          assert wp[i] == init[i];
        }
        if exists i :: 0 <= i < |wp| && wp[i].burnDestination == k {
          var i :| 0 <= i < |wp| && wp[i].burnDestination == k;
          if i < n {
            assert init[i] == wp[i];
          }
        }
      }
    }
  }

  /** The last payout adds its destination to the outputs of the others. */
  lemma WithdrawalVoutsLast(wp: seq<WithdrawalPayout>)
    requires |wp| > 0 && WithdrawalVouts(wp).Ok?
    ensures WithdrawalVouts(wp[..|wp| - 1]).Ok?
    ensures WithdrawalVouts(wp).value.vals.Keys == WithdrawalVouts(wp[..|wp| - 1]).value.vals.Keys + {wp[|wp| - 1].burnDestination}
  {
    var n := |wp| - 1;
    var d := WithdrawalVouts(wp[..n]).value;
    var amount := ParseBigInt(wp[n].amount).value;
    assert WithdrawalVouts(wp).value == Dicts.AddTo(d, wp[n].burnDestination, amount);
  }

  lemma MulStep(n: int, x: int)
    ensures (n + 1) * x == n * x + x
  {
  }

  lemma ShareRemainder(t: int, n: int)
    requires n > 0
    ensures 0 <= t - n * (t / n) < n
  {
  }

  /** The tax loop of `computeVouts`: every address gets `x` more. */
  function PayEach(d: Dicts.Dict<int>, addresses: seq<string>, x: int): (r: Dicts.Dict<int>)
    requires d.Valid()
    ensures r.Valid()
    decreases |addresses|
  {
    if |addresses| == 0 then d
    else
      var n := |addresses| - 1;
      var init := PayEach(d, addresses[..n], x);
      Dicts.AddToValid(init, addresses[n], x);
      Dicts.AddTo(init, addresses[n], x)
  }

  /** Paying `x` to each of `n` addresses raises the total by `n * x`. */
  lemma {:induction false} PayEachTotal(d: Dicts.Dict<int>, addresses: seq<string>, x: int)
    requires d.Valid()
    ensures Dicts.Total(PayEach(d, addresses, x)) == Dicts.Total(d) + |addresses| * x
    decreases |addresses|
  {
    if |addresses| > 0 {
      var n := |addresses| - 1;
      PayEachTotal(d, addresses[..n], x);
      Dicts.TotalAddTo(PayEach(d, addresses[..n], x), addresses[n], x);
      MulStep(n, x);
    }
  }

  /** `totalUnspent`: the satoshi of all the proposed outputs. */
  function UnspentTotal(unspent: seq<Dingo.Utxo>): Result<int>
    decreases |unspent|
  {
    if |unspent| == 0 then Ok(0)
    else
      var init :- UnspentTotal(unspent[..|unspent| - 1]);
      var last :- Satoshi(unspent[|unspent| - 1].amount);
      Ok(init + last)
  }

  /** The share of the tax, after the fee, that each tax address receives. */
  function TaxShare(p: Payouts, taxAddresses: seq<string>): Result<int> {
    var totalTax :- TotalTax(p);
    var fee := NetworkFee(p);
    var _ :- Need(totalTax >= fee, "Insufficient tax for network fee of " + IntToString(fee));
    var _ :- Need(|taxAddresses| > 0, "RangeError: Division by zero");
    Ok((totalTax - fee) / |taxAddresses|)
  }

  /** The tax shares leave less than one satoshi per tax address unpaid. */
  lemma TaxShareSpec(p: Payouts, taxAddresses: seq<string>)
    ensures TaxShare(p, taxAddresses).Ok? <==>
      TotalTax(p).Ok? && TotalTax(p).value >= NetworkFee(p) && |taxAddresses| > 0
    ensures TaxShare(p, taxAddresses).Ok? ==>
      var left := TotalTax(p).value - NetworkFee(p) - |taxAddresses| * TaxShare(p, taxAddresses).value;
      0 <= left < |taxAddresses|
  {
    if TaxShare(p, taxAddresses).Ok? {
      ShareRemainder(TotalTax(p).value - NetworkFee(p), |taxAddresses|);
    }
  }

  /** The withdrawal outputs with every tax address paid its share. */
  function TaxedVouts(p: Payouts, taxAddresses: seq<string>): (r: Result<Dicts.Dict<int>>)
    ensures r.Ok? ==> r.value.Valid()
  {
    var withdrawn :- WithdrawalVouts(p.withdrawalPayouts);
    var share :- TaxShare(p, taxAddresses);
    Ok(PayEach(withdrawn, taxAddresses, share))
  }

  /** Before the change, the outputs total the withdrawals plus the shares. */
  lemma TaxedVoutsTotal(p: Payouts, taxAddresses: seq<string>)
    requires TaxedVouts(p, taxAddresses).Ok?
    ensures SumAmounts(Sorting.MapSeq(WithdrawalAmountOf, p.withdrawalPayouts)).Ok?
    ensures TaxShare(p, taxAddresses).Ok?
    ensures Dicts.Total(TaxedVouts(p, taxAddresses).value) ==
      SumAmounts(Sorting.MapSeq(WithdrawalAmountOf, p.withdrawalPayouts)).value
      + |taxAddresses| * TaxShare(p, taxAddresses).value
  {
    WithdrawalVoutsTotal(p.withdrawalPayouts);
    PayEachTotal(WithdrawalVouts(p.withdrawalPayouts).value, taxAddresses, TaxShare(p, taxAddresses).value);
  }

  /** `computeVouts` up to the dust filter: the outputs in satoshi. They and
      the network fee spend the proposed inputs exactly, and the change is
      never negative. */
  function RawVouts(p: Payouts, unspent: seq<Dingo.Utxo>, taxAddresses: seq<string>,
                    changeAddress: string): (r: Result<Dicts.Dict<int>>)
    ensures r.Ok? ==> r.value.Valid()
    ensures r.Ok? ==> TaxedVouts(p, taxAddresses).Ok? && UnspentTotal(unspent).Ok?
    ensures r.Ok? ==> Dicts.Total(TaxedVouts(p, taxAddresses).value) + NetworkFee(p) <= UnspentTotal(unspent).value
    ensures r.Ok? ==> Dicts.Total(r.value) + NetworkFee(p) == UnspentTotal(unspent).value
  {
    var taxed :- TaxedVouts(p, taxAddresses);
    WithChange(taxed, p, unspent, changeAddress)
  }

  /** The change output of `computeVouts`: what the unspent outputs hold
      beyond the outputs so far and the fee, refused when negative and
      left out when zero. */
  function WithChange(taxed: Dicts.Dict<int>, p: Payouts, unspent: seq<Dingo.Utxo>,
                      changeAddress: string): (r: Result<Dicts.Dict<int>>)
    requires taxed.Valid()
    ensures r.Ok? ==> r.value.Valid() && UnspentTotal(unspent).Ok?
    ensures r.Ok? ==> Dicts.Total(taxed) + NetworkFee(p) <= UnspentTotal(unspent).value
    ensures r.Ok? ==> Dicts.Total(r.value) + NetworkFee(p) == UnspentTotal(unspent).value
    ensures UnspentTotal(unspent).Ok? && Dicts.Total(taxed) + NetworkFee(p) <= UnspentTotal(unspent).value ==> r.Ok?
  {
    var totalUnspent :- UnspentTotal(unspent);
    var change := totalUnspent - Dicts.Total(taxed) - NetworkFee(p);
    var _ :- Need(change >= 0, INSUFFICIENT_FUNDS);
    if change > 0 then
      Dicts.TotalAddTo(taxed, changeAddress, change);
      Ok(Dicts.AddTo(taxed, changeAddress, change))
    else Ok(taxed)
  }

  /** `dingo.fromSatoshi(v.toString())`, which cannot fail. */
  function Coins(v: int): (c: string)
    ensures Dingo.FromSatoshi(Js.Str(IntToString(v))) == Ok(c)
  {
    Dingo.SatoshiRoundTrip(v);
    Dingo.FromSatoshi(Js.Str(IntToString(v))).value
  }

  /** An output written as coins reads back as its satoshi. */
  lemma CoinsRoundTrip(v: int)
    ensures Satoshi(Coins(v)) == Ok(v)
  {
    Dingo.SatoshiRoundTrip(v);
    IntToStringInjective(Satoshi(Coins(v)).value, v);
  }

  /** The conversion loop of `computeVouts`: outputs of at least the dust
      threshold, as coins, in key order. */
  function DustFiltered(d: Dicts.Dict<int>, ks: seq<string>): (r: Dicts.Dict<string>)
    requires forall k :: k in ks ==> k in d.vals
    requires forall i, j :: 0 <= i < j < |ks| ==> ks[i] != ks[j]
    ensures r.Valid()
    decreases |ks|
  {
    if |ks| == 0 then
      Dicts.EmptyValid<string>();
      Dicts.Empty()
    else
      var n := |ks| - 1;
      var init := DustFiltered(d, ks[..n]);
      if d.vals[ks[n]] >= DUST_THRESHOLD then
        Dicts.PutValid(init, ks[n], Coins(d.vals[ks[n]]));
        Dicts.Put(init, ks[n], Coins(d.vals[ks[n]]))
      else init
  }

  /** Exactly the outputs at or above the dust threshold survive, each
      written as the coins of its satoshi. */
  lemma {:induction false} DustFilteredSpec(d: Dicts.Dict<int>, ks: seq<string>)
    requires forall k :: k in ks ==> k in d.vals
    requires forall i, j :: 0 <= i < j < |ks| ==> ks[i] != ks[j]
    ensures forall k :: k in DustFiltered(d, ks).vals <==> k in ks && d.vals[k] >= DUST_THRESHOLD
    ensures forall k :: k in DustFiltered(d, ks).vals ==> DustFiltered(d, ks).vals[k] == Coins(d.vals[k])
    decreases |ks|
  {
    if |ks| > 0 {
      var n := |ks| - 1;
      DustFilteredSpec(d, ks[..n]);
      assert ks == ks[..n] + [ks[n]];
      assert ks[n] !in ks[..n];
    }
  }

  /** `computeVouts(depositTaxPayouts, withdrawalPayouts, withdrawalTaxPayouts, unspent)`. */
  function ComputedVouts(p: Payouts, unspent: seq<Dingo.Utxo>, taxAddresses: seq<string>,
                         changeAddress: string): Result<Dicts.Dict<string>> {
    var raw :- RawVouts(p, unspent, taxAddresses, changeAddress);
    Ok(DustFiltered(raw, raw.keys))
  }

  /** The outputs `computeVouts` returns: exactly the addresses holding at
      least the dust threshold before the filter, each written as coins,
      from outputs that with the fee spend the inputs exactly. */
  lemma ComputedVoutsSpec(p: Payouts, unspent: seq<Dingo.Utxo>, taxAddresses: seq<string>, changeAddress: string)
    requires ComputedVouts(p, unspent, taxAddresses, changeAddress).Ok?
    ensures RawVouts(p, unspent, taxAddresses, changeAddress).Ok?
    ensures UnspentTotal(unspent).Ok?
    ensures var raw := RawVouts(p, unspent, taxAddresses, changeAddress).value;
      var out := ComputedVouts(p, unspent, taxAddresses, changeAddress).value;
      && Dicts.Total(raw) + NetworkFee(p) == UnspentTotal(unspent).value
      && (forall k :: k in out.vals <==> k in raw.vals && raw.vals[k] >= DUST_THRESHOLD)
      && (forall k :: k in out.vals ==> out.vals[k] == Coins(raw.vals[k]))
  {
    var raw := RawVouts(p, unspent, taxAddresses, changeAddress).value;
    DustFilteredSpec(raw, raw.keys);
  }
}
