/** The authority node's three tables and the statements run against
    them: the used deposit addresses, the registered mint deposit
    addresses with their two approval counters, and the submitted
    withdrawals with theirs.

    Each table is a sequence of rows in insertion (rowid) order. No
    uniqueness constraint is assumed: an INSERT always succeeds, and the
    lookups that expect one row report a duplicate as an error, as
    database.js does. Counters are integers; a column the INSERT leaves out
    starts at zero. */
module Database {

  import opened Results

  /** What the lookups throw when more than one row matches. */
  const DUPLICATE_MINT: string := "Whoever wrote the SQL code is a noob"
  const DUPLICATE_WITHDRAWAL: string := "Withdrawal duplicated on (burnSignature)"

  datatype MintRow = MintRow(mintAddress: string, depositAddress: string, redeemScript: string,
                             approvedAmount: int, approvedTax: int)

  datatype WithdrawalRow = WithdrawalRow(burnSignature: string, burnAmount: int, burnDestination: string,
                                         approvedAmount: int, approvedTax: int)

  /** `xs.filter(p)`, in order. */
  function Filter<T>(xs: seq<T>, p: T -> bool): seq<T>
    decreases |xs|
  {
    if |xs| == 0 then [] else (if p(xs[0]) then [xs[0]] else []) + Filter(xs[1..], p)
  }

  lemma {:induction false} FilterMembers<T>(xs: seq<T>, p: T -> bool)
    ensures forall x :: x in Filter(xs, p) <==> x in xs && p(x)
    ensures |Filter(xs, p)| <= |xs|
    decreases |xs|
  {
    if |xs| > 0 {
      FilterMembers(xs[1..], p);
      assert forall x :: x in xs <==> x == xs[0] || x in xs[1..];
    }
  }

  lemma {:induction false} FilterAll<T>(xs: seq<T>, p: T -> bool)
    requires forall i :: 0 <= i < |xs| ==> p(xs[i])
    ensures Filter(xs, p) == xs
    decreases |xs|
  {
    if |xs| > 0 {
      FilterAll(xs[1..], p);
    }
  }

  /** Two positions that pass the filter make it keep at least two rows. */
  lemma {:induction false} FilterAtLeastTwo<T>(xs: seq<T>, p: T -> bool, i: int, j: int)
    requires 0 <= i < j < |xs| && p(xs[i]) && p(xs[j])
    ensures |Filter(xs, p)| >= 2
    decreases |xs|
  {
    FilterMembers(xs[1..], p);
    if i == 0 {
      assert xs[j] in xs[1..];
    } else {
      FilterAtLeastTwo(xs[1..], p, i - 1, j - 1);
    }
  }

  /** A filter that keeps at most one row passes at most one position. */
  lemma FilterAtMostOne<T>(xs: seq<T>, p: T -> bool)
    requires |Filter(xs, p)| <= 1
    ensures forall i, j :: 0 <= i < j < |xs| && p(xs[i]) ==> !p(xs[j])
  {
    forall i, j | 0 <= i < j < |xs| && p(xs[i]) && p(xs[j]) ensures false {
      FilterAtLeastTwo(xs, p, i, j);
    }
  }

  /** `UPDATE mintDepositAddresses SET approvedAmount=?, approvedTax=?
      WHERE depositAddress=?` with the values of `u`. */
  function SetMintCounters(rows: seq<MintRow>, u: MintRow): (r: seq<MintRow>)
    ensures |r| == |rows|
  {
    seq(|rows|, i requires 0 <= i < |rows| =>
      if rows[i].depositAddress == u.depositAddress
      then rows[i].(approvedAmount := u.approvedAmount, approvedTax := u.approvedTax)
      else rows[i])
  }

  /** The updates of `updateMintDepositAddresses(updates)`, one after another. */
  function UpdateMints(rows: seq<MintRow>, updates: seq<MintRow>): seq<MintRow>
    decreases |updates|
  {
    if |updates| == 0 then rows
    else SetMintCounters(UpdateMints(rows, updates[..|updates| - 1]), updates[|updates| - 1])
  }

  /** Row i keeps its identity; only the two counters may change. */
  predicate SameMintIdentity(a: MintRow, b: MintRow) {
    a.mintAddress == b.mintAddress && a.depositAddress == b.depositAddress && a.redeemScript == b.redeemScript
  }

  /** The mint updates touch the two counters and nothing else, and leave a
      row matched by no update as it was; a matched row takes the counters of
      the last update naming its deposit address. */
  lemma {:induction false} UpdateMintsSpec(rows: seq<MintRow>, updates: seq<MintRow>)
    ensures |UpdateMints(rows, updates)| == |rows|
    ensures forall i :: 0 <= i < |rows| ==> SameMintIdentity(UpdateMints(rows, updates)[i], rows[i])
    ensures forall i :: 0 <= i < |rows| && (forall k :: 0 <= k < |updates| ==> updates[k].depositAddress != rows[i].depositAddress) ==>
      UpdateMints(rows, updates)[i] == rows[i]
    ensures forall i, k ::
      (&& 0 <= i < |rows| && 0 <= k < |updates| && updates[k].depositAddress == rows[i].depositAddress
       && (forall l :: k < l < |updates| ==> updates[l].depositAddress != rows[i].depositAddress)) ==>
        UpdateMints(rows, updates)[i].approvedAmount == updates[k].approvedAmount &&
        UpdateMints(rows, updates)[i].approvedTax == updates[k].approvedTax
    decreases |updates|
  {
    if |updates| > 0 {
      var n := |updates| - 1;
      var init := updates[..n];
      UpdateMintsSpec(rows, init);
      assert forall k :: 0 <= k < n ==> init[k] == updates[k];
    }
  }

  /** A row takes the counters of the last update naming its address. */
  lemma UpdateMintsLast(rows: seq<MintRow>, updates: seq<MintRow>, i: int, k: int)
    requires 0 <= i < |rows| && 0 <= k < |updates|
    requires updates[k].depositAddress == rows[i].depositAddress
    requires forall l :: k < l < |updates| ==> updates[l].depositAddress != rows[i].depositAddress
    ensures |UpdateMints(rows, updates)| == |rows|
    ensures UpdateMints(rows, updates)[i] ==
      rows[i].(approvedAmount := updates[k].approvedAmount, approvedTax := updates[k].approvedTax)
  {
    UpdateMintsSpec(rows, updates);
  }

  /** A row no update names is left as it was. */
  lemma UpdateMintsUnmatched(rows: seq<MintRow>, updates: seq<MintRow>, i: int)
    requires 0 <= i < |rows|
    requires forall k :: 0 <= k < |updates| ==> updates[k].depositAddress != rows[i].depositAddress
    ensures |UpdateMints(rows, updates)| == |rows|
    ensures UpdateMints(rows, updates)[i] == rows[i]
  {
    UpdateMintsSpec(rows, updates);
  }

  /** `UPDATE withdrawals SET approvedAmount=?, approvedTax=? WHERE burnSignature=?`. */
  function SetWithdrawalCounters(rows: seq<WithdrawalRow>, u: WithdrawalRow): (r: seq<WithdrawalRow>)
    ensures |r| == |rows|
  {
    seq(|rows|, i requires 0 <= i < |rows| =>
      if rows[i].burnSignature == u.burnSignature
      then rows[i].(approvedAmount := u.approvedAmount, approvedTax := u.approvedTax)
      else rows[i])
  }

  function UpdateWithdrawalRows(rows: seq<WithdrawalRow>, updates: seq<WithdrawalRow>): seq<WithdrawalRow>
    decreases |updates|
  {
    if |updates| == 0 then rows
    else SetWithdrawalCounters(UpdateWithdrawalRows(rows, updates[..|updates| - 1]), updates[|updates| - 1])
  }

  predicate SameWithdrawalIdentity(a: WithdrawalRow, b: WithdrawalRow) {
    a.burnSignature == b.burnSignature && a.burnAmount == b.burnAmount && a.burnDestination == b.burnDestination
  }

  /** The withdrawal updates touch the two counters and nothing else; a
      matched row takes the counters of the last update naming its burn. */
  lemma {:induction false} UpdateWithdrawalRowsSpec(rows: seq<WithdrawalRow>, updates: seq<WithdrawalRow>)
    ensures |UpdateWithdrawalRows(rows, updates)| == |rows|
    ensures forall i :: 0 <= i < |rows| ==> SameWithdrawalIdentity(UpdateWithdrawalRows(rows, updates)[i], rows[i])
    ensures forall i :: 0 <= i < |rows| && (forall k :: 0 <= k < |updates| ==> updates[k].burnSignature != rows[i].burnSignature) ==>
      UpdateWithdrawalRows(rows, updates)[i] == rows[i]
    ensures forall i, k ::
      (&& 0 <= i < |rows| && 0 <= k < |updates| && updates[k].burnSignature == rows[i].burnSignature
       && (forall l :: k < l < |updates| ==> updates[l].burnSignature != rows[i].burnSignature)) ==>
        UpdateWithdrawalRows(rows, updates)[i].approvedAmount == updates[k].approvedAmount &&
        UpdateWithdrawalRows(rows, updates)[i].approvedTax == updates[k].approvedTax
    decreases |updates|
  {
    if |updates| > 0 {
      var n := |updates| - 1;
      var init := updates[..n];
      UpdateWithdrawalRowsSpec(rows, init);
      assert forall k :: 0 <= k < n ==> init[k] == updates[k];
    }
  }

  /** A row takes the counters of the last update naming its burn. */
  lemma UpdateWithdrawalsLast(rows: seq<WithdrawalRow>, updates: seq<WithdrawalRow>, i: int, k: int)
    requires 0 <= i < |rows| && 0 <= k < |updates|
    requires updates[k].burnSignature == rows[i].burnSignature
    requires forall l :: k < l < |updates| ==> updates[l].burnSignature != rows[i].burnSignature
    ensures |UpdateWithdrawalRows(rows, updates)| == |rows|
    ensures UpdateWithdrawalRows(rows, updates)[i] ==
      rows[i].(approvedAmount := updates[k].approvedAmount, approvedTax := updates[k].approvedTax)
  {
    UpdateWithdrawalRowsSpec(rows, updates);
  }

  /** A row no update names is left as it was. */
  lemma UpdateWithdrawalsUnmatched(rows: seq<WithdrawalRow>, updates: seq<WithdrawalRow>, i: int)
    requires 0 <= i < |rows|
    requires forall k :: 0 <= k < |updates| ==> updates[k].burnSignature != rows[i].burnSignature
    ensures |UpdateWithdrawalRows(rows, updates)| == |rows|
    ensures UpdateWithdrawalRows(rows, updates)[i] == rows[i]
  {
    UpdateWithdrawalRowsSpec(rows, updates);
  }

  /** Some address of `addresses` is in `used`: `SELECT COUNT(*) ... IN (...) > 0`. */
  predicate AnyUsed(used: seq<string>, addresses: seq<string>) {
    exists i :: 0 <= i < |addresses| && addresses[i] in used
  }

  /** Once registered, a non-empty batch of addresses reads as used. */
  lemma RegisteredAreUsed(used: seq<string>, addresses: seq<string>)
    requires |addresses| > 0
    ensures AnyUsed(used + addresses, addresses)
  {
    assert addresses[0] == (used + addresses)[|used|];
  }

  function MintsWithAddress(rows: seq<MintRow>, mintAddress: string): seq<MintRow> {
    Filter(rows, (r: MintRow) => r.mintAddress == mintAddress)
  }

  function WithdrawalsWithSignature(rows: seq<WithdrawalRow>, burnSignature: string): seq<WithdrawalRow> {
    Filter(rows, (r: WithdrawalRow) => r.burnSignature == burnSignature)
  }

  /** The rows `getMintDepositAddresses(filter)` selects: those whose deposit
      address is listed, or every row when there is no filter. */
  predicate Selected(filter: Option<seq<string>>, row: MintRow) {
    match filter
    case None => true
    case Some(addresses) => row.depositAddress in addresses
  }

  function MintsWithDepositIn(rows: seq<MintRow>, filter: Option<seq<string>>): seq<MintRow> {
    Filter(rows, (r: MintRow) => Selected(filter, r))
  }

  function Unapproved(rows: seq<WithdrawalRow>): seq<WithdrawalRow> {
    Filter(rows, (r: WithdrawalRow) => r.approvedTax == 0)
  }

  /** `hasUsedDepositAddresses(addresses)` over the used-address table. */
  function HasUsedDepositAddresses(used: seq<string>, addresses: seq<string>): (r: bool)
    ensures r <==> exists a :: a in addresses && a in used
  {
    AnyUsed(used, addresses)
  }

  /** `getMintDepositAddress(mintAddress)`: no row is `None`, one row is
      that row, and more than one is an error. */
  function GetMintDepositAddress(mints: seq<MintRow>, mintAddress: string): (r: Result<Option<MintRow>>)
    ensures r == Ok(None) <==> forall i :: 0 <= i < |mints| ==> mints[i].mintAddress != mintAddress
    ensures r.Ok? && r.value.Some? ==> r.value.value in mints && r.value.value.mintAddress == mintAddress
    ensures r.Err? <==> exists i, j :: 0 <= i < j < |mints| && mints[i].mintAddress == mintAddress && mints[j].mintAddress == mintAddress
    ensures r.Err? ==> r.error == DUPLICATE_MINT
  {
    var found := MintsWithAddress(mints, mintAddress);
    FilterMembers(mints, (r: MintRow) => r.mintAddress == mintAddress);
    if |found| == 0 then
      assert forall i :: 0 <= i < |mints| ==> mints[i] !in found;
      Ok(None)
    else if |found| != 1 then
      UniqueFilter(mints, mintAddress);
      Err(DUPLICATE_MINT)
    else
      FilterAtMostOne(mints, (r: MintRow) => r.mintAddress == mintAddress);
      assert found[0] in found;
      Ok(Some(found[0]))
  }

  /** `getMintDepositAddresses(filter)`: the rows whose deposit address is
      listed, in table order; every row without a filter. */
  function GetMintDepositAddresses(mints: seq<MintRow>, filter: Option<seq<string>>): (r: seq<MintRow>)
    ensures forall row :: row in r <==> row in mints && Selected(filter, row)
    ensures filter.None? ==> r == mints
  {
    FilterMembers(mints, (r: MintRow) => Selected(filter, r));
    if filter.None? then
      FilterAll(mints, (r: MintRow) => Selected(filter, r));
      MintsWithDepositIn(mints, filter)
    else
      MintsWithDepositIn(mints, filter)
  }

  /** `getWithdrawal(burnSignature)`. */
  function GetWithdrawal(withdrawals: seq<WithdrawalRow>, burnSignature: string): (r: Result<Option<WithdrawalRow>>)
    ensures r == Ok(None) <==> forall i :: 0 <= i < |withdrawals| ==> withdrawals[i].burnSignature != burnSignature
    ensures r.Ok? && r.value.Some? ==> r.value.value in withdrawals && r.value.value.burnSignature == burnSignature
    ensures r.Err? <==> exists i, j ::
      0 <= i < j < |withdrawals| && withdrawals[i].burnSignature == burnSignature && withdrawals[j].burnSignature == burnSignature
    ensures r.Err? ==> r.error == DUPLICATE_WITHDRAWAL
  {
    var found := WithdrawalsWithSignature(withdrawals, burnSignature);
    FilterMembers(withdrawals, (r: WithdrawalRow) => r.burnSignature == burnSignature);
    if |found| == 0 then
      assert forall i :: 0 <= i < |withdrawals| ==> withdrawals[i] !in found;
      Ok(None)
    else if |found| != 1 then
      UniqueWithdrawalFilter(withdrawals, burnSignature);
      Err(DUPLICATE_WITHDRAWAL)
    else
      FilterAtMostOne(withdrawals, (r: WithdrawalRow) => r.burnSignature == burnSignature);
      assert found[0] in found;
      Ok(Some(found[0]))
  }

  /** `getUnapprovedWithdrawals()`: the rows whose tax counter is still
      zero, in table order. */
  function GetUnapprovedWithdrawals(withdrawals: seq<WithdrawalRow>): (r: seq<WithdrawalRow>)
    ensures forall w :: w in r <==> w in withdrawals && w.approvedTax == 0
  {
    FilterMembers(withdrawals, (r: WithdrawalRow) => r.approvedTax == 0);
    Unapproved(withdrawals)
  }

  /** The database of one authority node. Its queries are the functions
      above, applied to the table contents; its statements that write are
      the methods below. */
  class Store {
    var used: seq<string>
    var mints: seq<MintRow>
    var withdrawals: seq<WithdrawalRow>

    /** A freshly created database: every table empty. */
    constructor ()
      ensures used == [] && mints == [] && withdrawals == []
    {
      used := [];
      mints := [];
      withdrawals := [];
    }

    /** `registerUsedDepositAddresses(addresses)`: one INSERT per address. */
    method RegisterUsedDepositAddresses(addresses: seq<string>)
      modifies this
      ensures used == old(used) + addresses
      ensures mints == old(mints) && withdrawals == old(withdrawals)
    {
      var i := 0;
      while i < |addresses|
        invariant 0 <= i <= |addresses|
        invariant used == old(used) + addresses[..i]
        invariant mints == old(mints) && withdrawals == old(withdrawals)
      {
        used := used + [addresses[i]];
        i := i + 1;
      }
      assert addresses[..|addresses|] == addresses;
    }

    /** `registerMintDepositAddress(mintAddress, depositAddress, redeemScript)`. */
    method RegisterMintDepositAddress(mintAddress: string, depositAddress: string, redeemScript: string)
      modifies this
      ensures mints == old(mints) + [MintRow(mintAddress, depositAddress, redeemScript, 0, 0)]
      ensures used == old(used) && withdrawals == old(withdrawals)
    {
      mints := mints + [MintRow(mintAddress, depositAddress, redeemScript, 0, 0)];
    }

    /** `updateMintDepositAddresses(updates)`: one UPDATE per entry, keyed by
        deposit address, writing only the two counters. */
    method UpdateMintDepositAddresses(updates: seq<MintRow>)
      modifies this
      ensures mints == UpdateMints(old(mints), updates)
      ensures used == old(used) && withdrawals == old(withdrawals)
    {
      var i := 0;
      while i < |updates|
        invariant 0 <= i <= |updates|
        invariant mints == UpdateMints(old(mints), updates[..i])
        invariant used == old(used) && withdrawals == old(withdrawals)
      {
        assert updates[..i + 1][..i] == updates[..i];
        mints := SetMintCounters(mints, updates[i]);
        i := i + 1;
      }
      assert updates[..|updates|] == updates;
    }

    /** `registerWithdrawal(burn)`: the three burn fields; the counters start at zero. */
    method RegisterWithdrawal(burnSignature: string, burnAmount: int, burnDestination: string)
      modifies this
      ensures withdrawals == old(withdrawals) + [WithdrawalRow(burnSignature, burnAmount, burnDestination, 0, 0)]
      ensures used == old(used) && mints == old(mints)
    {
      withdrawals := withdrawals + [WithdrawalRow(burnSignature, burnAmount, burnDestination, 0, 0)];
    }

    /** `updateWithdrawals(updates)`: one UPDATE per entry, keyed by burn
        signature, writing only the two counters. */
    method UpdateWithdrawals(updates: seq<WithdrawalRow>)
      modifies this
      ensures withdrawals == UpdateWithdrawalRows(old(withdrawals), updates)
      ensures used == old(used) && mints == old(mints)
    {
      var i := 0;
      while i < |updates|
        invariant 0 <= i <= |updates|
        invariant withdrawals == UpdateWithdrawalRows(old(withdrawals), updates[..i])
        invariant used == old(used) && mints == old(mints)
      {
        assert updates[..i + 1][..i] == updates[..i];
        withdrawals := SetWithdrawalCounters(withdrawals, updates[i]);
        i := i + 1;
      }
      assert updates[..|updates|] == updates;
    }
  }

  /** More than one row for a mint address means two distinct positions hold it. */
  lemma {:induction false} UniqueFilter(rows: seq<MintRow>, mintAddress: string)
    requires |MintsWithAddress(rows, mintAddress)| >= 2
    ensures exists i, j :: 0 <= i < j < |rows| && rows[i].mintAddress == mintAddress && rows[j].mintAddress == mintAddress
    decreases |rows|
  {
    var p := (r: MintRow) => r.mintAddress == mintAddress;
    assert MintsWithAddress(rows, mintAddress) == Filter(rows, p);
    var rest := rows[1..];
    if rows[0].mintAddress == mintAddress {
      FilterMembers(rest, p);
      var f := Filter(rest, p);
      assert f[0] in f;
      var j :| 0 <= j < |rest| && rest[j] == f[0];
      assert rows[j + 1].mintAddress == mintAddress;
    } else {
      assert MintsWithAddress(rest, mintAddress) == Filter(rest, p);
      UniqueFilter(rest, mintAddress);
      var i, j :| 0 <= i < j < |rest| && rest[i].mintAddress == mintAddress && rest[j].mintAddress == mintAddress;
      assert rows[i + 1] == rest[i] && rows[j + 1] == rest[j];
    }
  }

  lemma {:induction false} UniqueWithdrawalFilter(rows: seq<WithdrawalRow>, burnSignature: string)
    requires |WithdrawalsWithSignature(rows, burnSignature)| >= 2
    ensures exists i, j ::
      0 <= i < j < |rows| && rows[i].burnSignature == burnSignature && rows[j].burnSignature == burnSignature
    decreases |rows|
  {
    var p := (r: WithdrawalRow) => r.burnSignature == burnSignature;
    assert WithdrawalsWithSignature(rows, burnSignature) == Filter(rows, p);
    var rest := rows[1..];
    if rows[0].burnSignature == burnSignature {
      FilterMembers(rest, p);
      var f := Filter(rest, p);
      assert f[0] in f;
      var j :| 0 <= j < |rest| && rest[j] == f[0];
      assert rows[j + 1].burnSignature == burnSignature;
    } else {
      assert WithdrawalsWithSignature(rest, burnSignature) == Filter(rest, p);
      UniqueWithdrawalFilter(rest, burnSignature);
      var i, j :| 0 <= i < j < |rest| && rest[i].burnSignature == burnSignature && rest[j].burnSignature == burnSignature;
      assert rows[i + 1] == rest[i] && rows[j + 1] == rest[j];
    }
  }
}
