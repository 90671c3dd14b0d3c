/** The operator's command line (cli.js): it asks every authority node for
    its view of the pending work, keeps what all of them agree on, and then
    walks the nodes once more for their approvals. The requests and the
    nodes' validated answers are parameters here; what is modelled is how
    the answers are merged and threaded. */
module Cli {

  import opened Results
  import opened Decimal
  import opened Accounting
  import Js
  import Dingo
  import Handlers
  import Sorting

  const PARSE_BOOL: string := "Unable to parse bool string: "
  const NOTHING_TO_PROCESS: string := "At least one of deposits or withdrawals must be processed"
  const NULL_LENGTH: string := "TypeError: Cannot read properties of null (reading 'length')"
  const NULL_REDUCE: string := "TypeError: Cannot read properties of null (reading 'reduce')"

  // ---------------------------------------------------------------------
  // Command arguments (cli.js:38-46, 724-743)

  /** `parseBool(s)`: only the two literals are booleans. */
  function ParseBool(s: string): (r: Result<bool>)
    ensures r.Ok? <==> s == "true" || s == "false"
    ensures r.Ok? ==> r.value == (s == "true")
    ensures r.Err? ==> r.error == PARSE_BOOL + s
  {
    if s == "true" then Ok(true)
    else if s == "false" then Ok(false)
    else Err(PARSE_BOOL + s)
  }

  /** How a boolean is written on the command line. */
  function ShowBool(b: bool): string {
    if b then "true" else "false"
  }

  /** Reading a written boolean gives it back, and the written form is the
      only string that reads as that boolean. */
  lemma ParseBoolRoundTrip(b: bool, s: string)
    ensures ParseBool(ShowBool(b)) == Ok(b)
    ensures ParseBool(s) == Ok(b) ==> s == ShowBool(b)
  {
  }

  /** The arguments of `executePayouts` and `executePayoutsTest`: two
      booleans, at least one of them true. */
  function PayoutFlags(deposits: string, withdrawals: string): (r: Result<(bool, bool)>)
    ensures r.Ok? <==> ParseBool(deposits).Ok? && ParseBool(withdrawals).Ok? &&
                       (ParseBool(deposits).value || ParseBool(withdrawals).value)
    ensures r.Ok? ==> ParseBool(deposits) == Ok(r.value.0) && ParseBool(withdrawals) == Ok(r.value.1)
    ensures deposits == "false" && withdrawals == "false" ==> r == Err(NOTHING_TO_PROCESS)
  {
    var processDeposits :- ParseBool(deposits);
    var processWithdrawals :- ParseBool(withdrawals);
    var _ :- Need(processDeposits || processWithdrawals, NOTHING_TO_PROCESS);
    Ok((processDeposits, processWithdrawals))
  }

  // ---------------------------------------------------------------------
  // Array filters

  /** `xs.filter(keep)` */
  function FilterBy<T>(xs: seq<T>, keep: T -> bool): (r: seq<T>)
    ensures |r| <= |xs|
    decreases |xs|
  {
    if |xs| == 0 then []
    else FilterBy(xs[..|xs| - 1], keep) + if keep(xs[|xs| - 1]) then [xs[|xs| - 1]] else []
  }

  /** A filter keeps exactly the elements that pass. */
  lemma {:induction false} FilterByMembers<T>(xs: seq<T>, keep: T -> bool)
    ensures forall x :: x in FilterBy(xs, keep) <==> x in xs && keep(x)
    decreases |xs|
  {
    if |xs| > 0 {
      var n := |xs| - 1;
      FilterByMembers(xs[..n], keep);
      assert xs == xs[..n] + [xs[n]];
    }
  }

  /** `i` is the only index whose element passes. */
  predicate OnlyAt<T>(xs: seq<T>, keep: T -> bool, i: int) {
    0 <= i < |xs| && keep(xs[i]) && forall k :: 0 <= k < |xs| && k != i ==> !keep(xs[k])
  }

  /** A filter that passes nothing is empty. */
  lemma {:induction false} FilterByNone<T>(xs: seq<T>, keep: T -> bool)
    ensures FilterBy(xs, keep) == [] <==> forall k :: 0 <= k < |xs| ==> !keep(xs[k])
    decreases |xs|
  {
    if |xs| > 0 {
      var n := |xs| - 1;
      FilterByNone(xs[..n], keep);
      assert forall k :: 0 <= k < n ==> xs[..n][k] == xs[k];
    }
  }

  /** A filter has exactly one element when exactly one element passes,
      and then that element is its only one. */
  lemma {:induction false} FilterByOne<T>(xs: seq<T>, keep: T -> bool)
    ensures |FilterBy(xs, keep)| == 1 <==> exists i :: OnlyAt(xs, keep, i)
    ensures forall i :: OnlyAt(xs, keep, i) ==> FilterBy(xs, keep) == [xs[i]]
    decreases |xs|
  {
    if |xs| > 0 {
      var n := |xs| - 1;
      var init := xs[..n];
      FilterByOne(init, keep);
      FilterByNone(init, keep);
      assert forall k :: 0 <= k < n ==> init[k] == xs[k];
      if keep(xs[n]) {
        if |FilterBy(xs, keep)| == 1 {
          assert OnlyAt(xs, keep, n);
        }
        forall i | OnlyAt(xs, keep, i) ensures FilterBy(xs, keep) == [xs[i]] {
          assert i == n;
        }
      } else {
        forall i | OnlyAt(xs, keep, i) ensures OnlyAt(init, keep, i) && FilterBy(xs, keep) == [xs[i]] {
          assert i < n;
        }
        if |FilterBy(xs, keep)| == 1 {
          var i :| OnlyAt(init, keep, i);
          assert OnlyAt(xs, keep, i);
        }
      }
    }
  }

  /** `ok` holds of `x` and every node's list after the first. */
  predicate AllLater<T, U>(lists: seq<seq<T>>, x: U, ok: (seq<T>, U) -> bool) {
    forall j :: 1 <= j < |lists| ==> ok(lists[j], x)
  }

  lemma AllLaterSplit<T, U>(lists: seq<seq<T>>, ok: (seq<T>, U) -> bool)
    requires |lists| > 1
    ensures forall x :: AllLater(lists, x, ok) <==>
      AllLater(lists[..|lists| - 1], x, ok) && ok(lists[|lists| - 1], x)
  {
    var n := |lists| - 1;
    assert forall j :: 0 <= j < n ==> lists[..n][j] == lists[j];
  }

  // ---------------------------------------------------------------------
  // The pending-mint consensus (cli.js:354-413)

  type MintRequest = Handlers.MintRequest

  /** The pair a mint entry is matched on. */
  function MintKey(m: MintRequest): (string, string) {
    (m.mintAddress, m.depositAddress)
  }

  /** `pendingMint.find(y => same addresses as x)`: the first entry of a
      node's list for the same pair. */
  function FindMint(ys: seq<MintRequest>, x: MintRequest): (r: Option<MintRequest>)
    ensures r.None? <==> forall y :: y in ys ==> MintKey(y) != MintKey(x)
    ensures r.Some? ==> r.value in ys && MintKey(r.value) == MintKey(x)
    decreases |ys|
  {
    if |ys| == 0 then None
    else if MintKey(ys[0]) == MintKey(x) then Some(ys[0])
    else
      assert forall y :: y in ys ==> y == ys[0] || y in ys[1..];
      FindMint(ys[1..], x)
  }

  /** One entry of the merged list against the next node's list: dropped
      when that node does not list its pair, otherwise kept with the
      smaller of the two amounts. */
  function MergeMint(pending: seq<MintRequest>, x: MintRequest): Result<Option<MintRequest>> {
    var found := FindMint(pending, x);
    if found.None? then Ok(None)
    else
      var mine :- ParseBigInt(x.mintAmount);
      var theirs :- ParseBigInt(found.value.mintAmount);
      Ok(Some(Handlers.MintRequest(x.mintAddress, x.depositAddress,
                                   if mine < theirs then x.mintAmount else found.value.mintAmount)))
  }

  function MintStep(pending: seq<MintRequest>): MintRequest -> Result<Option<MintRequest>> {
    (x: MintRequest) => MergeMint(pending, x)
  }

  /** A list merged over the nodes' answers: null before the first node,
      that node's list after it, then merged with each later node's list. */
  function MergeAll<T>(lists: seq<seq<T>>, merge: (seq<T>, seq<T>) -> Result<seq<T>>): Result<Option<seq<T>>>
    decreases |lists|
  {
    if |lists| == 0 then Ok(None)
    else
      var prev :- MergeAll(lists[..|lists| - 1], merge);
      var next := lists[|lists| - 1];
      if prev.None? then Ok(Some(next))
      else
        var merged :- merge(prev.value, next);
        Ok(Some(merged))
  }

  /** Once a node's list cannot be merged, the later nodes are not asked. */
  lemma {:induction false} MergeAllStopped<T>(lists: seq<seq<T>>, k: nat, merge: (seq<T>, seq<T>) -> Result<seq<T>>)
    requires k <= |lists|
    requires MergeAll(lists[..k], merge).Err?
    ensures MergeAll(lists, merge) == MergeAll(lists[..k], merge)
    decreases |lists|
  {
    if k == |lists| {
      assert lists[..k] == lists;
    } else {
      var n := |lists| - 1;
      assert lists[..n][..k] == lists[..k];
      MergeAllStopped(lists[..n], k, merge);
    }
  }

  /** The mint list merged with one more node's list. */
  function MergeMints(acc: seq<MintRequest>, next: seq<MintRequest>): Result<seq<MintRequest>> {
    Collect(acc, MintStep(next))
  }

  /** `mintList` after the loop over the nodes' pending mints. */
  function MintList(lists: seq<seq<MintRequest>>): Result<Option<seq<MintRequest>>> {
    MergeAll(lists, MergeMints)
  }

  /** The mint the operator then asks every node to approve: the first
      entry of the consensus, or nothing to mint. */
  function ChosenMint(lists: seq<seq<MintRequest>>): Result<Option<MintRequest>> {
    var list :- MintList(lists);
    if list.None? then Err(NULL_LENGTH)
    else if |list.value| == 0 then Ok(None)
    else Ok(Some(list.value[0]))
  }

  /** The merge loop over the nodes' answers to `computePendingMint`. */
  method MintConsensus(pending: seq<seq<MintRequest>>) returns (r: Result<Option<seq<MintRequest>>>)
    ensures r == MintList(pending)
  {
    var mintList: Option<seq<MintRequest>> := None;
    var i := 0;
    while i < |pending|
      invariant 0 <= i <= |pending|
      invariant MintList(pending[..i]) == Ok(mintList)
    {
      assert pending[..i + 1][..i] == pending[..i];
      if mintList.None? {
        mintList := Some(pending[i]);
      } else {
        var merged := MergeMints(mintList.value, pending[i]);
        if merged.Err? {
          MergeAllStopped(pending, i + 1, MergeMints);
          return Err(merged.error);
        }
        mintList := Some(merged.value);
      }
      i := i + 1;
    }
    assert pending[..i] == pending;
    r := Ok(mintList);
  }

  /** The pairs a node's list names. */
  function HasKey(ys: seq<MintRequest>): ((string, string)) -> bool {
    k => exists y :: y in ys && MintKey(y) == k
  }

  /** The pairs of the first node's list, in its order, that every later
      node's list names too. */
  function AgreedKeys(lists: seq<seq<MintRequest>>): seq<(string, string)>
    requires |lists| > 0
    decreases |lists|
  {
    if |lists| == 1 then Sorting.MapSeq(MintKey, lists[0])
    else FilterBy(AgreedKeys(lists[..|lists| - 1]), HasKey(lists[|lists| - 1]))
  }

  /** The node's list names the pair. */
  predicate Lists(ys: seq<MintRequest>, k: (string, string)) {
    HasKey(ys)(k)
  }

  /** Every node after the first lists the pair. */
  predicate KeyInLater(lists: seq<seq<MintRequest>>, k: (string, string)) {
    AllLater(lists, k, Lists)
  }

  lemma {:induction false} AgreedKeysMembers(lists: seq<seq<MintRequest>>)
    requires |lists| > 0
    ensures forall k :: k in AgreedKeys(lists) <==> k in Sorting.MapSeq(MintKey, lists[0]) && KeyInLater(lists, k)
    decreases |lists|
  {
    if |lists| > 1 {
      var n := |lists| - 1;
      var prev := lists[..n];
      AgreedKeysMembers(prev);
      FilterByMembers(AgreedKeys(prev), HasKey(lists[n]));
      AllLaterSplit(lists, Lists);
      assert prev[0] == lists[0];
      assert AgreedKeys(lists) == FilterBy(AgreedKeys(prev), HasKey(lists[n]));
      forall k ensures k in AgreedKeys(lists) <==> k in Sorting.MapSeq(MintKey, lists[0]) && KeyInLater(lists, k) {
        assert k in AgreedKeys(lists) <==> k in AgreedKeys(prev) && HasKey(lists[n])(k);
        assert k in AgreedKeys(prev) <==> k in Sorting.MapSeq(MintKey, lists[0]) && KeyInLater(prev, k);
      }
    }
  }

  /** Merging with one more node keeps, in order, the pairs that node names. */
  lemma {:induction false} MergeMintKeys(acc: seq<MintRequest>, next: seq<MintRequest>)
    requires Collect(acc, MintStep(next)).Ok?
    ensures Sorting.MapSeq(MintKey, Collect(acc, MintStep(next)).value) ==
            FilterBy(Sorting.MapSeq(MintKey, acc), HasKey(next))
    decreases |acc|
  {
    if |acc| > 0 {
      var n := |acc| - 1;
      var f := MintStep(next);
      MergeMintKeys(acc[..n], next);
      var keys := Sorting.MapSeq(MintKey, acc);
      assert keys[..n] == Sorting.MapSeq(MintKey, acc[..n]);
      assert keys[n] == MintKey(acc[n]);
      var last := f(acc[n]);
      assert last == MergeMint(next, acc[n]);
      assert last.value.Some? <==> HasKey(next)(MintKey(acc[n]));
      assert last.value.Some? ==> MintKey(last.value.value) == MintKey(acc[n]);
    }
  }

  /** The consensus lists, in the first node's order, exactly the pairs
      that every node lists. */
  lemma {:induction false} MintListKeys(lists: seq<seq<MintRequest>>)
    requires MintList(lists).Ok? && MintList(lists).value.Some?
    ensures |lists| > 0
    ensures Sorting.MapSeq(MintKey, MintList(lists).value.value) == AgreedKeys(lists)
    decreases |lists|
  {
    var n := |lists| - 1;
    var prev := MintList(lists[..n]);
    if prev.value.Some? {
      MintListKeys(lists[..n]);
      MergeMintKeys(prev.value.value, lists[n]);
    }
  }

  /** `a` is at most `b`: the same text, or both read as integers in order. */
  predicate AmountLe(a: string, b: string) {
    a == b || (ParseBigInt(a).Ok? && ParseBigInt(b).Ok? && ParseBigInt(a).value <= ParseBigInt(b).value)
  }

  /** What one merge step keeps of an entry: its pair, an amount no larger
      than its own or the next node's, and one of the two. */
  lemma MergeMintBounds(next: seq<MintRequest>, x: MintRequest, m: MintRequest)
    requires MergeMint(next, x) == Ok(Some(m))
    ensures MintKey(m) == MintKey(x) && AmountLe(m.mintAmount, x.mintAmount)
    ensures var y := FindMint(next, x).value;
      && y in next && MintKey(y) == MintKey(m) && AmountLe(m.mintAmount, y.mintAmount)
      && (m.mintAmount == x.mintAmount || m.mintAmount == y.mintAmount)
  {
  }

  /** Every node's entry for a pair from the given nodes bounds its amount. */
  predicate BoundedBy(lists: seq<seq<MintRequest>>, m: MintRequest) {
    forall j :: 0 <= j < |lists| ==> exists y :: y in lists[j] && MintKey(y) == MintKey(m) && AmountLe(m.mintAmount, y.mintAmount)
  }

  /** Some node lists the pair with exactly the consensus amount. */
  predicate AttainedIn(lists: seq<seq<MintRequest>>, m: MintRequest) {
    exists j, y :: 0 <= j < |lists| && y in lists[j] && MintKey(y) == MintKey(m) && y.mintAmount == m.mintAmount
  }

  /** Merging an entry with one more node's list keeps both properties. */
  lemma MergedBounds(lists: seq<seq<MintRequest>>, x: MintRequest, m: MintRequest)
    requires |lists| > 0
    requires BoundedBy(lists[..|lists| - 1], x) && AttainedIn(lists[..|lists| - 1], x)
    requires MergeMint(lists[|lists| - 1], x) == Ok(Some(m))
    ensures BoundedBy(lists, m) && AttainedIn(lists, m)
  {
    var n := |lists| - 1;
    MergeMintBounds(lists[n], x, m);
    var y := FindMint(lists[n], x).value;
    forall j | 0 <= j < |lists|
      ensures exists z :: z in lists[j] && MintKey(z) == MintKey(m) && AmountLe(m.mintAmount, z.mintAmount)
    {
      if j < n {
        var z :| z in lists[..n][j] && MintKey(z) == MintKey(x) && AmountLe(x.mintAmount, z.mintAmount);
        assert lists[..n][j] == lists[j];
      } else {
        assert y in lists[j];
      }
    }
    if m.mintAmount == x.mintAmount {
      var j, z :| 0 <= j < n && z in lists[..n][j] && MintKey(z) == MintKey(x) && z.mintAmount == x.mintAmount;
      assert lists[..n][j] == lists[j];
    } else {
      assert y in lists[n];
    }
  }

  /** The consensus amount of each pair is the minimum of the nodes'
      amounts: every node lists the pair with at least that amount, and
      one of them with exactly that amount. */
  lemma {:induction false} MintListAmounts(lists: seq<seq<MintRequest>>)
    requires MintList(lists).Ok? && MintList(lists).value.Some?
    ensures forall m :: m in MintList(lists).value.value ==> BoundedBy(lists, m) && AttainedIn(lists, m)
    decreases |lists|
  {
    var n := |lists| - 1;
    var prev := MintList(lists[..n]);
    var l := MintList(lists).value.value;
    if prev.value.None? {
      forall m | m in l ensures BoundedBy(lists, m) && AttainedIn(lists, m) {
        assert lists[0] == lists[n];
        assert 0 <= 0 < |lists| && m in lists[0] && MintKey(m) == MintKey(m) && m.mintAmount == m.mintAmount;
      }
    } else {
      var acc := prev.value.value;
      MintListAmounts(lists[..n]);
      Accounting.CollectSpec(acc, MintStep(lists[n]));
      forall m | m in l ensures BoundedBy(lists, m) && AttainedIn(lists, m) {
        var i :| 0 <= i < |acc| && MintStep(lists[n])(acc[i]) == Ok(Some(m));
        MergedBounds(lists, acc[i], m);
      }
    }
  }

  /** The mint the operator submits names a pair every node lists, at the
      smallest amount any node reports for it, and is the first such pair
      of the first node; nothing is minted only when no pair of the first
      node is listed by all the others. */
  lemma ChosenMintSpec(lists: seq<seq<MintRequest>>)
    requires ChosenMint(lists).Ok?
    ensures |lists| > 0
    ensures ChosenMint(lists).value.Some? ==>
      var m := ChosenMint(lists).value.value;
      && BoundedBy(lists, m) && AttainedIn(lists, m)
      && |AgreedKeys(lists)| > 0 && MintKey(m) == AgreedKeys(lists)[0]
    ensures ChosenMint(lists).value.None? ==>
      forall x :: x in lists[0] ==> !KeyInLater(lists, MintKey(x))
  {
    MintListKeys(lists);
    MintListAmounts(lists);
    AgreedKeysMembers(lists);
    var l := MintList(lists).value.value;
    if |l| > 0 {
      assert l[0] in l;
    } else {
      forall x | x in lists[0]
        ensures !KeyInLater(lists, MintKey(x))
      {
        var i :| 0 <= i < |lists[0]| && lists[0][i] == x;
        assert Sorting.MapSeq(MintKey, lists[0])[i] == MintKey(x);
        assert MintKey(x) !in AgreedKeys(lists);
      }
    }
  }

  // ---------------------------------------------------------------------
  // The pending-payout consensus (cli.js:482-587)

  /** `ys.some(y => y equal to x on every field)` */
  function InList<T(==)>(ys: seq<T>): T -> bool {
    x => x in ys
  }

  /** One more node's answer to `computePendingPayouts`: each list keeps the
      entries that node also proposes. */
  function MergePayouts(acc: Payouts, next: Payouts): Payouts {
    Payouts(FilterBy(acc.depositTaxPayouts, InList(next.depositTaxPayouts)),
            FilterBy(acc.withdrawalPayouts, InList(next.withdrawalPayouts)),
            FilterBy(acc.withdrawalTaxPayouts, InList(next.withdrawalTaxPayouts)))
  }

  /** The three lists after the loop over the nodes: null before the first
      node, that node's lists after it, then merged node by node. */
  function PayoutList(lists: seq<Payouts>): (r: Option<Payouts>)
    ensures r.Some? <==> |lists| > 0
    decreases |lists|
  {
    if |lists| == 0 then None
    else
      var prev := PayoutList(lists[..|lists| - 1]);
      var next := lists[|lists| - 1];
      if prev.None? then Some(next) else Some(MergePayouts(prev.value, next))
  }

  /** The proposal after the flags: a list that is not processed is
      emptied; a list still null is a TypeError when its total is taken. */
  function Proposal(lists: seq<Payouts>, processDeposits: bool, processWithdrawals: bool): Result<Payouts> {
    var merged := PayoutList(lists);
    if merged.None? && (processDeposits || processWithdrawals) then Err(NULL_REDUCE)
    else
      var p := if merged.Some? then merged.value else Payouts([], [], []);
      Ok(Payouts(if processDeposits then p.depositTaxPayouts else [],
                 if processWithdrawals then p.withdrawalPayouts else [],
                 if processWithdrawals then p.withdrawalTaxPayouts else []))
  }

  /** The merge loop over the nodes' answers to `computePendingPayouts`,
      then the flags. */
  method PayoutConsensus(responses: seq<Payouts>, processDeposits: bool, processWithdrawals: bool)
    returns (r: Result<Payouts>)
    ensures r == Proposal(responses, processDeposits, processWithdrawals)
  {
    var merged: Option<Payouts> := None;
    var i := 0;
    while i < |responses|
      invariant 0 <= i <= |responses|
      invariant merged == PayoutList(responses[..i])
    {
      assert responses[..i + 1][..i] == responses[..i];
      if merged.None? {
        merged := Some(responses[i]);
      } else {
        merged := Some(MergePayouts(merged.value, responses[i]));
      }
      i := i + 1;
    }
    assert responses[..i] == responses;
    if merged.None? && (processDeposits || processWithdrawals) {
      return Err(NULL_REDUCE);
    }
    var p := if merged.Some? then merged.value else Payouts([], [], []);
    var depositTaxPayouts := p.depositTaxPayouts;
    var withdrawalPayouts := p.withdrawalPayouts;
    var withdrawalTaxPayouts := p.withdrawalTaxPayouts;
    if !processDeposits {
      depositTaxPayouts := [];
    }
    if !processWithdrawals {
      withdrawalPayouts := [];
      withdrawalTaxPayouts := [];
    }
    r := Ok(Payouts(depositTaxPayouts, withdrawalPayouts, withdrawalTaxPayouts));
  }

  /** `x` is in every one of the lists. */
  predicate InAll<T(==)>(ls: seq<seq<T>>, x: T) {
    forall j :: 0 <= j < |ls| ==> x in ls[j]
  }

  /** Filtering by one more list keeps what is in all lists so far and in it. */
  lemma FilterInAll<T>(acc: seq<T>, ls: seq<seq<T>>)
    requires |ls| > 0
    requires forall x :: x in acc <==> InAll(ls[..|ls| - 1], x)
    ensures forall x :: x in FilterBy(acc, InList(ls[|ls| - 1])) <==> InAll(ls, x)
  {
    var n := |ls| - 1;
    FilterByMembers(acc, InList(ls[n]));
    assert forall j :: 0 <= j < n ==> ls[..n][j] == ls[j];
  }

  /** The three lists of a proposal, one node at a time. */
  function DepositTaxList(p: Payouts): seq<DepositTaxPayout> { p.depositTaxPayouts }
  function WithdrawalList(p: Payouts): seq<WithdrawalPayout> { p.withdrawalPayouts }
  function WithdrawalTaxList(p: Payouts): seq<WithdrawalPayout> { p.withdrawalTaxPayouts }

  /** Each merged list holds exactly the entries that every node proposes. */
  lemma {:induction false} PayoutListAgreed(lists: seq<Payouts>)
    requires |lists| > 0
    ensures var p := PayoutList(lists).value;
      && (forall x :: x in p.depositTaxPayouts <==> InAll(Sorting.MapSeq(DepositTaxList, lists), x))
      && (forall x :: x in p.withdrawalPayouts <==> InAll(Sorting.MapSeq(WithdrawalList, lists), x))
      && (forall x :: x in p.withdrawalTaxPayouts <==> InAll(Sorting.MapSeq(WithdrawalTaxList, lists), x))
    decreases |lists|
  {
    var n := |lists| - 1;
    var d := Sorting.MapSeq(DepositTaxList, lists);
    var w := Sorting.MapSeq(WithdrawalList, lists);
    var t := Sorting.MapSeq(WithdrawalTaxList, lists);
    if n == 0 {
      assert forall x :: InAll(d, x) <==> x in d[0];
      assert forall x :: InAll(w, x) <==> x in w[0];
      assert forall x :: InAll(t, x) <==> x in t[0];
    } else {
      PayoutListAgreed(lists[..n]);
      var acc := PayoutList(lists[..n]).value;
      Sorting.MapSeqPrefix(DepositTaxList, lists, n);
      Sorting.MapSeqPrefix(WithdrawalList, lists, n);
      Sorting.MapSeqPrefix(WithdrawalTaxList, lists, n);
      assert PayoutList(lists).value == MergePayouts(acc, lists[n]);
      FilterInAll(acc.depositTaxPayouts, d);
      FilterInAll(acc.withdrawalPayouts, w);
      FilterInAll(acc.withdrawalTaxPayouts, t);
    }
  }

  /** The proposal the operator sends: the agreed lists, with those the
      flags turn off emptied. */
  lemma ProposalSpec(lists: seq<Payouts>, processDeposits: bool, processWithdrawals: bool)
    requires |lists| > 0
    ensures var r := Proposal(lists, processDeposits, processWithdrawals);
      && r.Ok?
      && (!processDeposits ==> r.value.depositTaxPayouts == [])
      && (!processWithdrawals ==> r.value.withdrawalPayouts == [] && r.value.withdrawalTaxPayouts == [])
      && (processDeposits ==> forall x :: x in r.value.depositTaxPayouts <==>
            InAll(Sorting.MapSeq(DepositTaxList, lists), x))
      && (processWithdrawals ==> forall x :: x in r.value.withdrawalPayouts <==>
            InAll(Sorting.MapSeq(WithdrawalList, lists), x))
      && (processWithdrawals ==> forall x :: x in r.value.withdrawalTaxPayouts <==>
            InAll(Sorting.MapSeq(WithdrawalTaxList, lists), x))
  {
    PayoutListAgreed(lists);
  }

  /** A withdrawal payout as the node sends it (authorityDaemon.js:567-576). */
  function WithdrawalJs(w: WithdrawalPayout): Js.Value {
    Js.Obj(map["burnSignature" := Js.Str(w.burnSignature),
               "burnDestination" := Js.Str(w.burnDestination),
               "amount" := Js.Str(w.amount)])
  }

  /** The withdrawal comparison of cli.js:560-576 as written: it compares
      `burnAddress` and `burnIndex`, which no payout carries. */
  predicate MatchAsWritten(x: Js.Value, y: Js.Value) {
    && Js.StrictEq(Js.Get(y, "burnAddress"), Js.Get(x, "burnAddress"))
    && Js.StrictEq(Js.Get(y, "burnIndex"), Js.Get(x, "burnIndex"))
    && Js.StrictEq(Js.Get(y, "burnDestination"), Js.Get(x, "burnDestination"))
    && Js.StrictEq(Js.Get(y, "amount"), Js.Get(x, "amount"))
  }

  function MatchedAsWritten(next: seq<WithdrawalPayout>): WithdrawalPayout -> bool {
    x => exists y :: y in next && MatchAsWritten(WithdrawalJs(x), WithdrawalJs(y))
  }

  /** The withdrawal merge as written. */
  function MergeWithdrawalsAsWritten(acc: seq<WithdrawalPayout>, next: seq<WithdrawalPayout>): seq<WithdrawalPayout> {
    FilterBy(acc, MatchedAsWritten(next))
  }

  /** As written, two withdrawal payouts match whenever they pay the same
      amount to the same destination, whatever burn they settle. */
  lemma MatchAsWrittenIgnoresBurn(a: WithdrawalPayout, b: WithdrawalPayout)
    ensures MatchAsWritten(WithdrawalJs(a), WithdrawalJs(b)) <==>
      a.burnDestination == b.burnDestination && a.amount == b.amount
  {
  }

  /** Two nodes proposing payouts for different burns of the same amount to
      the same destination: as written the first node's payout survives the
      merge; compared on the burn signature, it does not. */
  lemma MergeAsWrittenKeepsOtherBurn()
    ensures var a := WithdrawalPayout("burnA", "dest", "100");
      var b := WithdrawalPayout("burnB", "dest", "100");
      && MergeWithdrawalsAsWritten([a], [b]) == [a]
      && FilterBy([a], InList([b])) == []
  {
    var a := WithdrawalPayout("burnA", "dest", "100");
    var b := WithdrawalPayout("burnB", "dest", "100");
    MatchAsWrittenIgnoresBurn(a, b);
    assert MatchedAsWritten([b])(a);
    assert [a][..0] == [];
    assert a !in [b];
  }

  // ---------------------------------------------------------------------
  // The unspent consensus (cli.js:620-646)

  /** The same output of the same transaction. */
  predicate SameOutput(x: Dingo.Utxo, y: Dingo.Utxo) {
    y.txid == x.txid && y.vout == x.vout
  }

  function SameOutputAs(x: Dingo.Utxo): Dingo.Utxo -> bool {
    y => SameOutput(x, y)
  }

  /** Whether the merged list keeps `x` against the next node's list: that
      node reports the output exactly once, with the same amount in
      satoshi. */
  function KeepUtxo(next: seq<Dingo.Utxo>, x: Dingo.Utxo): Result<bool> {
    var a := FilterBy(next, SameOutputAs(x));
    if |a| != 1 then Ok(false)
    else
      var theirs :- Dingo.Sat(a[0].amount);
      var mine :- Dingo.Sat(x.amount);
      Ok(theirs == mine)
  }

  function KeptUtxo(next: seq<Dingo.Utxo>, x: Dingo.Utxo): Result<Option<Dingo.Utxo>> {
    var keep :- KeepUtxo(next, x);
    Ok(if keep then Some(x) else None)
  }

  function UtxoStep(next: seq<Dingo.Utxo>): Dingo.Utxo -> Result<Option<Dingo.Utxo>> {
    (x: Dingo.Utxo) => KeptUtxo(next, x)
  }

  /** The unspent list merged with one more node's list. */
  function MergeUnspent(acc: seq<Dingo.Utxo>, next: seq<Dingo.Utxo>): Result<seq<Dingo.Utxo>> {
    Collect(acc, UtxoStep(next))
  }

  /** `unspent` after the loop over the nodes' answers to `computeUnspent`. */
  function UnspentList(lists: seq<seq<Dingo.Utxo>>): Result<Option<seq<Dingo.Utxo>>> {
    MergeAll(lists, MergeUnspent)
  }

  /** A node keeps an output exactly when it reports that output once, at
      the same amount. */
  lemma KeepUtxoSpec(next: seq<Dingo.Utxo>, x: Dingo.Utxo)
    ensures KeepUtxo(next, x) == Ok(true) <==>
      exists i :: OnlyAt(next, SameOutputAs(x), i) && Dingo.Sat(next[i].amount).Ok? &&
        Dingo.Sat(next[i].amount) == Dingo.Sat(x.amount)
  {
    FilterByOne(next, SameOutputAs(x));
  }

  /** The merge loop over the nodes' unspent outputs. */
  method UnspentConsensus(responses: seq<seq<Dingo.Utxo>>) returns (r: Result<Option<seq<Dingo.Utxo>>>)
    ensures r == UnspentList(responses)
  {
    var unspent: Option<seq<Dingo.Utxo>> := None;
    var i := 0;
    while i < |responses|
      invariant 0 <= i <= |responses|
      invariant UnspentList(responses[..i]) == Ok(unspent)
    {
      assert responses[..i + 1][..i] == responses[..i];
      if unspent.None? {
        unspent := Some(responses[i]);
      } else {
        var merged := MergeUnspent(unspent.value, responses[i]);
        if merged.Err? {
          MergeAllStopped(responses, i + 1, MergeUnspent);
          return Err(merged.error);
        }
        unspent := Some(merged.value);
      }
      i := i + 1;
    }
    assert responses[..i] == responses;
    r := Ok(unspent);
  }

  /** The node's list keeps `x`. */
  predicate Keeps(next: seq<Dingo.Utxo>, x: Dingo.Utxo) {
    KeepUtxo(next, x) == Ok(true)
  }

  /** Every later node keeps `x`. */
  predicate KeptByAll(lists: seq<seq<Dingo.Utxo>>, x: Dingo.Utxo) {
    AllLater(lists, x, Keeps)
  }

  /** One merge step keeps exactly the outputs the next node keeps. */
  lemma UnspentStepMembers(acc: seq<Dingo.Utxo>, next: seq<Dingo.Utxo>)
    requires Collect(acc, UtxoStep(next)).Ok?
    ensures forall x :: x in Collect(acc, UtxoStep(next)).value <==> x in acc && Keeps(next, x)
  {
    Accounting.CollectSpec(acc, UtxoStep(next));
    var u := Collect(acc, UtxoStep(next)).value;
    forall x ensures x in u <==> x in acc && Keeps(next, x) {
      if x in u {
        var i :| 0 <= i < |acc| && UtxoStep(next)(acc[i]) == Ok(Some(x));
        assert acc[i] == x;
      }
      if x in acc && Keeps(next, x) {
        var i :| 0 <= i < |acc| && acc[i] == x;
        assert UtxoStep(next)(acc[i]) == Ok(Some(x));
      }
    }
  }

  /** The consensus holds exactly the first node's outputs that every later
      node reports once, at the same amount. */
  lemma {:induction false} UnspentListAgreed(lists: seq<seq<Dingo.Utxo>>)
    requires UnspentList(lists).Ok? && |lists| > 0
    ensures UnspentList(lists).value.Some?
    ensures forall x :: x in UnspentList(lists).value.value <==> x in lists[0] && KeptByAll(lists, x)
    decreases |lists|
  {
    var n := |lists| - 1;
    if n > 0 {
      var prev := lists[..n];
      UnspentListAgreed(prev);
      var acc := UnspentList(prev).value.value;
      var merged := Collect(acc, UtxoStep(lists[n]));
      assert merged.Ok? && UnspentList(lists) == Ok(Some(merged.value));
      UnspentStepMembers(acc, lists[n]);
      AllLaterSplit(lists, Keeps);
      assert prev[0] == lists[0];
      forall x ensures x in merged.value <==> x in lists[0] && KeptByAll(lists, x) {
        assert x in merged.value <==> x in acc && Keeps(lists[n], x);
        assert x in acc <==> x in lists[0] && KeptByAll(prev, x);
      }
    } else {
      assert MergeAll(lists[..0], MergeUnspent) == Ok(None);
      assert UnspentList(lists) == Ok(Some(lists[0]));
    }
  }

  // ---------------------------------------------------------------------
  // The approval rounds of executePayoutsHandler (cli.js:654-725)

  /** The approval chain the real run sends node `i`: null to the first
      node, and to each later node the chain the node before it returned.
      `answer(i, c)` is node `i`'s returned chain when sent `c`. */
  function ChainSent(answer: (nat, Option<string>) -> string, i: nat): Option<string> {
    if i == 0 then None else Some(answer(i - 1, ChainSent(answer, i - 1)))
  }

  /** The test run sends every node the null chain and keeps none of
      their answers. */
  method TestRound(count: nat) returns (sent: seq<Option<string>>)
    ensures |sent| == count && forall i :: 0 <= i < count ==> sent[i].None?
  {
    var approvalChain: Option<string> := None;
    sent := [];
    var i := 0;
    while i < count
      invariant 0 <= i <= count
      invariant |sent| == i && forall k :: 0 <= k < i ==> sent[k].None?
    {
      sent := sent + [approvalChain];
      i := i + 1;
    }
  }

  /** The chains the real run sends to the first `n` nodes, in order. */
  function ChainsSent(answer: (nat, Option<string>) -> string, n: nat): (r: seq<Option<string>>)
    ensures |r| == n
  {
    if n == 0 then [] else ChainsSent(answer, n - 1) + [ChainSent(answer, n - 1)]
  }

  /** Node `i` is sent the chain node `i - 1` returned. */
  lemma {:induction false} ChainsSentAt(answer: (nat, Option<string>) -> string, n: nat)
    ensures forall i :: 0 <= i < n ==> ChainsSent(answer, n)[i] == ChainSent(answer, i)
    ensures forall i :: 0 < i < n ==> ChainsSent(answer, n)[i] == Some(answer(i - 1, ChainsSent(answer, n)[i - 1]))
  {
    if n > 0 {
      ChainsSentAt(answer, n - 1);
    }
  }

  /** The real run threads the chain through the nodes in order and ends
      with the last node's chain, which is then broadcast. */
  method RealRound(count: nat, answer: (nat, Option<string>) -> string)
    returns (sent: seq<Option<string>>, chain: Option<string>)
    ensures sent == ChainsSent(answer, count)
    ensures chain == ChainSent(answer, count)
  {
    chain := None;
    sent := [];
    var i := 0;
    while i < count
      invariant 0 <= i <= count
      invariant chain == ChainSent(answer, i)
      invariant sent == ChainsSent(answer, i)
    {
      sent := sent + [chain];
      chain := Some(answer(i, chain));
      i := i + 1;
    }
  }

  // ---------------------------------------------------------------------
  // consensusCell (cli.js:773-793)

  /** `row[columnIndex]`: undefined past the end of the row. */
  function CellOf(row: seq<Js.Value>, column: int): Js.Value {
    if 0 <= column < |row| then row[column] else Js.Undefined
  }

  /** A cell that takes part in the comparison: not undefined, null or "". */
  predicate Filled(v: Js.Value) {
    !v.Undefined? && !v.Null? && v != Js.Str("")
  }

  /** The filled cells of the first `n` rows are pairwise identical. */
  predicate AgreedBefore(rows: seq<seq<Js.Value>>, column: int, n: int)
    requires 0 <= n <= |rows|
  {
    forall i, j :: 0 <= i < j < n && Filled(CellOf(rows[i], column)) && Filled(CellOf(rows[j], column)) ==>
      Js.StrictEq(CellOf(rows[j], column), CellOf(rows[i], column))
  }

  /** `consensusCell`: YES when the nodes' filled values in the column are
      all identical, which includes no rows and no filled cells. */
  method ConsensusCell(rows: seq<seq<Js.Value>>, column: int) returns (yes: bool)
    ensures yes <==> AgreedBefore(rows, column, |rows|)
  {
    if |rows| == 0 {
      return true;
    }
    var data := Js.Undefined;
    var i := 0;
    while i < |rows|
      invariant 0 <= i <= |rows|
      invariant AgreedBefore(rows, column, i)
      invariant data.Undefined? ==> forall k :: 0 <= k < i ==> !Filled(CellOf(rows[k], column))
      invariant !data.Undefined? ==> exists f :: 0 <= f < i && CellOf(rows[f], column) == data && Filled(data)
      invariant !data.Undefined? ==> forall k :: 0 <= k < i && Filled(CellOf(rows[k], column)) ==> CellOf(rows[k], column) == data
    {
      var cell := CellOf(rows[i], column);
      if Filled(cell) {
        if data.Undefined? {
          data := cell;
        } else if !Js.StrictEq(cell, data) {
          var f :| 0 <= f < i && CellOf(rows[f], column) == data && Filled(data);
          assert !Js.StrictEq(CellOf(rows[i], column), CellOf(rows[f], column));
          return false;
        }
      }
      i := i + 1;
    }
    yes := true;
  }
}
