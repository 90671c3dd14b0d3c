/** What the node's request handlers check before they write
    (authorityDaemon.js:226-526): a deposit-address request, the signed
    responses of a registration, a mint approval against the deposits, the
    burn-history statuses and a withdrawal claim against its burn. Each
    check is a function of the request, the tables and the chain
    observations, and yields the row the handler then writes; the writes
    themselves are the methods of `Node.AuthorityNode`. */
module Handlers {

  import opened Results
  import opened Decimal
  import opened Database
  import opened Accounting
  import Js
  import Dingo
  import SplToken
  import TimedMessage

  const DATA: string := "data"
  const MINT_ADDRESS: string := "mintAddress"
  const DEPOSIT_ADDRESS: string := "depositAddress"
  const MALFORMED: string := "Malformed request field"
  const INVALID_MINT_ADDRESS: string := "mintAddress missing or invalid"
  const NO_TOKEN_ACCOUNT: string := "Token account not found for wallet"
  const INCORRECT_AUTHORITY_COUNT: string := "Incorrect authority count"
  const MINT_CONSENSUS_FAILURE: string := "Consensus failure on mint address"
  const NO_RESPONSES: string := "TypeError: Cannot read properties of undefined (reading 'mintAddress')"
  const ADDRESS_REUSED: string := "At least one deposit address has been previously registered"
  const UNREGISTERED_MINT: string := "TypeError: Cannot read properties of null (reading 'depositAddress')"
  const DETAILS_INCORRECT: string := "Deposit address details incorrect"
  const EXPECTED_STRING: string := "Expected string input"
  const INSUFFICIENT_MINT_BALANCE: string := "Insufficient mint balance"
  const SUBMITTED: string := "SUBMITTED"
  const APPROVED: string := "APPROVED"
  const INVALID_DESTINATION: string := "Withdrawal address is not a valid Dingo address"
  const BELOW_THRESHOLD: string := "Withdrawal amount does not meet threshold"
  const ALREADY_SUBMITTED: string := "Withdrawal already submitted"
  const AMOUNT_MISMATCH: string := "Burn amount does not match tranasction"
  const DESTINATION_MISMATCH: string := "Burn destination does not match tranasction"

  // ---------------------------------------------------------------------
  // Reading a signed request

  /** The node's view of the source chain and of the keys, which every
      signed request is checked against: the tip height, the sync delay,
      the block-hash query, `JSON.stringify` and signature verification. */
  datatype Envelope = Envelope(blocks: int, syncDelay: int, hashOf: int -> Result<string>,
                               stringify: Js.Value -> string, verify: (string, Js.Value, string) -> bool)

  /** The message carries a fresh anchor on this node's chain and the
      signature of `walletAddress` over its data. */
  predicate Accepted(x: Js.Value, walletAddress: string, env: Envelope) {
    && Js.IsSpecified(x)
    && TimedMessage.Anchored(Js.Get(x, DATA), env.blocks, env.syncDelay, env.hashOf)
    && env.verify(env.stringify(Js.Get(x, DATA)), Js.Get(x, "signature"), walletAddress)
  }

  /** `validateTimedAndSignedMessage(x, walletAddress)`, which keeps only the data. */
  function Validated(x: Js.Value, walletAddress: string, env: Envelope): (r: Result<Js.Value>)
    ensures r.Ok? <==> Accepted(x, walletAddress, env)
    ensures r.Ok? ==> r.value == Js.Get(x, DATA)
  {
    TimedMessage.ValidateTimed(x, walletAddress, true, env.blocks, env.syncDelay, env.hashOf, env.stringify, env.verify)
  }

  /** A request field the tables store as text: reading a field of a
      missing value is a TypeError, and a field of another JSON type is
      refused. */
  function Text(v: Js.Value, name: string): (r: Result<string>)
    ensures r.Ok? <==> Js.IsSpecified(v) && Js.Get(v, name).Str?
    ensures r.Ok? ==> r.value == Js.Get(v, name).s
  {
    var x :- Js.Field(v, name);
    if x.Str? then Ok(x.s) else Err(MALFORMED)
  }

  /** `x` is an amount read as the text `t`: the string itself, or an
      integral Number, which `${x}` and `BigInt(x)` treat as its decimal
      text. */
  predicate AmountText(x: Js.Value, t: string) {
    x == Js.Str(t) || (x.Num? && t == IntToString(x.n))
  }

  /** A request amount. The handlers pass amounts only to `BigInt` or into
      a template string, so a Number is read as its decimal text, which
      `BigInt` reads back as the same integer; reading a field of a missing
      value is a TypeError, and a field of another JSON type is refused. */
  function Amount(v: Js.Value, name: string): (r: Result<string>)
    ensures r.Ok? <==> Js.IsSpecified(v) && (Js.Get(v, name).Str? || Js.Get(v, name).Num?)
    ensures r.Ok? ==> AmountText(Js.Get(v, name), r.value)
    ensures r.Ok? && Js.Get(v, name).Num? ==> ParseBigInt(r.value) == Ok(Js.Get(v, name).n)
  {
    var x :- Js.Field(v, name);
    if x.Str? then Ok(x.s)
    else if x.Num? then ParseIntToString(x.n); Ok(IntToString(x.n))
    else Err(MALFORMED)
  }

  // ---------------------------------------------------------------------
  // generateDepositAddress (authorityDaemon.js:226-243)

  /** The reply payload: the requested mint address and a fresh address of
      this node's wallet. */
  function DepositAddressReply(mintAddress: Js.Value, newAddress: string): Js.Value {
    Js.Obj(map[MINT_ADDRESS := mintAddress, DEPOSIT_ADDRESS := Js.Str(newAddress)])
  }

  /** The handler as written: `await splToken.hasTokenAccount` awaits the
      function object itself, which is truthy, so the token-account check
      never refuses a request. */
  function GenerateDepositAddressAsWritten(data: Js.Value, decode: string -> Option<seq<SplToken.byte>>,
                                           newAddress: string): Result<Js.Value> {
    var mintAddress := Js.Get(data, MINT_ADDRESS);
    var _ :- Need(SplToken.IsAddress(mintAddress, decode), INVALID_MINT_ADDRESS);
    Ok(DepositAddressReply(mintAddress, newAddress))
  }

  /** The handler as intended: `hasTokenAccount(mintAddress)` is asked,
      and a wallet without a token account is refused. */
  function GenerateDepositAddress(data: Js.Value, decode: string -> Option<seq<SplToken.byte>>,
                                  hasTokenAccount: string -> bool, newAddress: string): (r: Result<Js.Value>)
    ensures r.Ok? <==>
      SplToken.IsAddress(Js.Get(data, MINT_ADDRESS), decode) && hasTokenAccount(Js.Get(data, MINT_ADDRESS).s)
    ensures SplToken.IsAddress(Js.Get(data, MINT_ADDRESS), decode) && !hasTokenAccount(Js.Get(data, MINT_ADDRESS).s) ==>
      r == Err(NO_TOKEN_ACCOUNT)
    ensures r.Ok? ==>
      Js.Get(r.value, MINT_ADDRESS) == Js.Get(data, MINT_ADDRESS) && Js.Get(r.value, DEPOSIT_ADDRESS) == Js.Str(newAddress)
  {
    var mintAddress := Js.Get(data, MINT_ADDRESS);
    var _ :- Need(SplToken.IsAddress(mintAddress, decode), INVALID_MINT_ADDRESS);
    var _ :- Need(hasTokenAccount(mintAddress.s), NO_TOKEN_ACCOUNT);
    Ok(DepositAddressReply(mintAddress, newAddress))
  }

  /** The handler as written hands out a deposit address for every valid
      mint address, whether or not its wallet has a token account; the
      intended handler answers the same whenever it answers at all. */
  lemma TokenAccountNeverChecked(data: Js.Value, decode: string -> Option<seq<SplToken.byte>>,
                                 hasTokenAccount: string -> bool, newAddress: string)
    ensures GenerateDepositAddressAsWritten(data, decode, newAddress).Ok? <==>
      SplToken.IsAddress(Js.Get(data, MINT_ADDRESS), decode)
    ensures GenerateDepositAddress(data, decode, hasTokenAccount, newAddress).Ok? ==>
      GenerateDepositAddressAsWritten(data, decode, newAddress) == GenerateDepositAddress(data, decode, hasTokenAccount, newAddress)
  {
  }

  /** A concrete request that shows the difference: a valid mint address
      whose wallet has no token account. */
  lemma TokenAccountWitness(data: Js.Value, decode: string -> Option<seq<SplToken.byte>>, newAddress: string)
    requires SplToken.IsAddress(Js.Get(data, MINT_ADDRESS), decode)
    ensures GenerateDepositAddressAsWritten(data, decode, newAddress).Ok?
    ensures GenerateDepositAddress(data, decode, (a: string) => false, newAddress) == Err(NO_TOKEN_ACCOUNT)
  {
  }

  // ---------------------------------------------------------------------
  // registerMintDepositAddress (authorityDaemon.js:246-315)

  /** What a registration request asks for: the agreed mint address and
      the deposit address each node contributed, in node order. */
  datatype Registration = Registration(mintAddress: string, depositAddresses: seq<string>)

  function Paired<A, B>(xs: seq<A>, ys: seq<B>): (r: seq<(A, B)>)
    requires |xs| == |ys|
    ensures |r| == |xs|
    ensures forall i :: 0 <= i < |xs| ==> r[i] == (xs[i], ys[i])
  {
    seq(|xs|, i requires 0 <= i < |xs| => (xs[i], ys[i]))
  }

  /** The `Promise.all` over the responses: response i checked against
      node i's wallet. */
  function ResponseData(responses: seq<Js.Value>, wallets: seq<string>, env: Envelope): Result<seq<Js.Value>>
    requires |responses| == |wallets|
  {
    MapAll(Paired(responses, wallets), (q: (Js.Value, string)) => Validated(q.0, q.1, env))
  }

  predicate MintAddressAgreed(data: seq<Js.Value>) {
    forall i :: 0 <= i < |data| ==> Js.StrictEq(Js.Get(data[i], MINT_ADDRESS), Js.Get(data[0], MINT_ADDRESS))
  }

  function DepositAddressOf(x: Js.Value): Result<string> {
    Text(x, DEPOSIT_ADDRESS)
  }

  /** The checks of a registration on the responses' data, in their
      order: one mint address, named by a first response, valid, and a
      deposit address from each. */
  function RegistrationFrom(data: seq<Js.Value>, decode: string -> Option<seq<SplToken.byte>>): Result<Registration> {
    var _ :- Need(MintAddressAgreed(data), MINT_CONSENSUS_FAILURE);
    var _ :- Need(|data| > 0, NO_RESPONSES);
    var mintAddress := Js.Get(data[0], MINT_ADDRESS);
    var _ :- Need(SplToken.IsAddress(mintAddress, decode), INVALID_MINT_ADDRESS);
    var depositAddresses :- MapAll(data, DepositAddressOf);
    Ok(Registration(mintAddress.s, depositAddresses))
  }

  /** The checks of a registration, in their order, up to the point where
      the handler takes the lock. */
  function RegistrationOf(responses: seq<Js.Value>, wallets: seq<string>, env: Envelope,
                          decode: string -> Option<seq<SplToken.byte>>): Result<Registration> {
    var _ :- Need(|responses| == |wallets|, INCORRECT_AUTHORITY_COUNT);
    var data :- ResponseData(responses, wallets, env);
    RegistrationFrom(data, decode)
  }

  /** Field `name` of the data a response carries. */
  function Contributed(x: Js.Value, name: string): Js.Value {
    Js.Get(Js.Get(x, DATA), name)
  }

  /** The data of the responses name one valid mint address and carry a
      deposit address each. */
  predicate DataValid(data: seq<Js.Value>, decode: string -> Option<seq<SplToken.byte>>) {
    && |data| > 0
    && (forall i :: 0 <= i < |data| ==> Js.StrictEq(Js.Get(data[i], MINT_ADDRESS), Js.Get(data[0], MINT_ADDRESS)))
    && SplToken.IsAddress(Js.Get(data[0], MINT_ADDRESS), decode)
    && forall i :: 0 <= i < |data| ==> Js.IsSpecified(data[i]) && Js.Get(data[i], DEPOSIT_ADDRESS).Str?
  }

  lemma RegistrationFromSpec(data: seq<Js.Value>, decode: string -> Option<seq<SplToken.byte>>)
    ensures RegistrationFrom(data, decode).Ok? <==> DataValid(data, decode)
    ensures RegistrationFrom(data, decode).Ok? ==>
      var g := RegistrationFrom(data, decode).value;
      && |data| > 0
      && Js.Str(g.mintAddress) == Js.Get(data[0], MINT_ADDRESS)
      && |g.depositAddresses| == |data|
      && forall i :: 0 <= i < |data| ==> Js.Str(g.depositAddresses[i]) == Js.Get(data[i], DEPOSIT_ADDRESS)
  {
    MapAllSpec(data, DepositAddressOf);
  }

  /** One response per node, each fresh and signed by its node, all naming
      one valid mint address, each contributing a deposit address. */
  predicate RegistrationValid(responses: seq<Js.Value>, wallets: seq<string>, env: Envelope,
                              decode: string -> Option<seq<SplToken.byte>>) {
    && |responses| == |wallets|
    && |responses| > 0
    && (forall i :: 0 <= i < |responses| ==> Accepted(responses[i], wallets[i], env))
    && (forall i :: 0 <= i < |responses| ==>
          Js.StrictEq(Contributed(responses[i], MINT_ADDRESS), Contributed(responses[0], MINT_ADDRESS)))
    && SplToken.IsAddress(Contributed(responses[0], MINT_ADDRESS), decode)
    && forall i :: 0 <= i < |responses| ==> Contributed(responses[i], DEPOSIT_ADDRESS).Str?
  }

  lemma ResponseDataSpec(responses: seq<Js.Value>, wallets: seq<string>, env: Envelope)
    requires |responses| == |wallets|
    ensures ResponseData(responses, wallets, env).Ok? <==>
      forall i :: 0 <= i < |responses| ==> Accepted(responses[i], wallets[i], env)
    ensures ResponseData(responses, wallets, env).Ok? ==>
      && |ResponseData(responses, wallets, env).value| == |responses|
      && forall i :: 0 <= i < |responses| ==> ResponseData(responses, wallets, env).value[i] == Js.Get(responses[i], DATA)
  {
    var pairs := Paired(responses, wallets);
    var f := (q: (Js.Value, string)) => Validated(q.0, q.1, env);
    MapAllSpec(pairs, f);
    assert forall i :: 0 <= i < |responses| ==> f(pairs[i]) == Validated(responses[i], wallets[i], env);
  }

  lemma DataOfResponses(responses: seq<Js.Value>, data: seq<Js.Value>, decode: string -> Option<seq<SplToken.byte>>)
    requires |data| == |responses|
    requires forall i :: 0 <= i < |responses| ==> data[i] == Js.Get(responses[i], DATA) && Js.IsObject(data[i])
    ensures DataValid(data, decode) <==>
      && |responses| > 0
      && (forall i :: 0 <= i < |responses| ==>
            Js.StrictEq(Contributed(responses[i], MINT_ADDRESS), Contributed(responses[0], MINT_ADDRESS)))
      && SplToken.IsAddress(Contributed(responses[0], MINT_ADDRESS), decode)
      && forall i :: 0 <= i < |responses| ==> Contributed(responses[i], DEPOSIT_ADDRESS).Str?
  {
  }

  /** A registration passes its checks exactly when the responses are
      valid; it then asks for the agreed mint address and, in node order,
      the addresses the nodes contributed. A count that differs from the
      number of nodes is refused first. */
  lemma RegistrationSpec(responses: seq<Js.Value>, wallets: seq<string>, env: Envelope,
                         decode: string -> Option<seq<SplToken.byte>>)
    ensures RegistrationOf(responses, wallets, env, decode).Ok? <==> RegistrationValid(responses, wallets, env, decode)
    ensures |responses| != |wallets| ==> RegistrationOf(responses, wallets, env, decode) == Err(INCORRECT_AUTHORITY_COUNT)
    ensures RegistrationOf(responses, wallets, env, decode).Ok? ==>
      var g := RegistrationOf(responses, wallets, env, decode).value;
      && |responses| > 0
      && Js.Str(g.mintAddress) == Contributed(responses[0], MINT_ADDRESS)
      && |g.depositAddresses| == |responses|
      && forall i :: 0 <= i < |responses| ==> Js.Str(g.depositAddresses[i]) == Contributed(responses[i], DEPOSIT_ADDRESS)
  {
    if |responses| == |wallets| {
      ResponseDataSpec(responses, wallets, env);
      var rd := ResponseData(responses, wallets, env);
      if rd.Ok? {
        var data := rd.value;
        RegistrationFromSpec(data, decode);
        DataOfResponses(responses, data, decode);
      }
    }
  }

  /** Once a registration has marked its addresses used, the same
      responses can never register again. */
  lemma RegistrationNotReplayable(used: seq<string>, g: Registration)
    requires |g.depositAddresses| > 0
    ensures HasUsedDepositAddresses(used + g.depositAddresses, g.depositAddresses)
  {
    RegisteredAreUsed(used, g.depositAddresses);
  }

  // ---------------------------------------------------------------------
  // approveMint and approveMintTest (authorityDaemon.js:396-454)

  /** The `mint` object of an approval request. */
  datatype MintRequest = MintRequest(mintAddress: string, depositAddress: string, mintAmount: string)

  /** The fields of `data.mint`, read in the order the handler reads them. */
  function MintRequestOf(data: Js.Value): (r: Result<MintRequest>)
    ensures r.Ok? ==> var mint := Js.Get(data, "mint");
      && Js.Get(mint, MINT_ADDRESS) == Js.Str(r.value.mintAddress)
      && Js.Get(mint, DEPOSIT_ADDRESS) == Js.Str(r.value.depositAddress)
      && AmountText(Js.Get(mint, "mintAmount"), r.value.mintAmount)
  {
    var mint := Js.Get(data, "mint");
    var depositAddress :- Text(mint, DEPOSIT_ADDRESS);
    var mintAddress :- Text(mint, MINT_ADDRESS);
    var mintAmount :- Amount(mint, "mintAmount");
    Ok(MintRequest(mintAddress, depositAddress, mintAmount))
  }

  /** `BigInt(dingo.toSatoshi(deposited))`, where `deposited` is what
      `getReceivedAmountByAddress` answered: the number 0 for an address
      that has received nothing is not a string, and is refused. */
  function ReceivedSatoshi(deposited: Js.Value): (r: Result<int>)
    ensures !deposited.Str? ==> r == Err(EXPECTED_STRING)
    ensures deposited.Str? ==> r == Satoshi(deposited.s)
  {
    if deposited.Str? then Satoshi(deposited.s) else Err(EXPECTED_STRING)
  }

  /** The deposits of the requested address, in satoshi. */
  function DepositOf(entries: seq<Dingo.Received>, req: MintRequest): Result<int> {
    ReceivedSatoshi(Dingo.ReceivedAmount(entries, req.depositAddress))
  }

  /** The checks of a mint approval, in their order, and the row with its
      approved amount raised by the requested amount. */
  function MintApproval(mints: seq<MintRow>, entries: seq<Dingo.Received>, req: MintRequest): Result<MintRow> {
    var found :- GetMintDepositAddress(mints, req.mintAddress);
    var _ :- Need(found.Some?, UNREGISTERED_MINT);
    var row := found.value;
    var _ :- Need(row.depositAddress == req.depositAddress, DETAILS_INCORRECT);
    var depositedAmount :- DepositOf(entries, req);
    var mintAmount :- ParseBigInt(req.mintAmount);
    var _ :- Need(AmountAfterTax(depositedAmount) - row.approvedAmount >= mintAmount, INSUFFICIENT_MINT_BALANCE);
    Ok(row.(approvedAmount := row.approvedAmount + mintAmount))
  }

  /** `mints[i]` is the only row for mint address `a`. */
  predicate OnlyMint(mints: seq<MintRow>, i: int, a: string) {
    && 0 <= i < |mints|
    && mints[i].mintAddress == a
    && forall j :: 0 <= j < |mints| && j != i ==> mints[j].mintAddress != a
  }

  /** The request names the row's deposit address, whose deposits are
      readable and cover, after tax, what was already approved plus the
      requested amount. */
  predicate MintAllowed(row: MintRow, entries: seq<Dingo.Received>, req: MintRequest) {
    && row.depositAddress == req.depositAddress
    && DepositOf(entries, req).Ok?
    && ParseBigInt(req.mintAmount).Ok?
    && row.approvedAmount + ParseBigInt(req.mintAmount).value <= AmountAfterTax(DepositOf(entries, req).value)
  }

  lemma OnlyMintFound(mints: seq<MintRow>, a: string)
    ensures GetMintDepositAddress(mints, a).Ok? && GetMintDepositAddress(mints, a).value.Some? <==>
      exists i :: OnlyMint(mints, i, a)
    ensures forall i :: OnlyMint(mints, i, a) ==> GetMintDepositAddress(mints, a) == Ok(Some(mints[i]))
  {
    var r := GetMintDepositAddress(mints, a);
    if r.Ok? && r.value.Some? {
      var i :| 0 <= i < |mints| && mints[i] == r.value.value;
      assert OnlyMint(mints, i, a);
      forall j | OnlyMint(mints, j, a) ensures j == i {
      }
    }
    forall i | OnlyMint(mints, i, a) ensures r == Ok(Some(mints[i])) {
      assert r != Ok(None);
      var m :| 0 <= m < |mints| && mints[m] == r.value.value;
      assert m == i;
    }
  }

  /** With one row for the mint address, the approval is decided by that
      row alone. */
  lemma MintApprovalAt(mints: seq<MintRow>, entries: seq<Dingo.Received>, req: MintRequest, i: int)
    requires OnlyMint(mints, i, req.mintAddress)
    ensures MintApproval(mints, entries, req).Ok? <==> MintAllowed(mints[i], entries, req)
    ensures MintAllowed(mints[i], entries, req) ==>
      MintApproval(mints, entries, req) ==
        Ok(mints[i].(approvedAmount := mints[i].approvedAmount + ParseBigInt(req.mintAmount).value))
    ensures mints[i].depositAddress != req.depositAddress ==> MintApproval(mints, entries, req) == Err(DETAILS_INCORRECT)
  {
    OnlyMintFound(mints, req.mintAddress);
  }

  /** A mint is approved exactly when its address has one row and the
      request is covered by that row's deposits; the approved row differs
      from the stored one only in its approved amount, raised by exactly
      the requested amount. */
  lemma MintApprovalSpec(mints: seq<MintRow>, entries: seq<Dingo.Received>, req: MintRequest)
    ensures MintApproval(mints, entries, req).Ok? <==>
      exists i :: OnlyMint(mints, i, req.mintAddress) && MintAllowed(mints[i], entries, req)
    ensures MintApproval(mints, entries, req).Ok? ==>
      exists i :: && OnlyMint(mints, i, req.mintAddress)
                  && MintApproval(mints, entries, req).value ==
                       mints[i].(approvedAmount := mints[i].approvedAmount + ParseBigInt(req.mintAmount).value)
  {
    OnlyMintFound(mints, req.mintAddress);
    if exists i :: OnlyMint(mints, i, req.mintAddress) {
      var i :| OnlyMint(mints, i, req.mintAddress);
      MintApprovalAt(mints, entries, req, i);
    }
  }

  /** After an approval the row's approved amount still stays within what
      its deposits earn after tax, and it grows when the requested amount
      is not negative (the handler itself never checks that sign). */
  lemma MintApprovalBound(mints: seq<MintRow>, entries: seq<Dingo.Received>, req: MintRequest)
    requires MintApproval(mints, entries, req).Ok?
    ensures DepositOf(entries, req).Ok? && ParseBigInt(req.mintAmount).Ok?
    ensures MintApproval(mints, entries, req).value.approvedAmount <= AmountAfterTax(DepositOf(entries, req).value)
    ensures ParseBigInt(req.mintAmount).value >= 0 ==>
      exists i :: OnlyMint(mints, i, req.mintAddress) &&
        MintApproval(mints, entries, req).value.approvedAmount >= mints[i].approvedAmount
  {
    MintApprovalSpec(mints, entries, req);
    var i :| OnlyMint(mints, i, req.mintAddress) && MintAllowed(mints[i], entries, req);
    MintApprovalAt(mints, entries, req, i);
  }

  /** An address that has received nothing reads as the number 0, so no
      amount, not even zero, is approved against it. */
  lemma NoDepositNoMint(mints: seq<MintRow>, entries: seq<Dingo.Received>, req: MintRequest)
    requires !Dingo.HasEntry(entries, req.depositAddress)
    ensures MintApproval(mints, entries, req).Err?
  {
    Dingo.ReceivedDictKeys(entries);
    MintApprovalSpec(mints, entries, req);
  }

  // ---------------------------------------------------------------------
  // queryBurnHistory (authorityDaemon.js:456-489)

  /** The status the handler writes into one burn of the history: none for
      an unknown burn, submitted while its tax is unapproved, approved
      after. */
  function BurnStatus(withdrawals: seq<WithdrawalRow>, burnSignature: string): Result<Option<string>> {
    var w :- GetWithdrawal(withdrawals, burnSignature);
    if w.None? then Ok(None)
    else if w.value.approvedTax == 0 then Ok(Some(SUBMITTED))
    else Ok(Some(APPROVED))
  }

  /** An unrecorded burn has no status, a burn recorded once reports
      whether its tax has been approved, and a burn recorded twice makes
      the query fail. */
  lemma BurnStatusSpec(withdrawals: seq<WithdrawalRow>, s: string)
    ensures BurnStatus(withdrawals, s) == Ok(None) <==>
      forall i :: 0 <= i < |withdrawals| ==> withdrawals[i].burnSignature != s
    ensures forall i :: OnlyWithdrawal(withdrawals, i, s) ==>
      BurnStatus(withdrawals, s) == Ok(Some(if withdrawals[i].approvedTax == 0 then SUBMITTED else APPROVED))
    ensures BurnStatus(withdrawals, s).Err? <==>
      exists i, j :: 0 <= i < j < |withdrawals| && withdrawals[i].burnSignature == s && withdrawals[j].burnSignature == s
  {
    var r := GetWithdrawal(withdrawals, s);
    forall i | OnlyWithdrawal(withdrawals, i, s)
      ensures BurnStatus(withdrawals, s) == Ok(Some(if withdrawals[i].approvedTax == 0 then SUBMITTED else APPROVED))
    {
      assert r != Ok(None);
      var m :| 0 <= m < |withdrawals| && withdrawals[m] == r.value.value;
      assert m == i;
    }
  }

  // ---------------------------------------------------------------------
  // submitWithdrawal (authorityDaemon.js:491-526)

  /** The `burn` object of a withdrawal request. */
  datatype BurnClaim = BurnClaim(burnSignature: string, burnAmount: string, burnDestination: string)

  function BurnClaimOf(data: Js.Value): (r: Result<BurnClaim>)
    ensures r.Ok? ==> var burn := Js.Get(data, "burn");
      && Js.Get(burn, "burnSignature") == Js.Str(r.value.burnSignature)
      && AmountText(Js.Get(burn, "burnAmount"), r.value.burnAmount)
      && Js.Get(burn, "burnDestination") == Js.Str(r.value.burnDestination)
  {
    var burn := Js.Get(data, "burn");
    var burnDestination :- Text(burn, "burnDestination");
    var burnAmount :- Amount(burn, "burnAmount");
    var burnSignature :- Text(burn, "burnSignature");
    Ok(BurnClaim(burnSignature, burnAmount, burnDestination))
  }

  /** The checks of a withdrawal claim, in their order, and the row it
      records. `destinationValid` is the source chain's `validateaddress`
      answer and `tx` the burn transaction the destination ledger reports. */
  function WithdrawalOf(withdrawals: seq<WithdrawalRow>, claim: BurnClaim, destinationValid: bool,
                        tx: Option<SplToken.TxMessage>): Result<WithdrawalRow> {
    var _ :- Need(destinationValid, INVALID_DESTINATION);
    var amount :- ParseBigInt(claim.burnAmount);
    var _ :- Need(MeetsThreshold(amount), BELOW_THRESHOLD);
    var existing :- GetWithdrawal(withdrawals, claim.burnSignature);
    var _ :- Need(existing.None?, ALREADY_SUBMITTED);
    var chainBurn :- SplToken.GetBurn(claim.burnSignature, tx);
    var chainAmount :- ParseBigInt(chainBurn.amount);
    var _ :- Need(amount == chainAmount, AMOUNT_MISMATCH);
    var _ :- Need(claim.burnDestination == chainBurn.destination, DESTINATION_MISMATCH);
    Ok(WithdrawalRow(claim.burnSignature, amount, claim.burnDestination, 0, 0))
  }

  /** The claim is for a valid destination, an amount of at least the
      threshold, a burn not yet recorded, and matches the burn on chain in
      amount and destination. */
  predicate ClaimValid(withdrawals: seq<WithdrawalRow>, claim: BurnClaim, destinationValid: bool,
                       tx: Option<SplToken.TxMessage>) {
    && destinationValid
    && ParseBigInt(claim.burnAmount).Ok?
    && MeetsThreshold(ParseBigInt(claim.burnAmount).value)
    && (forall i :: 0 <= i < |withdrawals| ==> withdrawals[i].burnSignature != claim.burnSignature)
    && SplToken.GetBurn(claim.burnSignature, tx).Ok?
    && ParseBigInt(SplToken.GetBurn(claim.burnSignature, tx).value.amount) == ParseBigInt(claim.burnAmount)
    && claim.burnDestination == SplToken.GetBurn(claim.burnSignature, tx).value.destination
  }

  /** A claim is recorded exactly when it is valid, as one row holding its
      three fields and zero counters; a burn already recorded is refused as
      submitted. */
  lemma WithdrawalOfSpec(withdrawals: seq<WithdrawalRow>, claim: BurnClaim, destinationValid: bool,
                         tx: Option<SplToken.TxMessage>)
    ensures WithdrawalOf(withdrawals, claim, destinationValid, tx).Ok? <==>
      ClaimValid(withdrawals, claim, destinationValid, tx)
    ensures WithdrawalOf(withdrawals, claim, destinationValid, tx).Ok? ==>
      WithdrawalOf(withdrawals, claim, destinationValid, tx).value ==
        WithdrawalRow(claim.burnSignature, ParseBigInt(claim.burnAmount).value, claim.burnDestination, 0, 0)
    ensures (&& destinationValid && ParseBigInt(claim.burnAmount).Ok? && MeetsThreshold(ParseBigInt(claim.burnAmount).value)
             && exists i :: OnlyWithdrawal(withdrawals, i, claim.burnSignature)) ==>
      WithdrawalOf(withdrawals, claim, destinationValid, tx) == Err(ALREADY_SUBMITTED)
  {
    var found := GetWithdrawal(withdrawals, claim.burnSignature);
    if exists i :: OnlyWithdrawal(withdrawals, i, claim.burnSignature) {
      var i :| OnlyWithdrawal(withdrawals, i, claim.burnSignature);
      assert found != Ok(None);
    }
  }

  /** Recording a valid claim keeps burn signatures unique, and afterwards
      the same claim is refused as already submitted. */
  lemma WithdrawalKeepsBurnsDistinct(withdrawals: seq<WithdrawalRow>, claim: BurnClaim, destinationValid: bool,
                                     tx: Option<SplToken.TxMessage>)
    requires DistinctBurns(withdrawals)
    requires WithdrawalOf(withdrawals, claim, destinationValid, tx).Ok?
    ensures DistinctBurns(withdrawals + [WithdrawalOf(withdrawals, claim, destinationValid, tx).value])
    ensures WithdrawalOf(withdrawals + [WithdrawalOf(withdrawals, claim, destinationValid, tx).value],
                         claim, destinationValid, tx) == Err(ALREADY_SUBMITTED)
  {
    WithdrawalOfSpec(withdrawals, claim, destinationValid, tx);
    var row := WithdrawalOf(withdrawals, claim, destinationValid, tx).value;
    var after := withdrawals + [row];
    assert OnlyWithdrawal(after, |withdrawals|, claim.burnSignature);
    WithdrawalOfSpec(after, claim, destinationValid, tx);
  }
}
